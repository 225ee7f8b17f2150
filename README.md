# Message core of connect-backend, in Dafny

This project models the messaging core of the connect-backend chat server. It covers the Express routes
that `index.js` mounts under `/api/chat` (`Routes/message.js`) and the Mongoose `Message` schema they store through
(`Models/message.js`). The route operations are:

- sending a message into the conversation of a pair of users;
- listing the caller's inbox;
- listing one conversation in time order;
- summarising the caller's conversations by their latest message and partner;
- editing a message's text (sender only);
- deleting a message (sender or receiver).

The message collection is a class `MessageRoutes.MessageStore`. It has three fields:

- the stored documents, in insertion order;
- the next document id;
- a clock that stands in for `Date.now`.

Its methods change those fields the way the route handlers change the collection, with one exception.
Send stores the conversation key built from the two ids as they are stored, not from the request
strings as written; see "## Findings". Every method keeps a table invariant
(`MessageRoutes.TableInvariant`):

- every document passes the schema;
- every document holds the key of its own two users;
- ids are unique;
- `createdAt` never decreases along the table.

The queries (`find`, `findOne`, `findById`, `distinct`, `sort`) are functions on the table's value. Their
contracts say what the routes rely on. Those facts are proved as lemmas:

- the key is the same in both directions;
- the key splits back into the pair and is injective;
- a conversation listing is chronological and exactly the conversation's messages;
- each summary names the caller's real partner in that conversation.

Statuses map to HTTP codes as follows: `Ok` is 200 (201 for send), `ValidationError` 400, `NotFound`
404, `Forbidden` 403 and `InternalError` 500.

Modules, one per file:

- `Results`: Option, status and result types.
- `JsText`: `String.prototype.trim` and the default order of `Array.prototype.sort`.
- `ConversationKey`: `[a, b].sort().join("-")`.
- `MessageSchema`: the document, its ObjectId cast and `save()` validation.
- `MessageQueries`: find, sort and lookup.
- `Authorization`: the edit and delete checks.
- `ConversationSummaries`: `GET /api/chat/conversations`.
- `MessageRoutes`: the store and the route handlers.

## Model

| member | source | states |
|---|---|---|
| JsText.TrimStart | Routes/message.js:53 | the result is a suffix of the input; what was dropped is all white space; the result does not start with white space; it is empty iff the input is blank |
| JsText.TrimEnd | Routes/message.js:53 | the result is a prefix of the input; what was dropped is all white space; the result does not end with white space; it is empty iff the input is blank |
| JsText.Trim | Routes/message.js:53 | `s.trim()` is a contiguous piece of s with only white space cut away on either side; it neither starts nor ends with white space; it is `""` exactly when every character of s is ECMAScript white space or a line terminator |
| JsText.LexLeq | Routes/message.js:58 | the default sort comparison: a prefix sorts first, a string sorts after its proper prefixes, and otherwise the first differing character decides |
| JsText.LexLeqTotal | Routes/message.js:58 | the default sort order relates any two strings one way or the other |
| JsText.LexLeqAntisymmetric | Routes/message.js:58 | two strings that each sort no later than the other are equal |
| ConversationKey.Key | Routes/message.js:58 | `[a, b].sort().join("-")` is the two ids joined by '-', the one that sorts first on the left |
| ConversationKey.SortPair | Routes/message.js:58 | sorting two ids gives the same two ids, in sort order |
| ConversationKey.KeyCommutes | Routes/message.js:58-65 | the key of (a, b) equals the key of (b, a), so the lookup of the "other permutation" looks up the same key |
| ConversationKey.Participants | Routes/message.js:58 | splitting at the first '-' fails iff there is no '-'; otherwise the first part has no '-' and joining the parts gives back the key |
| ConversationKey.KeyParticipants | Routes/message.js:58 | the key of two '-'-free ids splits back into the sorted pair |
| ConversationKey.KeyInjective | Routes/message.js:58 | with '-'-free ids, two keys are equal only for the same unordered pair |
| ConversationKey.KeyAmbiguousWithDashes | Routes/message.js:58 | without the '-'-free restriction ("a","b-c") and ("a-b","c") share a key |
| MessageSchema.CastObjectId | Models/message.js:5-10 | a reference casts iff it is 24 hex digits of either case; the cast is the input with every digit A-F written in lower case, so two spellings of one id cast alike, and canonical text casts to itself |
| MessageSchema.ObjectIdHasNoDash | Models/message.js:5-10 | the text of an ObjectId contains no '-' |
| MessageSchema.WellFormed | Models/message.js:4-11 | a document is stored only with conversationId and text set and non-empty and both references as ObjectId text, which casts to itself |
| MessageSchema.Save | Models/message.js:3-13 | save succeeds iff conversationId and text are set and non-empty and both references are set and cast; the stored document passes the schema, holds the cast references, and gets createdAt from `Date.now` when it is unset |
| MessageSchema.ResaveUnchanged | Models/message.js:3-13 | saving a stored document again stores it unchanged |
| MessageSchema.ResaveWithText | Routes/message.js:147-148 | after `message.text = text`, save succeeds iff text is set and non-empty, and then only the text differs |
| MessageQueries.Filter | Routes/message.js:14 | the result holds exactly the matching elements, each as often as in the input, in input order |
| MessageQueries.FilterAppend | Routes/message.js:34 | filtering distributes over concatenation |
| MessageQueries.FilterChronological | Routes/message.js:34-35 | filtering a chronological table gives a chronological result |
| MessageQueries.InsertByCreatedAt | Routes/message.js:35 | inserting into a chronological sequence keeps it chronological and adds exactly the one message |
| MessageQueries.SortByCreatedAt | Routes/message.js:35 | `.sort({ createdAt: 1 })` returns a chronological permutation of its input |
| MessageQueries.SortChronologicalIsIdentity | Routes/message.js:35 | the model's stable sort leaves an already chronological sequence unchanged |
| MessageQueries.ChronologicalPermutationUnique | Routes/message.js:35 | two chronological orderings of the same documents are equal when no two share a createdAt |
| MessageQueries.ListingWithDistinctTimes | Routes/message.js:34-35 | when no two documents of a conversation share a createdAt, every order `.sort({ createdAt: 1 })` may return is the conversation's storage order on a chronological table, whatever the tie-break |
| MessageQueries.FindOne | Routes/message.js:59 | `findOne({ conversationId })` finds nothing iff no document has that id; otherwise it returns a stored document with that id |
| MessageQueries.ConversationListing | Routes/message.js:34-37 | the listing is chronological and holds exactly the conversation's documents, with multiplicity; it is empty iff the conversation has none |
| MessageQueries.ListingOfChronological | Routes/message.js:34-35 | on a chronological table the model's listing is the conversation's documents in storage order (ties broken by the model's stable sort) |
| MessageQueries.ListingAfterAppend | Routes/message.js:34-35 | appending a document no older than the table adds it at the end of its own conversation's listing and leaves every other listing unchanged |
| MessageQueries.Inbox | Routes/message.js:14-17 | `find({ receiver: userId })` returns exactly the documents addressed to the caller, with multiplicity, in storage order |
| MessageQueries.FindIndex | Routes/message.js:132 | finding fails iff no document has the id; otherwise it gives the first position holding it |
| MessageQueries.Lookup | Routes/message.js:132-137 | `findById` gives 404 iff no document has the id; otherwise it gives a stored document with that id |
| MessageQueries.FindIndexUnique | Routes/message.js:132 | with unique ids, any position holding the id is the one found |
| ConversationSummaries.Mentions | Routes/message.js:86-88 | the conversation ids of the documents the user sent or received are exactly those; there are none iff the user has no such document |
| ConversationSummaries.ConversationIds | Routes/message.js:86-90 | the distinct conversation ids are exactly those of the documents the user sent or received, each once |
| ConversationSummaries.FirstIndex | Routes/message.js:89 | the first occurrence of a value: it holds the value and nothing before it does |
| ConversationSummaries.Distinct | Routes/message.js:89 | `.distinct(...)` has the same values as its input, has no repeats, is empty iff the input is, and keeps first-occurrence order |
| ConversationSummaries.Latest | Routes/message.js:97-98 | `findOne(...).sort({ createdAt: -1 })` is None iff the conversation has no documents; otherwise it returns one of the conversation's documents with the greatest createdAt |
| ConversationSummaries.OtherUser | Routes/message.js:103-106 | for a document that involves the user, the user and the other user are the document's two participants |
| ConversationSummaries.SummarizeEach | Routes/message.js:95-116 | one summary per id, in order, each describing its conversation by its latest document and the other participant; the request fails with 500 iff some id has no document |
| ConversationSummaries.Conversations | Routes/message.js:81-118 | the route succeeds with one summary per distinct conversation id of the user, in order, each describing its conversation |
| ConversationSummaries.ConversationsEmptyIff | Routes/message.js:91-93 | the response is `[]` exactly when the user neither sent nor received a message |
| ConversationSummaries.SummariesDistinct | Routes/message.js:86-90 | no conversation is summarised twice |
| ConversationSummaries.SummariesCoverConversations | Routes/message.js:86-96 | every conversation of a document the user sent or received has a summary |
| ConversationSummaries.SummariesComeFromUserMessages | Routes/message.js:86-96 | every summary is of a conversation of a document the user sent or received |
| ConversationSummaries.PartnerOfConversation | Routes/message.js:103-106 | on a table the send route built, each document of one of the user's conversations involves the user, and the user with its other participant gives back the conversation's key |
| ConversationSummaries.SummaryNamesThePartner | Routes/message.js:103-111 | a summary of one of the user's conversations names the user's partner in it |
| ConversationSummaries.SummariesNameThePartner | Routes/message.js:103-111 | on a table the send route built, the key of the user and each summary's otherUser is that summary's conversationId |
| MessageRoutes.TextMissing | Routes/message.js:53 | the guard rejects exactly the absent text and the text made only of white space |
| Authorization.CanEdit | Routes/message.js:140 | only the sender's stored id, which is canonical ObjectId text, may edit |
| Authorization.CanDelete | Routes/message.js:171-173 | whoever may edit may delete; only the stored id of the sender or the receiver may delete |
| MessageRoutes.SendKeyAsWritten | Routes/message.js:58 | the key from the request strings does not depend on direction, and agrees with the corrected key when both strings are already canonical |
| MessageRoutes.AsWrittenKeySplitsThread | Routes/message.js:58 | with the key taken from the request strings as written, a receiver id that casts but is not canonical gets a key that the reply from that user never produces |
| MessageRoutes.SendKey | Routes/message.js:58 | the key from the stored ids exists iff both ids cast |
| MessageRoutes.SendKeyNamesThePair | Routes/message.js:58-65 | the key from the stored ids is the same in both directions and for every spelling of the two ids |
| MessageRoutes.NewDocument | Routes/message.js:69 | the new document exists iff the text is non-empty and both ids cast; it passes the schema, holds the cast ids, the key of those ids, the text and the current time |
| MessageRoutes.AppendKeepsInvariant | Routes/message.js:69-72 | appending a validated document with the next id, its pair's key and the current time keeps the table invariant |
| MessageRoutes.EditKeepsInvariant | Routes/message.js:147-148 | replacing one document's text with a non-empty text keeps the table invariant |
| MessageRoutes.RemoveKeepsInvariant | Routes/message.js:181 | removing one document keeps the table invariant, and its id is then not found |
| MessageRoutes.MessageStore.constructor | Models/message.js:18 | a new collection has no documents, and the id counter and clock start at 0 |
| MessageRoutes.MessageStore.Send | Routes/message.js:47-79 | 400 iff the text is missing or blank; 201 iff the text is present, the receiver is given and both ids cast; then exactly one document is appended, whether or not the conversation already existed; otherwise 500 and nothing changes |
| MessageRoutes.MessageStore.Insert | Routes/message.js:69-72 | the document is appended, the id counter advances, and the invariant is kept |
| MessageRoutes.MessageStore.Edit | Routes/message.js:125-154 | 404 for an unknown id; 403 unless the caller is the sender; 500 when the new text fails validation; otherwise only that document's text changes; nothing changes on any error |
| MessageRoutes.MessageStore.ReplaceText | Routes/message.js:147-148 | only the text at the one position changes, and the invariant is kept |
| MessageRoutes.MessageStore.Delete | Routes/message.js:157-188 | 404 for an unknown id; 403 unless the caller is the sender or the receiver; otherwise exactly that document is removed, the rest stay in order, and the id is no longer found |
| MessageRoutes.MessageStore.Discard | Routes/message.js:181 | exactly the one position is removed, and the invariant is kept |
| MessageRoutes.MessageStore.ListInbox | Routes/message.js:11-23 | the caller's inbox: exactly the documents addressed to the caller, each as often as stored, in storage order |
| MessageRoutes.MessageStore.ListConversation | Routes/message.js:26-45 | the listing is `ConversationListing` (chronological, exactly the conversation's documents), which with the model's stable tie-break is their storage order |
| MessageRoutes.MessageStore.ListConversations | Routes/message.js:81-123 | the route's summaries, each naming the caller's partner in its conversation |

## Left out

- Authentication (`authMiddleware`, the JWT): the caller's id is a parameter of every method. The
  queries compare it with stored ids as text, so matching needs the canonical lower-case id, which is
  the form a token carries.
- `populate(...)`, user names and emails, and the user collection: a summary's `otherUser` is the
  partner's id. A populated reference whose user has been deleted is not modelled.
- The `:messageId` parameter is a natural-number document id. The 500 that Mongoose gives for a
  parameter that is not an ObjectId is not modelled.
- ObjectId casting covers the 24-hex-digit text form only. The 12-byte string form and ObjectId values
  in the body are left out.
- Body values that are not strings, such as numbers Mongoose would cast to String, are left out.
  `receiver` and `text` are `Option<string>`, with None for undefined.
- Concurrency is left out: requests run one after another. The interleaving of the `/conversations`
  lookups under `Promise.all` with writes is therefore not modelled.
- `console.log`/`console.error`, the JSON response bodies and the database index are left out.
- Other failures of the database driver (the generic `catch` that answers 500) are left out.
- `Date.now` is the store's clock, advanced by Send's `elapsed` parameter. It may be 0, so two
  documents can share a createdAt.
- `distinct` is specified only up to order by MongoDB. The model returns first-occurrence order.
- String comparison in `sort` is taken on code points, not UTF-16 code units. The two agree on
  ObjectId text, which is all the key ever sorts in the corrected model.
- ConversationSummaries.Latest: among documents with the same greatest createdAt, the contract does
  not say which one is returned. MongoDB does not specify that either.
- MessageQueries.SortByCreatedAt: the contract does not fix the order of documents with equal
  createdAt, and neither does MongoDB. The function itself is a stable insertion sort.
- MessageQueries.SortChronologicalIsIdentity: it holds of the model's stable sort. MongoDB promises no
  tie-break, so for documents with equal createdAt it is not a fact about the program.
- MessageQueries.ListingOfChronological: on a table where documents of one conversation share a
  createdAt, storage order is the model's stable tie-break, not something the program promises.
  ListingWithDistinctTimes states the tie-free case, which holds for every tie-break.
- MessageQueries.ListingAfterAppend: that the new document comes last among documents with the same
  createdAt relies on the model's stable tie-break.
- MessageRoutes.MessageStore.ListConversation: its second ensures (storage order) relies on the
  model's stable tie-break when createdAt repeats. Its first ensures (chronological, exactly the
  conversation's documents) does not.
- MessageRoutes.MessageStore.Send: it stores the corrected key, built from the cast ids. The route as
  written stores the key of the request strings. A table built that way breaks `KeysCanonical` when the
  receiver is spelled in non-canonical form, such as upper-case hex. `PartnerOfConversation`,
  `SummariesNameThePartner` and the partner ensures of `ListConversations` hold only with the corrected
  key.

## Findings

| source | as written | input that shows it | evidently intended | confidence | as-written member | corrected member |
|---|---|---|---|---|---|---|
| Routes/message.js:58 | The conversation key joins the sender and receiver strings from the request. Mongoose then stores the receiver as its lower-case ObjectId. | A caller `aaaaaaaaaaaaaaaaaaaaaaaa` sends to receiver `BBBBBBBBBBBBBBBBBBBBBBBB`. The document stores receiver `bbbbbbbbbbbbbbbbbbbbbbbb` under key `BBBBBBBBBBBBBBBBBBBBBBBB-aaaaaaaaaaaaaaaaaaaaaaaa`. That user's reply gets key `aaaaaaaaaaaaaaaaaaaaaaaa-bbbbbbbbbbbbbbbbbbbbbbbb`, so one pair of users has two threads. | one conversation id per pair of stored users, computed from the ids as stored | low; not executed | MessageRoutes.AsWrittenKeySplitsThread | MessageRoutes.SendKeyNamesThePair, MessageRoutes.NewDocument, MessageRoutes.MessageStore.Send |
