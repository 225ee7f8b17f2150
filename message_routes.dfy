/**
 * The message routes (Routes/message.js) over an in-memory message table:
 * the mutable state is the table of stored documents, the next document
 * id, and a clock standing in for Date.now.
 */
module MessageRoutes {
  import opened Results
  import opened JsText
  import opened ConversationKey
  import opened MessageSchema
  import opened MessageQueries
  import opened Authorization
  import opened ConversationSummaries

  /** The guard `!text || text.trim() === ""`: the text is absent, empty or white space only. */
  function TextMissing(text: Option<string>): (missing: bool)
    ensures missing <==> text.None? || IsBlank(text.value)
  {
    if text.None? then true
    else Trim(text.value) == ""
  }

  /** The key as line 58 computes it: from the request strings, before they are cast. */
  function SendKeyAsWritten(caller: string, receiver: string): (k: string)
    ensures k == Key(receiver, caller)
    ensures IsObjectId(caller) && IsObjectId(receiver) ==> SendKey(caller, receiver) == Some(k)
  {
    KeyCommutes(caller, receiver);
    Key(caller, receiver)
  }

  /**
   * A receiver id that casts but is not in canonical form (upper-case hex
   * digits, say "BBBBBBBBBBBBBBBBBBBBBBBB") is stored as the same user as its
   * lower-case form, yet it gives a conversation id that the reply from that
   * user, whose own id is always canonical, never produces: one pair of
   * users, two threads.
   */
  lemma AsWrittenKeySplitsThread(caller: string, receiver: string)
    requires IsObjectId(caller)
    requires CastObjectId(receiver).Some? && CastObjectId(receiver).value != receiver
    ensures SendKeyAsWritten(caller, receiver) != SendKeyAsWritten(CastObjectId(receiver).value, caller)
  {
    var stored := CastObjectId(receiver).value;
    ObjectIdHasNoDash(caller);
    ObjectIdHasNoDash(stored);
    assert '-' !in receiver by {
      assert forall i :: 0 <= i < |receiver| ==> IsHexDigit(receiver[i]);
    }
    if Key(caller, receiver) == Key(stored, caller) {
      KeyInjective(caller, receiver, stored, caller);
    }
  }

  /** The key computed from the two ids as they are stored, or None when one does not cast. */
  function SendKey(caller: string, receiver: string): (r: Option<string>)
    ensures r.Some? <==> CastObjectId(caller).Some? && CastObjectId(receiver).Some?
  {
    match (CastObjectId(caller), CastObjectId(receiver))
    case (Some(s), Some(r)) => Some(Key(s, r))
    case _ => None
  }

  /**
   * The corrected key names the thread of a pair of stored users: it is the
   * same in both directions and for every spelling of the two ids.
   */
  lemma SendKeyNamesThePair(a: string, b: string, a': string, b': string)
    requires CastObjectId(a) == CastObjectId(a') && CastObjectId(b) == CastObjectId(b')
    ensures SendKey(a, b) == SendKey(b', a')
  {
    if SendKey(a, b).Some? {
      KeyCommutes(CastObjectId(a).value, CastObjectId(b).value);
    }
  }

  /**
   * The document `new Message({ conversationId, sender, receiver, text }).save()`
   * stores, with the corrected key; None when the save fails.
   */
  function NewDocument(id: MessageId, caller: string, receiver: string, text: string, now: nat): (r: Option<Message>)
    ensures r.Some? <==> text != "" && SendKey(caller, receiver).Some?
    ensures r.Some? ==>
      && WellFormed(r.value)
      && r.value.id == id
      && Some(r.value.sender) == CastObjectId(caller)
      && Some(r.value.receiver) == CastObjectId(receiver)
      && r.value.conversationId == Key(r.value.sender, r.value.receiver)
      && r.value.text == text
      && r.value.createdAt == now
  {
    match SendKey(caller, receiver)
    case None => None
    case Some(k) => Save(id, Fields(Some(k), Some(caller), Some(receiver), Some(text), None), now)
  }

  /**
   * The store's invariant on the table's values: every document satisfies
   * the schema and carries the key of its own pair; ids are unique and
   * already issued; createdAt never decreases along the table and never
   * lies after the clock.
   */
  ghost predicate TableInvariant(ms: seq<Message>, nextId: MessageId, clock: nat)
  {
    && AllWellFormed(ms)
    && KeysCanonical(ms)
    && IdsUnique(ms)
    && Chronological(ms)
    && (forall m :: m in ms ==> m.id < nextId && m.createdAt <= clock)
  }

  /** Appending a document with the next id, its own pair's key and the current time keeps the invariant. */
  lemma AppendKeepsInvariant(ms: seq<Message>, nextId: MessageId, clock: nat, m: Message)
    requires TableInvariant(ms, nextId, clock)
    requires WellFormed(m) && m.conversationId == Key(m.sender, m.receiver)
    requires m.id == nextId && clock <= m.createdAt
    ensures TableInvariant(ms + [m], nextId + 1, m.createdAt)
  {
    ChronologicalSnoc(ms, m);
    var r := ms + [m];
    forall i, j | 0 <= i < j < |r| ensures r[i].id != r[j].id {
      assert r[i] == ms[i] && r[i] in ms;
      if j < |ms| {
        assert r[j] == ms[j];
      }
    }
  }

  /** Replacing one document's text by a non-empty one keeps the invariant. */
  lemma EditKeepsInvariant(ms: seq<Message>, nextId: MessageId, clock: nat, k: nat, text: string)
    requires TableInvariant(ms, nextId, clock)
    requires k < |ms| && text != ""
    ensures TableInvariant(ms[k := ms[k].(text := text)], nextId, clock)
  {
    var r := ms[k := ms[k].(text := text)];
    assert ms[k] in ms;
    forall x | x in r
      ensures WellFormed(x) && x.conversationId == Key(x.sender, x.receiver)
      ensures x.id < nextId && x.createdAt <= clock
    {
      var j :| 0 <= j < |r| && r[j] == x;
      assert j != k ==> x == ms[j] && ms[j] in ms;
    }
    forall i, j | 0 <= i < j < |r|
      ensures r[i].id != r[j].id && r[i].createdAt <= r[j].createdAt
    {
      assert r[i].id == ms[i].id && r[i].createdAt == ms[i].createdAt;
      assert r[j].id == ms[j].id && r[j].createdAt == ms[j].createdAt;
    }
  }

  /** Removing one document keeps the invariant, and its id is no longer found. */
  lemma RemoveKeepsInvariant(ms: seq<Message>, nextId: MessageId, clock: nat, k: nat)
    requires TableInvariant(ms, nextId, clock)
    requires k < |ms|
    ensures TableInvariant(ms[..k] + ms[k + 1..], nextId, clock)
    ensures Lookup(ms[..k] + ms[k + 1..], ms[k].id) == Failure(NotFound)
  {
    ChronologicalRemove(ms, k);
    var r := ms[..k] + ms[k + 1..];
    RemoveAt(ms, k);
    forall i, j | 0 <= i < j < |r| ensures r[i].id != r[j].id {
      assert r[i] == ms[if i < k then i else i + 1];
      assert r[j] == ms[if j < k then j else j + 1];
    }
  }

  /** The elements left after removing position k, and where they came from. */
  lemma RemoveAt(ms: seq<Message>, k: nat)
    requires k < |ms| && IdsUnique(ms)
    ensures var r := ms[..k] + ms[k + 1..];
      && |r| == |ms| - 1
      && (forall i :: 0 <= i < |r| ==> r[i] == ms[if i < k then i else i + 1])
      && (forall x :: x in r ==> x in ms && x.id != ms[k].id)
  {
    var r := ms[..k] + ms[k + 1..];
    forall x | x in r ensures x in ms && x.id != ms[k].id {
      var i :| 0 <= i < |r| && r[i] == x;
      assert r[i] == ms[if i < k then i else i + 1];
    }
  }

  class MessageStore {
    /** The stored documents, in storage (insertion) order. */
    var messages: seq<Message>
    /** The id the next saved document receives. */
    var nextId: MessageId
    /** The current time in the units of createdAt. */
    var clock: nat

    /** The table invariant holds of the current state. */
    ghost predicate Valid()
      reads this
    {
      TableInvariant(messages, nextId, clock)
    }

    constructor ()
      ensures Valid()
      ensures messages == [] && nextId == 0 && clock == 0
    {
      messages, nextId, clock := [], 0, 0;
    }

    /**
     * POST /api/chat/: rejects missing or blank text with 400; otherwise
     * saves one new document in the conversation of the caller and the
     * receiver, whether or not the conversation already has messages. A
     * missing or uncastable receiver (or caller) fails the save: 500.
     * `elapsed` is how far the clock moved since the last request.
     */
    method Send(caller: string, receiver: Option<string>, text: Option<string>, elapsed: nat)
      returns (status: Status)
      requires Valid()
      modifies this
      ensures Valid()
      ensures status == Ok || status == ValidationError || status == InternalError
      ensures status == ValidationError <==> TextMissing(text)
      ensures status == Ok <==> !TextMissing(text) && receiver.Some? && SendKey(caller, receiver.value).Some?
      ensures status != Ok ==> messages == old(messages) && nextId == old(nextId) && clock == old(clock)
      ensures status == Ok ==>
        && nextId == old(nextId) + 1
        && clock == old(clock) + elapsed
        && messages == old(messages) + [NewDocument(old(nextId), caller, receiver.value, text.value, clock).value]
    {
      if TextMissing(text) {
        status := ValidationError;
      } else if receiver.None? || SendKey(caller, receiver.value).None? {
        // `receiver` is a required path, and an id that is not an ObjectId
        // fails to cast: either way the save is rejected.
        status := InternalError;
      } else {
        var s, r := CastObjectId(caller).value, CastObjectId(receiver.value).value;
        var conversationId := Key(s, r);
        var existing := FindOne(messages, conversationId);
        if existing.None? {
          // The "other permutation" yields the same key.
          conversationId := Key(r, s);
          KeyCommutes(s, r);
          existing := FindOne(messages, conversationId);
        }
        var doc := Save(nextId, Fields(Some(conversationId), Some(caller), receiver, text, None), clock + elapsed);
        assert doc == NewDocument(nextId, caller, receiver.value, text.value, clock + elapsed);
        if existing.None? {
          Insert(doc.value);
        } else {
          Insert(doc.value);
        }
        status := Ok;
      }
    }

    /** A validated new document joins the table, with the next id and the current time. */
    method Insert(m: Message)
      requires Valid()
      requires WellFormed(m) && m.conversationId == Key(m.sender, m.receiver)
      requires m.id == nextId && clock <= m.createdAt
      modifies this
      ensures Valid()
      ensures messages == old(messages) + [m]
      ensures nextId == old(nextId) + 1 && clock == m.createdAt
    {
      AppendKeepsInvariant(messages, nextId, clock, m);
      messages, nextId, clock := messages + [m], nextId + 1, m.createdAt;
    }

    /**
     * PUT /api/chat/:messageId: 404 for an unknown id, 403 unless the caller
     * sent the message; otherwise the text is assigned and the document
     * saved again, which the schema rejects (500) when the new text is
     * missing or empty. Nothing but that one text ever changes.
     */
    method Edit(caller: UserId, id: MessageId, text: Option<string>) returns (status: Status)
      requires Valid()
      modifies this
      ensures Valid()
      ensures nextId == old(nextId) && clock == old(clock)
      ensures Lookup(old(messages), id).Failure? ==> status == NotFound
      ensures Lookup(old(messages), id).Success? && !CanEdit(Lookup(old(messages), id).value, caller) ==>
        status == Forbidden
      ensures Lookup(old(messages), id).Success? && CanEdit(Lookup(old(messages), id).value, caller) ==>
        status == (if RequiredString(text) then Ok else InternalError)
      ensures status != Ok ==> messages == old(messages)
      ensures status == Ok ==>
        var k := FindIndex(old(messages), id).value;
        messages == old(messages)[k := old(messages)[k].(text := text.value)]
    {
      var found := FindIndex(messages, id);
      if found.None? {
        return NotFound;
      }
      var k := found.value;
      var m := messages[k];
      assert Lookup(messages, id) == Success(m);
      if !CanEdit(m, caller) {
        return Forbidden;
      }
      ResaveWithText(m, text, clock);
      var doc := Save(m.id, FieldsOf(m).(text := text), clock);
      if doc.None? {
        return InternalError;
      }
      ReplaceText(k, text.value);
      status := Ok;
    }

    /** Overwrites the text of the document at position k, keeping the invariant. */
    method ReplaceText(k: nat, text: string)
      requires Valid() && k < |messages| && text != ""
      modifies this
      ensures Valid()
      ensures messages == old(messages)[k := old(messages)[k].(text := text)]
      ensures nextId == old(nextId) && clock == old(clock)
    {
      EditKeepsInvariant(messages, nextId, clock, k, text);
      messages := messages[k := messages[k].(text := text)];
    }

    /**
     * DELETE /api/chat/:messageId: 404 for an unknown id, 403 unless the
     * caller is the sender or the receiver; otherwise the document is
     * removed and every other document stays in place.
     */
    method Delete(caller: UserId, id: MessageId) returns (status: Status)
      requires Valid()
      modifies this
      ensures Valid()
      ensures nextId == old(nextId) && clock == old(clock)
      ensures Lookup(old(messages), id).Failure? ==> status == NotFound
      ensures Lookup(old(messages), id).Success? ==>
        status == (if CanDelete(Lookup(old(messages), id).value, caller) then Ok else Forbidden)
      ensures status != Ok ==> messages == old(messages)
      ensures status == Ok ==>
        var k := FindIndex(old(messages), id).value;
        messages == old(messages)[..k] + old(messages)[k + 1..]
      ensures status == Ok ==> Lookup(messages, id) == Failure(NotFound)
    {
      var found := FindIndex(messages, id);
      if found.None? {
        return NotFound;
      }
      var k := found.value;
      if !CanDelete(messages[k], caller) {
        return Forbidden;
      }
      Discard(k);
      status := Ok;
    }

    /** Removes the document at position k, keeping the invariant; its id is then unknown. */
    method Discard(k: nat)
      requires Valid() && k < |messages|
      modifies this
      ensures Valid()
      ensures messages == old(messages)[..k] + old(messages)[k + 1..]
      ensures Lookup(messages, old(messages)[k].id) == Failure(NotFound)
      ensures nextId == old(nextId) && clock == old(clock)
    {
      RemoveKeepsInvariant(messages, nextId, clock, k);
      messages := messages[..k] + messages[k + 1..];
    }

    /** GET /api/chat/ (the inbox): the documents addressed to the caller, in storage order. */
    method ListInbox(caller: UserId) returns (r: seq<Message>)
      ensures r == Inbox(messages, caller)
      ensures forall m :: m in r <==> m in messages && m.receiver == caller
      ensures forall m :: multiset(r)[m] == if m.receiver == caller then multiset(messages)[m] else 0
      ensures Subsequence(r, messages)
    {
      r := Inbox(messages, caller);
    }

    /**
     * GET /api/chat/conversation/:conversationId: sorted by createdAt, which
     * on this table is the storage order of the conversation's documents.
     */
    method ListConversation(conversationId: string) returns (r: seq<Message>)
      requires Valid()
      ensures r == ConversationListing(messages, conversationId)
      ensures r == ConversationMessages(messages, conversationId)
    {
      r := ConversationListing(messages, conversationId);
      ListingOfChronological(messages, conversationId);
    }

    /**
     * GET /api/chat/conversations: one summary per conversation of the
     * caller, each naming the caller's partner in it.
     */
    method ListConversations(caller: UserId) returns (r: Result<seq<Summary>>)
      requires Valid()
      ensures r == Conversations(messages, caller)
      ensures forall s :: s in r.value ==> Key(caller, s.otherUser) == s.conversationId
    {
      r := Conversations(messages, caller);
      SummariesNameThePartner(messages, caller);
    }
  }
}
