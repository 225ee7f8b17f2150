/**
 * The read side of the message routes over the message table: the inbox
 * (`find({ receiver })`), the conversation listing (`find({ conversationId })`
 * sorted by createdAt ascending) and lookup by id (`findById`).
 */
module MessageQueries {
  import opened Results
  import opened MessageSchema
  import opened ConversationKey

  /** r can be obtained from s by deleting elements: its elements occur in s in the same order. */
  ghost predicate Subsequence<T>(r: seq<T>, s: seq<T>)
    decreases |s|
  {
    if r == [] then true
    else if s == [] then false
    else if r[0] == s[0] then Subsequence(r[1..], s[1..])
    else Subsequence(r, s[1..])
  }

  /** The elements of s that satisfy p, in the order of s. */
  function Filter<T(!new)>(s: seq<T>, p: T -> bool): (r: seq<T>)
    ensures forall x {:trigger x in r} :: x in r <==> x in s && p(x)
    ensures forall x {:trigger multiset(r)[x]} :: multiset(r)[x] == if p(x) then multiset(s)[x] else 0
    ensures Subsequence(r, s)
  {
    if s == [] then []
    else
      var rest := Filter(s[1..], p);
      assert s == [s[0]] + s[1..];
      if p(s[0]) then [s[0]] + rest else rest
  }

  lemma FilterCons<T(!new)>(x: T, s: seq<T>, p: T -> bool)
    ensures Filter([x] + s, p) == (if p(x) then [x] else []) + Filter(s, p)
  {
    assert ([x] + s)[0] == x && ([x] + s)[1..] == s;
  }

  lemma {:induction false} FilterAppend<T(!new)>(a: seq<T>, b: seq<T>, p: T -> bool)
    ensures Filter(a + b, p) == Filter(a, p) + Filter(b, p)
  {
    if a == [] {
      assert a + b == b;
    } else {
      var h := if p(a[0]) then [a[0]] else [];
      var x, y := Filter(a[1..], p), Filter(b, p);
      FilterAppend(a[1..], b, p);
      FilterCons(a[0], a[1..] + b, p);
      FilterCons(a[0], a[1..], p);
      assert [a[0]] + (a[1..] + b) == a + b;
      assert [a[0]] + a[1..] == a;
      assert h + (x + y) == (h + x) + y;
    }
  }

  /** Ascending by createdAt. */
  predicate Chronological(s: seq<Message>)
  {
    forall i, j :: 0 <= i < j < |s| ==> s[i].createdAt <= s[j].createdAt
  }

  lemma ChronologicalHead(s: seq<Message>)
    requires Chronological(s) && s != []
    ensures Chronological(s[1..])
    ensures forall y :: y in s ==> s[0].createdAt <= y.createdAt
  {
    forall y | y in s ensures s[0].createdAt <= y.createdAt {
      var k :| 0 <= k < |s| && s[k] == y;
    }
    forall i, j | 0 <= i < j < |s| - 1 ensures s[1..][i].createdAt <= s[1..][j].createdAt {
      assert s[1..][i] == s[i + 1] && s[1..][j] == s[j + 1];
    }
  }

  lemma ChronologicalCons(x: Message, t: seq<Message>)
    requires Chronological(t)
    requires forall y :: y in t ==> x.createdAt <= y.createdAt
    ensures Chronological([x] + t)
  {
    var r := [x] + t;
    forall i, j | 0 <= i < j < |r| ensures r[i].createdAt <= r[j].createdAt {
      assert r[j] == t[j - 1] && r[j] in t;
      if i > 0 {
        assert r[i] == t[i - 1];
      }
    }
  }

  lemma InsertAtFront(m: Message, s: seq<Message>)
    requires Chronological(s)
    requires s == [] || m.createdAt <= s[0].createdAt
    ensures Chronological([m] + s)
  {
    if s != [] {
      ChronologicalHead(s);
    }
    ChronologicalCons(m, s);
  }

  lemma ChronologicalPrefix(s: seq<Message>, t: seq<Message>)
    requires Chronological(s + t)
    ensures Chronological(s)
  {
    forall i, j | 0 <= i < j < |s| ensures s[i].createdAt <= s[j].createdAt {
      assert s[i] == (s + t)[i] && s[j] == (s + t)[j];
    }
  }

  /** A message no older than any in a chronological sequence can be appended to it. */
  lemma ChronologicalSnoc(s: seq<Message>, m: Message)
    requires Chronological(s)
    requires forall x :: x in s ==> x.createdAt <= m.createdAt
    ensures Chronological(s + [m])
  {
    var r := s + [m];
    forall i, j | 0 <= i < j < |r| ensures r[i].createdAt <= r[j].createdAt {
      assert r[i] == s[i] && r[i] in s;
      if j < |s| {
        assert r[j] == s[j];
      }
    }
  }

  /** Removing one element keeps a sequence chronological. */
  lemma ChronologicalRemove(s: seq<Message>, k: nat)
    requires Chronological(s) && k < |s|
    ensures Chronological(s[..k] + s[k + 1..])
  {
    var r := s[..k] + s[k + 1..];
    forall i, j | 0 <= i < j < |r| ensures r[i].createdAt <= r[j].createdAt {
      var i', j' := if i < k then i else i + 1, if j < k then j else j + 1;
      assert r[i] == s[i'] && r[j] == s[j'];
    }
  }

  lemma {:induction false} FilterChronological(s: seq<Message>, p: Message -> bool)
    requires Chronological(s)
    ensures Chronological(Filter(s, p))
  {
    if s != [] {
      ChronologicalHead(s);
      FilterChronological(s[1..], p);
      if p(s[0]) {
        ChronologicalCons(s[0], Filter(s[1..], p));
      }
    }
  }

  /** m inserted into a chronological sequence before the first later message. */
  function InsertByCreatedAt(m: Message, s: seq<Message>): (r: seq<Message>)
    requires Chronological(s)
    ensures Chronological(r)
    ensures forall x :: x in r <==> x == m || x in s
    ensures multiset(r) == multiset(s) + multiset{m}
  {
    if s == [] || m.createdAt <= s[0].createdAt then
      InsertAtFront(m, s);
      [m] + s
    else
      ChronologicalHead(s);
      var rest := InsertByCreatedAt(m, s[1..]);
      assert s == [s[0]] + s[1..];
      ChronologicalCons(s[0], rest);
      [s[0]] + rest
  }

  /** `.sort({ createdAt: 1 })`: a chronological permutation of s. */
  function SortByCreatedAt(s: seq<Message>): (r: seq<Message>)
    ensures Chronological(r)
    ensures multiset(r) == multiset(s)
  {
    if s == [] then []
    else
      assert s == [s[0]] + s[1..];
      InsertByCreatedAt(s[0], SortByCreatedAt(s[1..]))
  }

  /** Sorting a sequence that is already chronological leaves it as it is. */
  lemma {:induction false} SortChronologicalIsIdentity(s: seq<Message>)
    requires Chronological(s)
    ensures SortByCreatedAt(s) == s
  {
    if s != [] {
      SortChronologicalIsIdentity(s[1..]);
      assert [s[0]] + s[1..] == s;
    }
  }

  /** The query `{ conversationId }` as a test on one message. */
  function InConversation(conversationId: string): Message -> bool
  {
    (m: Message) => m.conversationId == conversationId
  }

  /** The messages of one conversation, in storage order. */
  function ConversationMessages(ms: seq<Message>, conversationId: string): seq<Message>
  {
    Filter(ms, InConversation(conversationId))
  }

  /** `findOne({ conversationId })`: the conversation's first document in storage order, if any. */
  function FindOne(ms: seq<Message>, conversationId: string): (r: Option<Message>)
    ensures r.None? <==> forall m :: m in ms ==> m.conversationId != conversationId
    ensures r.Some? ==> r.value in ms && r.value.conversationId == conversationId
  {
    if ms == [] then None
    else if ms[0].conversationId == conversationId then Some(ms[0])
    else
      assert ms == [ms[0]] + ms[1..];
      FindOne(ms[1..], conversationId)
  }

  /**
   * GET /api/chat/conversation/:conversationId: all messages with that id,
   * ascending by createdAt. No participant check is made.
   */
  function ConversationListing(ms: seq<Message>, conversationId: string): (r: seq<Message>)
    ensures Chronological(r)
    ensures forall m :: multiset(r)[m] == if m.conversationId == conversationId then multiset(ms)[m] else 0
    ensures forall m :: m in r <==> m in ms && m.conversationId == conversationId
    ensures r == [] <==> forall m :: m in ms ==> m.conversationId != conversationId
  {
    var r := SortByCreatedAt(ConversationMessages(ms, conversationId));
    assert forall m :: m in r <==> m in multiset(r);
    r
  }

  /** On a chronological table the listing is the conversation's messages in storage order. */
  lemma ListingOfChronological(ms: seq<Message>, conversationId: string)
    requires Chronological(ms)
    ensures ConversationListing(ms, conversationId) == ConversationMessages(ms, conversationId)
  {
    FilterChronological(ms, InConversation(conversationId));
    SortChronologicalIsIdentity(ConversationMessages(ms, conversationId));
  }

  /**
   * Appending a message no older than the table adds it as the last message
   * of its own conversation's listing and leaves every other listing alone.
   */
  lemma ListingAfterAppend(ms: seq<Message>, m: Message, conversationId: string)
    requires Chronological(ms + [m])
    ensures ConversationListing(ms + [m], conversationId) ==
      if conversationId == m.conversationId then ConversationListing(ms, conversationId) + [m]
      else ConversationListing(ms, conversationId)
  {
    var p := InConversation(conversationId);
    FilterAppend(ms, [m], p);
    assert Filter([m], p) == if p(m) then [m] else [];
    ChronologicalPrefix(ms, [m]);
    ListingOfChronological(ms, conversationId);
    ListingOfChronological(ms + [m], conversationId);
  }

  /** No two messages of s share a createdAt. */
  predicate DistinctTimes(s: seq<Message>)
  {
    forall i, j :: 0 <= i < j < |s| ==> s[i].createdAt != s[j].createdAt
  }

  /** Both orderings start with the one message of least createdAt. */
  lemma ChronologicalHeadsAgree(a: seq<Message>, b: seq<Message>)
    requires Chronological(a) && Chronological(b) && multiset(a) == multiset(b)
    requires DistinctTimes(a) && a != []
    ensures b != [] && a[0] == b[0]
  {
    assert |b| == |multiset(b)| == |a|;
    assert a[0] in multiset(b) && b[0] in multiset(a);
    ChronologicalHead(a);
    ChronologicalHead(b);
    var k :| 0 <= k < |a| && a[k] == b[0];
    assert a[k].createdAt == a[0].createdAt;
  }

  /** Removing a common first element leaves equal multisets. */
  lemma TailsSameMultiset(a: seq<Message>, b: seq<Message>)
    requires a != [] && b != [] && a[0] == b[0] && multiset(a) == multiset(b)
    ensures multiset(a[1..]) == multiset(b[1..])
  {
    assert a == [a[0]] + a[1..] && b == [b[0]] + b[1..];
    assert multiset(a) == multiset{a[0]} + multiset(a[1..]);
    assert multiset(b) == multiset{b[0]} + multiset(b[1..]);
    assert multiset(a[1..]) == multiset(a) - multiset{a[0]};
    assert multiset(b[1..]) == multiset(b) - multiset{b[0]};
  }

  lemma DistinctTimesTail(a: seq<Message>)
    requires DistinctTimes(a) && a != []
    ensures DistinctTimes(a[1..])
  {
    forall i, j | 0 <= i < j < |a| - 1 ensures a[1..][i].createdAt != a[1..][j].createdAt {
      assert a[1..][i] == a[i + 1] && a[1..][j] == a[j + 1];
    }
  }

  /** Two chronological orderings of the same messages with distinct times are the same sequence. */
  lemma {:induction false} ChronologicalPermutationUnique(a: seq<Message>, b: seq<Message>)
    requires Chronological(a) && Chronological(b) && multiset(a) == multiset(b)
    requires DistinctTimes(a)
    ensures a == b
    decreases |a|
  {
    if a == [] {
      assert |b| == |multiset(b)| == 0;
    } else {
      ChronologicalHeadsAgree(a, b);
      TailsSameMultiset(a, b);
      DistinctTimesTail(a);
      ChronologicalHead(a);
      ChronologicalHead(b);
      ChronologicalPermutationUnique(a[1..], b[1..]);
      assert a == [a[0]] + a[1..] && b == [b[0]] + b[1..];
    }
  }

  /**
   * When no two messages of a conversation share a createdAt, every order
   * that `.sort({ createdAt: 1 })` may return is the conversation's
   * storage order on a chronological table, whatever the tie-break.
   */
  lemma ListingWithDistinctTimes(ms: seq<Message>, conversationId: string, r: seq<Message>)
    requires Chronological(ms)
    requires DistinctTimes(ConversationMessages(ms, conversationId))
    requires Chronological(r) && multiset(r) == multiset(ConversationMessages(ms, conversationId))
    ensures r == ConversationMessages(ms, conversationId)
  {
    var c := ConversationMessages(ms, conversationId);
    FilterChronological(ms, InConversation(conversationId));
    ChronologicalPermutationUnique(c, r);
  }

  /** GET /api/chat/ (the inbox): the messages addressed to the caller, in storage order. */
  function Inbox(ms: seq<Message>, user: UserId): (r: seq<Message>)
    ensures forall m :: m in r <==> m in ms && m.receiver == user
    ensures forall m :: multiset(r)[m] == if m.receiver == user then multiset(ms)[m] else 0
    ensures Subsequence(r, ms)
  {
    Filter(ms, (m: Message) => m.receiver == user)
  }

  /** Every stored message carries the key of its own sender and receiver. */
  predicate KeysCanonical(ms: seq<Message>)
  {
    forall m :: m in ms ==> m.conversationId == Key(m.sender, m.receiver)
  }

  /** Every stored message satisfies the schema. */
  predicate AllWellFormed(ms: seq<Message>)
  {
    forall m :: m in ms ==> WellFormed(m)
  }

  /** No two stored documents share an id. */
  predicate IdsUnique(ms: seq<Message>)
  {
    forall i, j :: 0 <= i < j < |ms| ==> ms[i].id != ms[j].id
  }

  /** The position of the document with the given id (`findById`). */
  function FindIndex(ms: seq<Message>, id: MessageId): (r: Option<nat>)
    ensures r.None? <==> forall m :: m in ms ==> m.id != id
    ensures r.Some? ==> r.value < |ms| && ms[r.value].id == id
    ensures r.Some? ==> forall j :: 0 <= j < r.value ==> ms[j].id != id
  {
    if ms == [] then None
    else if ms[0].id == id then Some(0)
    else match FindIndex(ms[1..], id)
      case None => None
      case Some(k) => Some(k + 1)
  }

  /** `findById` as the routes use it: the document, or 404. */
  function Lookup(ms: seq<Message>, id: MessageId): (r: Result<Message>)
    ensures r.Failure? <==> forall m :: m in ms ==> m.id != id
    ensures r.Failure? ==> r.status == NotFound
    ensures r.Success? ==> r.value in ms && r.value.id == id
  {
    match FindIndex(ms, id)
    case None => Failure(NotFound)
    case Some(k) => Success(ms[k])
  }

  /** With unique ids, the document found is the only one with that id. */
  lemma FindIndexUnique(ms: seq<Message>, id: MessageId, k: nat)
    requires IdsUnique(ms)
    requires k < |ms| && ms[k].id == id
    ensures FindIndex(ms, id) == Some(k)
  {
  }
}
