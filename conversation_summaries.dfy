/**
 * GET /api/chat/conversations: the conversations a user takes part in, each
 * summarised by its latest message and the other participant.
 */
module ConversationSummaries {
  import opened Results
  import opened MessageSchema
  import opened ConversationKey
  import opened MessageQueries

  /** The query `$or: [{ sender: user }, { receiver: user }]` on one message. */
  predicate Involves(m: Message, user: UserId)
  {
    m.sender == user || m.receiver == user
  }

  /** The conversationId of every message the user sent or received, in storage order, with repeats. */
  function Mentions(ms: seq<Message>, user: UserId): (r: seq<string>)
    ensures forall c :: c in r <==> exists m :: m in ms && Involves(m, user) && m.conversationId == c
    ensures r == [] <==> forall m :: m in ms ==> !Involves(m, user)
  {
    if ms == [] then []
    else
      assert ms == [ms[0]] + ms[1..];
      (if Involves(ms[0], user) then [ms[0].conversationId] else []) + Mentions(ms[1..], user)
  }

  /** The position of the first occurrence of x in s. */
  function FirstIndex(s: seq<string>, x: string): (k: nat)
    requires x in s
    ensures k < |s| && s[k] == x && x !in s[..k]
  {
    if s[0] == x then 0
    else
      var k := FirstIndex(s[1..], x);
      assert s[..k + 1] == [s[0]] + s[1..][..k];
      k + 1
  }

  /** A position holding x with no x before it is the first occurrence. */
  lemma FirstIndexUnique(s: seq<string>, x: string, k: nat)
    requires k < |s| && s[k] == x && x !in s[..k]
    ensures FirstIndex(s, x) == k
  {
    var f := FirstIndex(s, x);
    assert forall i :: 0 <= i < k ==> s[..k][i] == s[i];
    assert forall i :: 0 <= i < f ==> s[..f][i] == s[i];
  }

  /** `.distinct(...)`: each value of s once, in the order of its first occurrence. */
  function Distinct(s: seq<string>): (r: seq<string>)
    ensures forall x :: x in r <==> x in s
    ensures r == [] <==> s == []
    ensures forall i, j :: 0 <= i < j < |r| ==> r[i] != r[j]
    ensures forall i, j :: 0 <= i < j < |r| ==> FirstIndex(s, r[i]) < FirstIndex(s, r[j])
  {
    if s == [] then []
    else
      var init, x := s[..|s| - 1], s[|s| - 1];
      assert s == init + [x];
      var d := Distinct(init);
      forall y | y in init ensures FirstIndex(s, y) == FirstIndex(init, y) {
        var k := FirstIndex(init, y);
        assert s[..k] == init[..k];
        FirstIndexUnique(s, y, k);
      }
      if x in d then d
      else
        assert x !in s[..|s| - 1];
        FirstIndexUnique(s, x, |s| - 1);
        d + [x]
  }

  /** The distinct conversation ids of the user's messages, in discovery order. */
  function ConversationIds(ms: seq<Message>, user: UserId): (r: seq<string>)
    ensures forall c :: c in r <==> exists m :: m in ms && Involves(m, user) && m.conversationId == c
    ensures forall i, j :: 0 <= i < j < |r| ==> r[i] != r[j]
  {
    Distinct(Mentions(ms, user))
  }

  /** l is a message of the conversation with the greatest createdAt. */
  predicate IsLatest(ms: seq<Message>, conversationId: string, l: Message)
  {
    && l in ms
    && l.conversationId == conversationId
    && forall m :: m in ms && m.conversationId == conversationId ==> m.createdAt <= l.createdAt
  }

  /**
   * `findOne({ conversationId }).sort({ createdAt: -1 })`: a latest message
   * of the conversation, or None when it has none. Which of several messages
   * with the same createdAt is returned is not part of the contract.
   */
  function Latest(ms: seq<Message>, conversationId: string): (r: Option<Message>)
    ensures r.None? <==> forall m :: m in ms ==> m.conversationId != conversationId
    ensures r.Some? ==> IsLatest(ms, conversationId, r.value)
  {
    if ms == [] then None
    else
      assert ms == [ms[0]] + ms[1..];
      match Latest(ms[1..], conversationId)
      case None =>
        if ms[0].conversationId == conversationId then Some(ms[0]) else None
      case Some(l) =>
        if ms[0].conversationId == conversationId && ms[0].createdAt > l.createdAt then Some(ms[0]) else Some(l)
  }

  /** One entry of the response; otherUser is the id the route populates with a name. */
  datatype Summary = Summary(
    userId: UserId,
    conversationId: string,
    otherUser: UserId,
    latestMessage: string,
    createdAt: nat)

  /** The receiver when the user sent the latest message, the sender otherwise. */
  function OtherUser(latest: Message, user: UserId): (other: UserId)
    ensures Involves(latest, user) ==> multiset{user, other} == multiset{latest.sender, latest.receiver}
    ensures !Involves(latest, user) ==> other == latest.sender
  {
    if latest.sender == user then latest.receiver else latest.sender
  }

  /** s summarises its conversation by one of its latest messages, from the user's side. */
  ghost predicate Describes(ms: seq<Message>, user: UserId, s: Summary)
  {
    && s.userId == user
    && exists l :: IsLatest(ms, s.conversationId, l)
         && s.otherUser == OtherUser(l, user)
         && s.latestMessage == l.text
         && s.createdAt == l.createdAt
  }

  /**
   * `conversationIds.map(...)` under Promise.all: one summary per id, in the
   * order of the ids; an id with no message makes `latestMessage.sender`
   * throw, and the whole request fails.
   */
  function SummarizeEach(ms: seq<Message>, user: UserId, ids: seq<string>): (r: Result<seq<Summary>>)
    ensures r.Success? <==> forall i :: 0 <= i < |ids| ==> exists m :: m in ms && m.conversationId == ids[i]
    ensures r.Failure? ==> r.status == InternalError
    ensures r.Success? ==> |r.value| == |ids|
    ensures r.Success? ==> forall i :: 0 <= i < |ids| ==>
      r.value[i].conversationId == ids[i] && Describes(ms, user, r.value[i])
  {
    if ids == [] then Success([])
    else match Latest(ms, ids[0])
      case None => Failure(InternalError)
      case Some(l) =>
        match SummarizeEach(ms, user, ids[1..])
        case Failure(e) => Failure(e)
        case Success(rest) =>
          var s := Summary(user, ids[0], OtherUser(l, user), l.text, l.createdAt);
          assert Describes(ms, user, s);
          Success([s] + rest)
  }

  /** The whole route: empty when the user has no conversation, else one summary per conversation id. */
  function Conversations(ms: seq<Message>, user: UserId): (r: Result<seq<Summary>>)
    ensures r.Success?
    ensures |r.value| == |ConversationIds(ms, user)|
    ensures forall i :: 0 <= i < |r.value| ==>
      r.value[i].conversationId == ConversationIds(ms, user)[i] && Describes(ms, user, r.value[i])
  {
    var ids := ConversationIds(ms, user);
    if |ids| == 0 then Success([])
    else
      assert forall i :: 0 <= i < |ids| ==> ids[i] in Mentions(ms, user);
      SummarizeEach(ms, user, ids)
  }

  /** The response is empty exactly when the user neither sent nor received any message. */
  lemma ConversationsEmptyIff(ms: seq<Message>, user: UserId)
    ensures Conversations(ms, user) == Success([]) <==> forall m :: m in ms ==> !Involves(m, user)
  {
  }

  /** The summaries name distinct conversations. */
  lemma SummariesDistinct(ms: seq<Message>, user: UserId)
    ensures var r := Conversations(ms, user).value;
      forall i, j :: 0 <= i < j < |r| ==> r[i].conversationId != r[j].conversationId
  {
  }

  /** Every conversation of a message the user sent or received has a summary. */
  lemma SummariesCoverConversations(ms: seq<Message>, user: UserId)
    ensures var r := Conversations(ms, user).value;
      forall m :: m in ms && Involves(m, user) ==>
        exists i :: 0 <= i < |r| && r[i].conversationId == m.conversationId
  {
    var r := Conversations(ms, user).value;
    var ids := ConversationIds(ms, user);
    forall m | m in ms && Involves(m, user)
      ensures exists i :: 0 <= i < |r| && r[i].conversationId == m.conversationId
    {
      assert m.conversationId in Mentions(ms, user);
      var i :| 0 <= i < |ids| && ids[i] == m.conversationId;
      assert r[i].conversationId == m.conversationId;
    }
  }

  /** Every summary is of a conversation of some message the user sent or received. */
  lemma SummariesComeFromUserMessages(ms: seq<Message>, user: UserId)
    ensures var r := Conversations(ms, user).value;
      forall i :: 0 <= i < |r| ==>
        exists m :: m in ms && Involves(m, user) && m.conversationId == r[i].conversationId
  {
    var r := Conversations(ms, user).value;
    var ids := ConversationIds(ms, user);
    forall i | 0 <= i < |r|
      ensures exists m :: m in ms && Involves(m, user) && m.conversationId == r[i].conversationId
    {
      assert ids[i] in Mentions(ms, user);
    }
  }

  /**
   * On a table built by the send route, every message of a conversation the
   * user takes part in has the user as sender or receiver, and the other
   * participant together with the user gives back the conversation's key.
   */
  lemma PartnerOfConversation(ms: seq<Message>, user: UserId, c: string, l: Message)
    requires AllWellFormed(ms) && KeysCanonical(ms)
    requires exists m :: m in ms && Involves(m, user) && m.conversationId == c
    requires l in ms && l.conversationId == c
    ensures Involves(l, user)
    ensures Key(user, OtherUser(l, user)) == c
  {
    var m :| m in ms && Involves(m, user) && m.conversationId == c;
    ObjectIdHasNoDash(l.sender);
    ObjectIdHasNoDash(l.receiver);
    ObjectIdHasNoDash(m.sender);
    ObjectIdHasNoDash(m.receiver);
    KeyInjective(l.sender, l.receiver, m.sender, m.receiver);
    KeyCommutes(l.sender, l.receiver);
  }

  /** A summary of a conversation the user takes part in names the user's partner. */
  lemma SummaryNamesThePartner(ms: seq<Message>, user: UserId, s: Summary)
    requires AllWellFormed(ms) && KeysCanonical(ms)
    requires exists m :: m in ms && Involves(m, user) && m.conversationId == s.conversationId
    requires Describes(ms, user, s)
    ensures Key(user, s.otherUser) == s.conversationId
  {
    var l :| IsLatest(ms, s.conversationId, l) && s.otherUser == OtherUser(l, user);
    PartnerOfConversation(ms, user, s.conversationId, l);
  }

  /** Each summary's otherUser is the user's partner in that conversation. */
  lemma SummariesNameThePartner(ms: seq<Message>, user: UserId)
    requires AllWellFormed(ms) && KeysCanonical(ms)
    ensures forall s :: s in Conversations(ms, user).value ==>
      Key(user, s.otherUser) == s.conversationId
  {
    var r := Conversations(ms, user).value;
    SummariesComeFromUserMessages(ms, user);
    forall s | s in r ensures Key(user, s.otherUser) == s.conversationId {
      var i :| 0 <= i < |r| && r[i] == s;
      SummaryNamesThePartner(ms, user, s);
    }
  }
}
