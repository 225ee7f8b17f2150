/**
 * The Message document (Models/message.js): its paths, which of them are
 * required, how the two user references are cast to ObjectIds, and the
 * createdAt default.
 */
module MessageSchema {
  import opened Results

  /** The text form of an ObjectId user reference. */
  type UserId = string

  /** The document id the store assigns. */
  type MessageId = nat

  predicate IsHexDigit(c: char)
  {
    '0' <= c <= '9' || 'a' <= c <= 'f' || 'A' <= c <= 'F'
  }

  predicate IsLowerHexDigit(c: char)
  {
    '0' <= c <= '9' || 'a' <= c <= 'f'
  }

  /** The string form of an ObjectId, as toString() writes it: 24 lower-case hex digits. */
  predicate IsObjectId(s: string)
  {
    |s| == 24 && forall i :: 0 <= i < |s| ==> IsLowerHexDigit(s[i])
  }

  function ToLowerHex(c: char): (d: char)
    requires IsHexDigit(c)
    ensures IsLowerHexDigit(d)
    ensures IsLowerHexDigit(c) ==> d == c
  {
    if 'A' <= c <= 'F' then (c as int - 'A' as int + 'a' as int) as char else c
  }

  /**
   * Casting a string to an ObjectId: 24 hex digits of either case are
   * accepted and read back in lower case; anything else is a cast error.
   */
  function CastObjectId(s: string): (r: Option<UserId>)
    ensures r.Some? <==> |s| == 24 && forall i :: 0 <= i < |s| ==> IsHexDigit(s[i])
    ensures r.Some? ==> IsObjectId(r.value)
    ensures r.Some? ==> forall i :: 0 <= i < 24 ==> r.value[i] == ToLowerHex(s[i])
    ensures IsObjectId(s) ==> r == Some(s)
  {
    if |s| == 24 && forall i :: 0 <= i < |s| ==> IsHexDigit(s[i]) then
      var lower := seq(24, i requires 0 <= i < 24 => ToLowerHex(s[i]));
      assert IsObjectId(s) ==> lower == s by {
        if IsObjectId(s) {
          assert forall i :: 0 <= i < 24 ==> lower[i] == s[i];
        }
      }
      Some(lower)
    else
      None
  }

  /** An ObjectId's text never contains the '-' the conversation key joins with. */
  lemma ObjectIdHasNoDash(s: string)
    requires IsObjectId(s)
    ensures '-' !in s
  {
  }

  /** A stored Message document; `id` is the store's document id. */
  datatype Message = Message(
    id: MessageId,
    conversationId: string,
    sender: UserId,
    receiver: UserId,
    text: string,
    createdAt: nat)

  /** What the schema guarantees of every stored document. */
  predicate WellFormed(m: Message)
    ensures WellFormed(m) ==>
      CastObjectId(m.sender) == Some(m.sender) && CastObjectId(m.receiver) == Some(m.receiver)
  {
    && m.conversationId != ""
    && IsObjectId(m.sender)
    && IsObjectId(m.receiver)
    && m.text != ""
  }

  /** The paths of a document as assigned before save(); None stands for undefined. */
  datatype Fields = Fields(
    conversationId: Option<string>,
    sender: Option<string>,
    receiver: Option<string>,
    text: Option<string>,
    createdAt: Option<nat>)

  /** The `required` validator of a String path rejects undefined and "". */
  predicate RequiredString(v: Option<string>)
  {
    v.Some? && v.value != ""
  }

  /** A required ObjectId path must be set and must cast. */
  predicate RequiredRef(v: Option<string>)
  {
    v.Some? && CastObjectId(v.value).Some?
  }

  /** The paths of a stored document, as a later save() sees them. */
  function FieldsOf(m: Message): Fields
  {
    Fields(Some(m.conversationId), Some(m.sender), Some(m.receiver), Some(m.text), Some(m.createdAt))
  }

  /**
   * save(): validation of the four required paths, casting of the two
   * references, and `default: Date.now` for an unset createdAt (`now`).
   * None is a validation or cast error, which the routes answer with 500.
   */
  function Save(id: MessageId, f: Fields, now: nat): (r: Option<Message>)
    ensures r.Some? <==>
      RequiredString(f.conversationId) && RequiredRef(f.sender) && RequiredRef(f.receiver) && RequiredString(f.text)
    ensures r.Some? ==> WellFormed(r.value) && r.value.id == id
    ensures r.Some? ==> Some(r.value.conversationId) == f.conversationId && Some(r.value.text) == f.text
    ensures r.Some? ==> Some(r.value.sender) == CastObjectId(f.sender.value)
    ensures r.Some? ==> Some(r.value.receiver) == CastObjectId(f.receiver.value)
    ensures r.Some? ==> r.value.createdAt == f.createdAt.GetOr(now)
  {
    if RequiredString(f.conversationId) && RequiredRef(f.sender) && RequiredRef(f.receiver) && RequiredString(f.text) then
      Some(Message(id, f.conversationId.value, CastObjectId(f.sender.value).value,
                   CastObjectId(f.receiver.value).value, f.text.value, f.createdAt.GetOr(now)))
    else
      None
  }

  /** Saving a stored document again stores it unchanged; createdAt keeps its value. */
  lemma ResaveUnchanged(m: Message, now: nat)
    requires WellFormed(m)
    ensures Save(m.id, FieldsOf(m), now) == Some(m)
  {
  }

  /**
   * Saving a stored document after assigning its text: it succeeds exactly
   * when the new text is set and non-empty, and then only the text differs.
   */
  lemma ResaveWithText(m: Message, text: Option<string>, now: nat)
    requires WellFormed(m)
    ensures Save(m.id, FieldsOf(m).(text := text), now) ==
      if RequiredString(text) then Some(m.(text := text.value)) else None
  {
  }
}
