/** Who may change a stored message: checks made against its participant fields. */
module Authorization {
  import opened MessageSchema

  /** PUT /api/chat/:messageId: only the sender may edit. */
  predicate CanEdit(m: Message, caller: UserId)
    ensures WellFormed(m) && CanEdit(m, caller) ==> IsObjectId(caller)
  {
    m.sender == caller
  }

  /** DELETE /api/chat/:messageId: the sender or the receiver may delete. */
  predicate CanDelete(m: Message, caller: UserId)
    ensures CanEdit(m, caller) ==> CanDelete(m, caller)
    ensures WellFormed(m) && CanDelete(m, caller) ==> IsObjectId(caller)
  {
    m.sender == caller || m.receiver == caller
  }
}
