/**
 * BasicContentValidator and BasicUserIdValidator: the checks run before a
 * post is stored and before a user is created. Each returns normally or
 * raises a ServiceException carrying the offending value.
 */
module Validators {
  import opened Wrappers
  import opened Api

  /** The string value a property map holds for a possibly-null string. */
  function StrValue(s: Option<string>): Option<Value> {
    if s.Some? then Some(Str(s.value)) else None
  }

  /** `validateContent`: a post needs a non-empty message. */
  function ValidateContent(proposal: Content): (r: Outcome<Failure>)
    ensures r.Pass? <==> proposal.message.Some? && |proposal.message.value| > 0
    ensures r.Fail? ==> r.error == Raise(InvalidContent, "message", StrValue(proposal.message))
  {
    var message := proposal.message;
    if message.None? || |message.value| == 0 then
      Fail(Raise(InvalidContent, "message", StrValue(message)))
    else
      Pass
  }

  /** `validate`: a user needs a non-empty id. */
  function ValidateUserId(proposal: User): (r: Outcome<Failure>)
    ensures r.Pass? <==> proposal.userId.Some? && |proposal.userId.value| > 0
    ensures r.Fail? ==> r.error == Raise(InvalidUserId, "userId", StrValue(proposal.userId))
  {
    var userId := proposal.userId;
    if userId.None? || |userId.value| == 0 then
      Fail(Raise(InvalidUserId, "userId", StrValue(userId)))
    else
      Pass
  }
}
