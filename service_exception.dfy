/**
 * ServiceException: the one exception type the services raise. It carries a
 * mutable error code and a mutable property map; `wrap` turns any thrown
 * exception into one, reusing it when it already is one with a fitting code.
 */
module Exceptions {
  import opened Wrappers
  import opened Api

  /** Something thrown: a ServiceException, or any other exception with its message. */
  datatype Thrown = Service(se: ServiceException) | Other(message: Option<string>)

  /** `getMessage()` of a thrown exception. */
  function MessageOf(t: Thrown): Option<string> {
    match t
    case Service(se) => se.message
    case Other(m) => m
  }

  class ServiceException {
    var errorCode: Option<ErrorCode>
    const message: Option<string>
    const cause: Option<Thrown>
    var properties: map<string, Option<Value>>

    /** `new ServiceException(message, cause, errorCode)`; the shorter constructors pass None. */
    constructor (message: Option<string>, cause: Option<Thrown>, errorCode: Option<ErrorCode>)
      ensures this.message == message && this.cause == cause && this.errorCode == errorCode
      ensures properties == map[]
    {
      this.message := message;
      this.cause := cause;
      this.errorCode := errorCode;
      this.properties := map[];
    }

    /** `get(name)`: the stored value, or null when there is none. */
    function Get(name: string): Option<Value>
      reads this
    {
      if name in properties then properties[name] else None
    }

    /** `set(name, value)`: store one property and return this same exception. */
    method Set(name: string, value: Option<Value>) returns (r: ServiceException)
      modifies this
      ensures r == this
      ensures properties == old(properties)[name := value]
      ensures Get(name) == value
      ensures forall other :: other != name ==> Get(other) == old(Get(other))
      ensures errorCode == old(errorCode)
    {
      properties := properties[name := value];
      r := this;
    }

    /** `setErrorCode(code)`: replace the code and return this same exception. */
    method SetErrorCode(code: Option<ErrorCode>) returns (r: ServiceException)
      modifies this
      ensures r == this && errorCode == code && properties == old(properties)
    {
      errorCode := code;
      r := this;
    }
  }

  /**
   * Whether `wrap` hands back the exception itself: it is a ServiceException
   * and no different code was asked for.
   */
  predicate WrapReuses(exception: Thrown, errorCode: Option<ErrorCode>)
    reads if exception.Service? then {exception.se} else {}
  {
    exception.Service? && (errorCode.None? || errorCode == exception.se.errorCode)
  }

  /**
   * `wrap(exception, errorCode)`: the exception itself when it is a
   * ServiceException and the code is null or already its own; otherwise a new
   * ServiceException with that code, the exception as its cause and the
   * exception's message.
   */
  method Wrap(exception: Thrown, errorCode: Option<ErrorCode>) returns (r: ServiceException)
    ensures WrapReuses(exception, errorCode) ==> r == exception.se
    ensures !WrapReuses(exception, errorCode) ==>
      fresh(r) && r.errorCode == errorCode && r.cause == Some(exception)
      && r.message == MessageOf(exception) && r.properties == map[]
  {
    if exception.Service? {
      var se := exception.se;
      if errorCode.Some? && errorCode != se.errorCode {
        r := new ServiceException(MessageOf(exception), Some(exception), errorCode);
        return;
      }
      r := se;
    } else {
      r := new ServiceException(MessageOf(exception), Some(exception), errorCode);
    }
  }

  /** `wrap(exception)`: wrapping with a null code, which never replaces a ServiceException. */
  method WrapAny(exception: Thrown) returns (r: ServiceException)
    ensures exception.Service? ==> r == exception.se
    ensures exception.Other? ==> fresh(r) && r.errorCode.None? && r.cause == Some(exception)
  {
    r := Wrap(exception, None);
  }
}
