/**
 * The value types shared by every service: content items, anchors, users,
 * the opaque documents they carry, and the error codes a service raises.
 */
module Api {
  import opened Wrappers

  /** An ObjectId, reduced to its position in the global time order. */
  type ObjectId = nat

  /** A field value inside an opaque document (a JSON/BSON payload). */
  datatype Value = Str(s: string) | Oid(oid: ObjectId) | Num(n: int) | Doc(fields: map<string, Value>)

  type Document = map<string, Value>

  type UserId = string

  /**
   * A published content item. `_id` is always present; `_a`, `_m` and `_d`
   * are absent (None) when the item was built without them or filtered out.
   */
  datatype Content = Content(id: ObjectId, author: Option<UserId>, message: Option<string>, data: Option<Document>)

  /** A pagination anchor: a content id, with the author when it is known. */
  datatype ContentId = ContentId(id: ObjectId, author: Option<UserId>)

  function AnchorOf(c: Content): ContentId {
    ContentId(c.id, c.author)
  }

  /** A user; `userId` may be null (None), which the validator rejects. */
  datatype User = User(userId: Option<string>, data: Option<Document>)

  /** The error codes of UserGraphError, ContentError, FrameworkError and AsyncError. */
  datatype ErrorCode =
    | InvalidUserId | UserAlreadyExists | UnknownUser
    | InvalidContent | ContentNotFound
    | FailedToLoadService | NotImplemented | InvalidConfiguration
    | CannotParseJson | FailedToLoadDependency | ServiceAlreadyRegistered
    | CannotWriteRecoveryRecord

  /**
   * What a call throws: a ServiceException (its code and property map), or
   * one of the runtime exceptions the modelled code can raise (a null
   * dereference, a negative list capacity, an integer division by zero, a
   * cast of a stored value to the wrong class).
   */
  datatype Failure =
    | ServiceError(code: Option<ErrorCode>, properties: map<string, Option<Value>>)
    | NullDereference
    | IllegalArgument
    | DivideByZero
    | ClassCast

  /** `new ServiceException(code).set(key, value)`, as a value. */
  function Raise(code: ErrorCode, key: string, value: Option<Value>): Failure {
    ServiceError(Some(code), map[key := value])
  }
}
