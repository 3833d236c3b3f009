/** Identifiers, optional values and the tagged errors every procedure can return. */
module Common {

  /** Row identifiers are opaque strings assigned by the store. */
  type Id = string

  /** The acting user's id, taken from the session. */
  type UserId = string

  datatype Option<T> = None | Some(value: T)

  /** An input field that may be left out (`undefined`), sent as `null`, or carry a value. */
  datatype Nullable<T> = Undefined | Null | Defined(value: T)

  /** The failures a procedure reports. `NotAuthorized` is the untagged `Error("Not authorized")`
      thrown by the case procedures; the other four are the tagged error codes. */
  datatype Error = Unauthorized | NotFound | BadRequest | InternalServerError | NotAuthorized

  datatype Result<T> = Success(value: T) | Failure(error: Error)

  /** The outcome of a guard: go on, or fail with the given error. */
  datatype Outcome = Pass | Fail(error: Error)

  /** JavaScript truthiness of an optional string: present and non-empty. */
  predicate Truthy(s: Option<string>) {
    s.Some? && s.value != ""
  }
}
