/** Values shared by every component: optional values, instants and the error kinds of the broker. */
module Domain {

  datatype Option<+T> = None | Some(value: T)

  /** Instants and durations are whole nanoseconds on one clock. */
  type Time = int

  const SECOND: Time := 1_000_000_000
  const MINUTE: Time := 60 * SECOND

  /** A keyed digest is opaque and injective, so it is represented by the credential it stands for. */
  type Digest = nat

  datatype Error =
    | InvalidInput
    | Unauthorized
    | Forbidden
    | NotFound
    | Conflict
    | Expired
    | AlreadyUsed
    | AuthorizationPending
    | RateLimited
    | TooLarge
    | Upstream
    | Unavailable

  /** A call that returns a value or an error. */
  datatype Answer<+T> = Answered(value: T) | Failed(error: Error)

  type Byte = x: int | 0 <= x < 256

  function Min(a: int, b: int): int { if a < b then a else b }

  datatype UserKey = UserKey(corpId: string, userId: string)

  datatype User = User(key: UserKey, unionId: string, displayName: string)
}
