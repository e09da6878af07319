/** Users, refresh tokens, and the rules on one of them at a time. */
module Domain {
  import opened Wrappers
  import opened Base64

  type Id = nat

  /** Nanoseconds on one time line; durations are differences of times. */
  type Time = int

  /** The resolution at which a store keeps times. */
  type Tick = x: int | x >= 1 witness 1

  const NANOSECOND: Tick := 1
  const MICROSECOND: Tick := 1000

  predicate OnTick(tick: Tick, t: Time) {
    t % tick == 0
  }

  /** The last tick not after t. */
  function Floor(tick: Tick, t: Time): (r: Time)
    ensures r <= t < r + tick
    ensures r == t <==> OnTick(tick, t)
  {
    t - t % tick
  }

  function FloorOption(tick: Tick, t: Option<Time>): Option<Time> {
    if t.Some? then Some(Floor(tick, t.value)) else None
  }

  datatype Error =
    | InvalidEmail | WeakPassword | PasswordTooLong | EmailTaken
    | UserNotFound | InvalidCredentials | UserIsSuspended
    | TokenNotFound | TokenExpired | TokenRevoked
    | BadTtl | HashFailed | NoRandomness | Duplicate | Infrastructure

  // ---------------------------------------------------------------- Refresh tokens

  /** The columns of a stored refresh token. */
  datatype TokenRow = TokenRow(
    id: Id, userId: Id, hash: string,
    createdAt: Time, expiresAt: Time, revokedAt: Option<Time>) {

    /** Why the token may not be used at now, None when it may. */
    function Validate(now: Time): Option<Error> {
      if revokedAt.Some? then Some(TokenRevoked)
      else if now >= expiresAt then Some(TokenExpired)
      else None
    }

    function Revoke(now: Time): TokenRow {
      if revokedAt.Some? then this else this.(revokedAt := Some(now))
    }

    function RevocationKept(tick: Tick): TokenRow {
      this.(revokedAt := FloorOption(tick, revokedAt))
    }

    /** What a store of that resolution keeps of the row. */
    function Kept(tick: Tick): TokenRow {
      RevocationKept(tick).(createdAt := Floor(tick, createdAt), expiresAt := Floor(tick, expiresAt))
    }

    /** Equal in every column but revokedAt. */
    predicate SameToken(other: TokenRow) {
      this.(revokedAt := None) == other.(revokedAt := None)
    }
  }

  class RefreshToken {
    const id: Id
    const userId: Id
    const hash: string
    const createdAt: Time
    const expiresAt: Time
    var revokedAt: Option<Time>

    function Row(): TokenRow
      reads this
    {
      TokenRow(id, userId, hash, createdAt, expiresAt, revokedAt)
    }

    constructor (row: TokenRow)
      ensures Row() == row
    {
      id, userId, hash := row.id, row.userId, row.hash;
      createdAt, expiresAt, revokedAt := row.createdAt, row.expiresAt, row.revokedAt;
    }

    method Revoke(now: Time)
      modifies this
      ensures Row() == old(Row()).Revoke(now)
    {
      if revokedAt.Some? {
        return;
      }
      revokedAt := Some(now);
    }

    function Validate(now: Time): (err: Option<Error>)
      reads this
      ensures err.None? <==> revokedAt.None? && now < expiresAt
      ensures err == Some(TokenRevoked) <==> revokedAt.Some?
      ensures err == Some(TokenExpired) <==> revokedAt.None? && expiresAt <= now
    {
      Row().Validate(now)
    }
  }

  // ---------------------------------------------------------------- Users

  datatype Status = Active | Suspended

  datatype UserRow = UserRow(
    id: Id, email: string, passwordHash: string, status: Status,
    createdAt: Time, updatedAt: Time) {

    function Suspend(now: Time): UserRow {
      this.(status := Suspended, updatedAt := now)
    }

    /** Password first, status second: without the password nothing is learnt about the status. */
    function Authenticate(password: string, hasher: PasswordHasher): Option<Error> {
      var ok := hasher.verify(password, passwordHash);
      if ok.Err? then Some(ok.error)
      else if !ok.value then Some(InvalidCredentials)
      else if status == Suspended then Some(UserIsSuspended)
      else None
    }
  }

  class User {
    const id: Id
    const email: string
    const passwordHash: string
    const createdAt: Time
    var status: Status
    var updatedAt: Time

    function Row(): UserRow
      reads this
    {
      UserRow(id, email, passwordHash, status, createdAt, updatedAt)
    }

    constructor (row: UserRow)
      ensures Row() == row
    {
      id, email, passwordHash := row.id, row.email, row.passwordHash;
      status, createdAt, updatedAt := row.status, row.createdAt, row.updatedAt;
    }

    method Suspend(now: Time)
      modifies this
      ensures Row() == old(Row()).Suspend(now)
    {
      status := Suspended;
      updatedAt := now;
    }
  }

  // ---------------------------------------------------------------- Passwords

  const MIN_PASSWORD_LENGTH := 8
  const MAX_PASSWORD_LENGTH := 128

  /** A character stands for one byte of the password. */
  function ValidatePassword(password: string): Option<Error> {
    if |password| < MIN_PASSWORD_LENGTH then Some(WeakPassword)
    else if |password| > MAX_PASSWORD_LENGTH then Some(PasswordTooLong)
    else None
  }

  /** hash also takes what its random source delivers, None when that fails. */
  datatype PasswordHasher = PasswordHasher(
    hash: (string, Option<seq<byte>>) -> Result<string, Error>,
    verify: (string, string) -> Result<bool, Error>)

  /** A password always matches the hash made from it. */
  ghost predicate Faithful(hasher: PasswordHasher) {
    forall password: string, salt: Option<seq<byte>> ::
      var h := hasher.hash(password, salt);
      h.Ok? ==> hasher.verify(password, h.value) == Ok(true)
  }
}
