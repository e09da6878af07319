/** The two tables as values: tokens by hash, users by id, and what each repository operation does to
    them. Every repository implementation is compared with these. */
module Tables {
  import opened Wrappers
  import opened Domain

  /** How a repository or issuer call goes wrong: Lost has no effect, Torn takes effect, and both
      report an error. */
  datatype Fault = NoFault | Lost | Torn

  function Write<S>(before: S, after: (S, Option<Error>), fault: Fault): (S, Option<Error>) {
    match fault
    case NoFault => after
    case Lost => (before, Some(Infrastructure))
    case Torn => (after.0, Some(Infrastructure))
  }

  function Read<T>(answer: Result<T, Error>, fault: Fault): Result<T, Error> {
    if fault.NoFault? then answer else Err(Infrastructure)
  }

  // ---------------------------------------------------------------- Tokens

  type TokenTable = map<string, TokenRow>

  function CreateToken(t: TokenTable, row: TokenRow): (TokenTable, Option<Error>) {
    if row.hash in t then (t, Some(Duplicate)) else (t[row.hash := row], None)
  }

  function FindToken(t: TokenTable, hash: string): Result<TokenRow, Error> {
    if hash in t then Ok(t[hash]) else Err(TokenNotFound)
  }

  function UpdateToken(t: TokenTable, row: TokenRow): (TokenTable, Option<Error>) {
    if row.hash in t then (t[row.hash := row], None) else (t, Some(TokenNotFound))
  }

  function RevokeAll(t: TokenTable, userId: Id, now: Time): (r: TokenTable)
    ensures r.Keys == t.Keys
  {
    map h | h in t :: if t[h].userId == userId then t[h].Revoke(now) else t[h]
  }

  function ActiveTokens(t: TokenTable, userId: Id, now: Time): set<string> {
    set h | h in t && t[h].userId == userId && t[h].Validate(now).None?
  }

  function ActiveCount(t: TokenTable, userId: Id, now: Time): nat {
    |ActiveTokens(t, userId, now)|
  }

  // ---------------------------------------------------------------- Users

  type UserTable = map<Id, UserRow>

  ghost predicate EmailTakenIn(u: UserTable, email: string) {
    exists id :: id in u && u[id].email == email
  }

  ghost predicate UniqueEmails(u: UserTable) {
    forall i, j :: i in u && j in u && u[i].email == u[j].email ==> i == j
  }

  ghost function CreateUser(u: UserTable, row: UserRow): (UserTable, Option<Error>) {
    if EmailTakenIn(u, row.email) then (u, Some(Error.EmailTaken)) else (u[row.id := row], None)
  }

  ghost function FindUserByEmail(u: UserTable, email: string): Result<UserRow, Error> {
    if EmailTakenIn(u, email) then
      var id :| id in u && u[id].email == email;
      Ok(u[id])
    else Err(UserNotFound)
  }

  function FindUserById(u: UserTable, id: Id): Result<UserRow, Error> {
    if id in u then Ok(u[id]) else Err(UserNotFound)
  }

  function UpdateUser(u: UserTable, row: UserRow): (UserTable, Option<Error>) {
    if row.id in u then (u[row.id := row], None) else (u, Some(UserNotFound))
  }

  lemma FindsTheOwner(u: UserTable, id: Id)
    requires id in u && UniqueEmails(u)
    ensures FindUserByEmail(u, u[id].email) == Ok(u[id])
  {
  }
}
