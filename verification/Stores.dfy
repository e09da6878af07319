/** The SQL token table, keyed by id with a unique hash, whose timestamptz columns keep whole microseconds,
    and when it answers like the table by hash. */
module Stores {
  import opened Wrappers
  import opened Domain
  import opened Tables

  type Rows = map<Id, TokenRow>

  ghost predicate HashTakenIn(r: Rows, hash: string) {
    exists id :: id in r && r[id].hash == hash
  }

  /** Primary key on id, unique constraint on token_hash. */
  ghost predicate SchemaHolds(r: Rows) {
    && (forall id :: id in r ==> r[id].id == id)
    && (forall i, j :: i in r && j in r && r[i].hash == r[j].hash ==> i == j)
  }

  ghost function SqlCreate(r: Rows, row: TokenRow): (Rows, Option<Error>) {
    if row.id in r || HashTakenIn(r, row.hash) then (r, Some(Duplicate))
    else (r[row.id := row.Kept(MICROSECOND)], None)
  }

  ghost function SqlFind(r: Rows, hash: string): Result<TokenRow, Error> {
    if HashTakenIn(r, hash) then
      var id :| id in r && r[id].hash == hash;
      Ok(r[id])
    else Err(TokenNotFound)
  }

  /** Writes one column, whatever it held before. */
  function SqlUpdate(r: Rows, row: TokenRow): (Rows, Option<Error>) {
    if row.id !in r then (r, Some(TokenNotFound))
    else (r[row.id := r[row.id].(revokedAt := FloorOption(MICROSECOND, row.revokedAt))], None)
  }

  function SqlRevokeAll(r: Rows, userId: Id, now: Time): (r': Rows)
    ensures r'.Keys == r.Keys
  {
    map id | id in r ::
      if r[id].userId == userId && r[id].revokedAt.None? then r[id].(revokedAt := Some(Floor(MICROSECOND, now)))
      else r[id]
  }

  // ---------------------------------------------------------------- The table by hash that rows stand for

  predicate StoredUnderId(t: TokenTable, r: Rows, h: string) {
    h in t && t[h].hash == h && t[h].id in r && r[t[h].id] == t[h]
  }

  predicate StoredUnderHash(t: TokenTable, r: Rows, id: Id) {
    id in r && r[id].id == id && r[id].hash in t && t[r[id].hash] == r[id]
  }

  /** Each row of one is a row of the other, under its own hash and its own id. */
  ghost predicate Agree(t: TokenTable, r: Rows) {
    && (forall h :: h in t ==> StoredUnderId(t, r, h))
    && (forall id :: id in r ==> StoredUnderHash(t, r, id))
  }

  lemma AgreeingRowsMeetSchema(t: TokenTable, r: Rows)
    requires Agree(t, r)
    ensures SchemaHolds(r)
    ensures forall h :: HashTakenIn(r, h) <==> h in t
    ensures forall h :: SqlFind(r, h) == FindToken(t, h)
  {
  }

  predicate IdUnused(t: TokenTable, id: Id) {
    forall h :: h in t ==> t[h].id != id
  }

  /** Both tables and both answers agree after the same operation. */
  ghost predicate StillAgree(m: (TokenTable, Option<Error>), q: (Rows, Option<Error>)) {
    Agree(m.0, q.0) && m.1 == q.1
  }

  /** A second row for a hash is refused by both stores. Any other row leaves them in agreement exactly
      when its id is new and its times are whole microseconds. */
  lemma CreateAgrees(t: TokenTable, r: Rows, row: TokenRow)
    requires Agree(t, r)
    ensures StillAgree(CreateToken(t, row), SqlCreate(r, row)) <==>
            row.hash in t || (row.id !in r && row.Kept(MICROSECOND) == row)
  {
    var t', r' := CreateToken(t, row).0, SqlCreate(r, row).0;
    AgreeingRowsMeetSchema(t, r);
    if row.hash !in t && row.id !in r {
      assert row.Kept(MICROSECOND) != row ==> !StoredUnderId(t', r', row.hash);
    }
  }

  /** One store replaces the row under the hash, the other one column of the row under the id. They
      agree exactly on a copy of a stored row with a whole revocation time, and on a row neither knows. */
  lemma UpdateAgrees(t: TokenTable, r: Rows, row: TokenRow)
    requires Agree(t, r)
    ensures StillAgree(UpdateToken(t, row), SqlUpdate(r, row)) <==>
            if row.hash in t then t[row.hash].SameToken(row) && row.RevocationKept(MICROSECOND) == row else row.id !in r
  {
    var t', r' := UpdateToken(t, row).0, SqlUpdate(r, row).0;
    if row.hash in t {
      if t[row.hash].SameToken(row) && row.RevocationKept(MICROSECOND) == row {
        assert StoredUnderId(t, r, row.hash);
      } else {
        assert StoredUnderId(t, r, row.hash);
        assert !StoredUnderId(t', r', row.hash);
      }
    }
  }

  /** The conditional SQL update is the loop of first-time revocations exactly when the time is whole or
      there is nothing to revoke. */
  lemma RevokeAllAgrees(t: TokenTable, r: Rows, userId: Id, now: Time)
    requires Agree(t, r)
    ensures Agree(RevokeAll(t, userId, now), SqlRevokeAll(r, userId, now)) <==>
            OnTick(MICROSECOND, now) || forall h :: h in t && t[h].userId == userId ==> t[h].revokedAt.Some?
  {
    var t', r' := RevokeAll(t, userId, now), SqlRevokeAll(r, userId, now);
    if h :| h in t && t[h].userId == userId && t[h].revokedAt.None? && !OnTick(MICROSECOND, now) {
      assert StoredUnderId(t, r, h);
      assert !StoredUnderId(t', r', h);
    }
  }

  /** What a caller sees of the rounding: a row not yet revoked is refused as expired in the last, partial
      microsecond of its life, and at no other time is it answered differently. */
  lemma RoundingShortensLife(row: TokenRow, now: Time)
    ensures row.Kept(MICROSECOND).Validate(now) != row.Validate(now) <==>
            row.revokedAt.None? && Floor(MICROSECOND, row.expiresAt) <= now < row.expiresAt
    ensures row.revokedAt.None? && !OnTick(MICROSECOND, row.expiresAt) ==>
              && row.Validate(row.expiresAt - 1) == None
              && row.Kept(MICROSECOND).Validate(row.expiresAt - 1) == Some(TokenExpired)
  {
  }

  // ---------------------------------------------------------------- The repository

  class PostgresTokenRepo {
    /** The refresh_tokens table. */
    var rows: Rows

    constructor ()
      ensures rows == map[]
    {
      rows := map[];
    }

    method Create(t: RefreshToken, fault: Fault) returns (err: Option<Error>)
      requires SchemaHolds(rows)
      modifies this
      ensures SchemaHolds(rows)
      ensures (rows, err) == Write(old(rows), SqlCreate(old(rows), t.Row()), fault)
    {
      if fault.Lost? {
        return Some(Infrastructure);
      }
      var sameHash := set id | id in rows && rows[id].hash == t.hash;
      assert HashTakenIn(rows, t.hash) <==> sameHash != {} by {
        assert forall id :: id in sameHash <==> id in rows && rows[id].hash == t.hash;
      }
      if t.id in rows || sameHash != {} {
        err := Some(Duplicate);
      } else {
        rows := rows[t.id := t.Row().Kept(MICROSECOND)];
        err := None;
      }
      if fault.Torn? {
        err := Some(Infrastructure);
      }
    }

    method FindByHash(hash: string, fault: Fault) returns (t: RefreshToken?, err: Option<Error>)
      requires SchemaHolds(rows)
      ensures t == null <==> err.Some?
      ensures t != null ==> fresh(t) && Read(SqlFind(rows, hash), fault) == Ok(t.Row())
      ensures t == null ==> Read(SqlFind(rows, hash), fault) == Err(err.value)
    {
      if !fault.NoFault? {
        return null, Some(Infrastructure);
      }
      var sameHash := set id | id in rows && rows[id].hash == hash;
      assert HashTakenIn(rows, hash) <==> sameHash != {} by {
        assert forall id :: id in sameHash <==> id in rows && rows[id].hash == hash;
      }
      if sameHash == {} {
        return null, Some(TokenNotFound);
      }
      var id :| id in sameHash;
      t := new RefreshToken(rows[id]);
      err := None;
    }

    method Update(t: RefreshToken, fault: Fault) returns (err: Option<Error>)
      requires SchemaHolds(rows)
      modifies this
      ensures SchemaHolds(rows)
      ensures (rows, err) == Write(old(rows), SqlUpdate(old(rows), t.Row()), fault)
      ensures fault.NoFault? ==> err == if t.id in old(rows) then None else Some(TokenNotFound)
    {
      if fault.Lost? {
        return Some(Infrastructure);
      }
      var affected := if t.id in rows then 1 else 0;
      if affected == 1 {
        rows := rows[t.id := rows[t.id].(revokedAt := FloorOption(MICROSECOND, t.revokedAt))];
      }
      err := if affected == 0 then Some(TokenNotFound) else None;
      if fault.Torn? {
        err := Some(Infrastructure);
      }
    }

    method RevokeAllForUser(userId: Id, now: Time, fault: Fault) returns (err: Option<Error>)
      requires SchemaHolds(rows)
      modifies this
      ensures SchemaHolds(rows)
      ensures (rows, err) == Write(old(rows), (SqlRevokeAll(old(rows), userId, now), None), fault)
    {
      if fault.Lost? {
        return Some(Infrastructure);
      }
      rows := SqlRevokeAll(rows, userId, now);
      return if fault.Torn? then Some(Infrastructure) else None;
    }
  }
}
