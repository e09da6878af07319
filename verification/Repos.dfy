/** The in-memory repositories, which hand out and keep copies of what they store, and the SQL token
    table. */
module Repos {
  import opened Wrappers
  import opened Domain
  import opened Tables

  class Clock {
    var t: Time

    constructor (t: Time)
      ensures this.t == t
    {
      this.t := t;
    }

    function Now(): Time
      reads this
    {
      t
    }
  }

  // ---------------------------------------------------------------- Tokens in memory

  class TokenRepo {
    var byHash: map<string, RefreshToken>

    ghost function Objects(): set<RefreshToken>
      reads this
    {
      byHash.Values
    }

    ghost predicate Valid()
      reads this
    {
      forall h :: h in byHash ==> byHash[h].hash == h
    }

    ghost function Table(): (t: TokenTable)
      reads this, Objects()
    {
      map h | h in byHash :: byHash[h].Row()
    }

    constructor ()
      ensures Valid() && Table() == map[]
    {
      byHash := map[];
    }

    method Create(t: RefreshToken, fault: Fault) returns (err: Option<Error>)
      requires Valid()
      modifies this
      ensures Valid() && fresh(Objects() - old(Objects()))
      ensures (Table(), err) == Write(old(Table()), CreateToken(old(Table()), t.Row()), fault)
    {
      if fault.Lost? {
        return Some(Infrastructure);
      }
      if t.hash in byHash {
        err := Some(Duplicate);
      } else {
        var cp := new RefreshToken(t.Row());
        byHash := byHash[t.hash := cp];
        err := None;
        assert Table() == old(Table())[t.hash := t.Row()];
      }
      if fault.Torn? {
        err := Some(Infrastructure);
      }
    }

    /** The object returned is a copy: changing it does not change the store. */
    method FindByHash(hash: string, fault: Fault) returns (t: RefreshToken?, err: Option<Error>)
      requires Valid()
      ensures Table() == old(Table())
      ensures t == null <==> err.Some?
      ensures t != null ==> fresh(t) && Read(FindToken(Table(), hash), fault) == Ok(t.Row())
      ensures t == null ==> Read(FindToken(Table(), hash), fault) == Err(err.value)
    {
      if !fault.NoFault? {
        return null, Some(Infrastructure);
      }
      if hash !in byHash {
        return null, Some(TokenNotFound);
      }
      var cp := new RefreshToken(byHash[hash].Row());
      return cp, None;
    }

    method Update(t: RefreshToken, fault: Fault) returns (err: Option<Error>)
      requires Valid()
      modifies this
      ensures Valid() && fresh(Objects() - old(Objects()))
      ensures (Table(), err) == Write(old(Table()), UpdateToken(old(Table()), t.Row()), fault)
      ensures fault.NoFault? ==> err == if t.hash in old(byHash) then None else Some(TokenNotFound)
    {
      if fault.Lost? {
        return Some(Infrastructure);
      }
      if t.hash !in byHash {
        err := Some(TokenNotFound);
      } else {
        var cp := new RefreshToken(t.Row());
        byHash := byHash[t.hash := cp];
        err := None;
        assert Table() == old(Table())[t.hash := t.Row()];
      }
      if fault.Torn? {
        err := Some(Infrastructure);
      }
    }

    method RevokeAllForUser(userId: Id, now: Time, fault: Fault) returns (err: Option<Error>)
      requires Valid()
      modifies Objects()
      ensures Valid() && Objects() == old(Objects())
      ensures (Table(), err) == Write(old(Table()), (RevokeAll(old(Table()), userId, now), None), fault)
    {
      if fault.Lost? {
        return Some(Infrastructure);
      }
      var todo := byHash.Keys;
      while todo != {}
        invariant todo <= byHash.Keys
        invariant forall h :: h in byHash ==>
                    byHash[h].Row() == (if h in todo then old(Table()) else RevokeAll(old(Table()), userId, now))[h]
        decreases todo
      {
        var h :| h in todo;
        var t := byHash[h];
        if t.userId == userId {
          t.Revoke(now);
        }
        todo := todo - {h};
      }
      assert Table() == RevokeAll(old(Table()), userId, now);
      return if fault.Torn? then Some(Infrastructure) else None;
    }

    lemma RowOf(h: string)
      requires h in byHash
      ensures h in Table() && Table()[h] == byHash[h].Row()
    {
    }

    lemma SameKeys()
      ensures Table().Keys == byHash.Keys
    {
    }

    method ActiveCount(userId: Id, now: Time) returns (n: nat)
      requires Valid()
      ensures n == Tables.ActiveCount(Table(), userId, now)
    {
      hide TokenRepo.Table, ActiveTokens, Valid;
      ghost var table := Table();
      var todo := byHash.Keys;
      n := 0;
      SameKeys();
      NoneLeftOut(table, userId, now);
      while todo != {}
        invariant todo <= byHash.Keys
        invariant Table() == table
        invariant n == |ActiveTokens(table, userId, now) - todo|
        decreases todo
      {
        var h :| h in todo;
        var t := byHash[h];
        RowOf(h);
        CountOne(table, todo, h, userId, now);
        todo := todo - {h};
        if t.userId == userId && t.Validate(now).None? {
          n := n + 1;
        }
      }
      assert ActiveTokens(table, userId, now) - todo == ActiveTokens(table, userId, now);
    }

    lemma NoneLeftOut(t: TokenTable, userId: Id, now: Time)
      ensures ActiveTokens(t, userId, now) - t.Keys == {}
    {
    }

    lemma CountOne(t: TokenTable, todo: set<string>, h: string, userId: Id, now: Time)
      requires h in todo && h in t
      ensures |ActiveTokens(t, userId, now) - (todo - {h})| ==
              |ActiveTokens(t, userId, now) - todo| + if t[h].userId == userId && t[h].Validate(now).None? then 1 else 0
    {
      var active := ActiveTokens(t, userId, now);
      if h in active {
        assert active - (todo - {h}) == (active - todo) + {h};
      } else {
        assert active - (todo - {h}) == active - todo;
      }
    }
  }

  // ---------------------------------------------------------------- Users in memory, indexed twice

  class UserRepo {
    var byId: map<Id, User>
    var byEmail: map<string, User>

    ghost function Objects(): set<User>
      reads this
    {
      byId.Values
    }

    /** Both indexes hold the same objects, under their own keys. */
    ghost predicate Valid()
      reads this
    {
      && (forall id :: id in byId ==>
            byId[id].id == id && byId[id].email in byEmail && byEmail[byId[id].email] == byId[id])
      && (forall e :: e in byEmail ==>
            byEmail[e].email == e && byEmail[e].id in byId && byId[byEmail[e].id] == byEmail[e])
    }

    ghost function Table(): UserTable
      reads this, Objects()
    {
      map id | id in byId :: byId[id].Row()
    }

    lemma EmailsAreUnique()
      requires Valid()
      ensures UniqueEmails(Table())
      ensures forall e :: EmailTakenIn(Table(), e) <==> e in byEmail
    {
      forall e | e in byEmail ensures EmailTakenIn(Table(), e) {
        assert Table()[byEmail[e].id].email == e;
      }
    }

    constructor ()
      ensures Valid() && Table() == map[]
    {
      byId, byEmail := map[], map[];
    }

    /** A repeated id would replace one index entry and leave the other, that of the old email, behind;
        ids.New never repeats one. */
    method Create(u: User, fault: Fault) returns (err: Option<Error>)
      requires Valid()
      modifies this
      ensures fresh(Objects() - old(Objects()))
      ensures Valid() <==> u.id !in old(byId) || u.email in old(byEmail) || fault.Lost?
      ensures (Table(), err) == Write(old(Table()), CreateUser(old(Table()), u.Row()), fault)
    {
      if fault.Lost? {
        return Some(Infrastructure);
      }
      assert EmailTakenIn(Table(), u.email) <==> u.email in byEmail by {
        EmailsAreUnique();
      }
      if u.email in byEmail {
        err := Some(EmailTaken);
      } else {
        var cp := new User(u.Row());
        ghost var previous := if u.id in byId then byId[u.id].email else u.email;
        byId := byId[u.id := cp];
        byEmail := byEmail[u.email := cp];
        err := None;
        assert Table() == old(Table())[u.id := u.Row()];
        assert previous != u.email ==> byEmail[previous] != byId[u.id];
      }
      if fault.Torn? {
        err := Some(Infrastructure);
      }
    }

    method FindByEmail(email: string, fault: Fault) returns (u: User?, err: Option<Error>)
      requires Valid()
      ensures Table() == old(Table())
      ensures u == null <==> err.Some?
      ensures u != null ==> fresh(u) && Read(FindUserByEmail(Table(), email), fault) == Ok(u.Row())
      ensures u == null ==> Read(FindUserByEmail(Table(), email), fault) == Err(err.value)
    {
      if !fault.NoFault? {
        return null, Some(Infrastructure);
      }
      EmailsAreUnique();
      if email !in byEmail {
        return null, Some(UserNotFound);
      }
      FindsTheOwner(Table(), byEmail[email].id);
      u := new User(byEmail[email].Row());
      err := None;
    }

    method FindById(id: Id, fault: Fault) returns (u: User?, err: Option<Error>)
      requires Valid()
      ensures Table() == old(Table())
      ensures u == null <==> err.Some?
      ensures u != null ==> fresh(u) && Read(FindUserById(Table(), id), fault) == Ok(u.Row())
      ensures u == null ==> Read(FindUserById(Table(), id), fault) == Err(err.value)
    {
      if !fault.NoFault? {
        return null, Some(Infrastructure);
      }
      if id !in byId {
        return null, Some(UserNotFound);
      }
      u := new User(byId[id].Row());
      err := None;
    }

    /** Changing the email would leave the old index entry behind; AuthService never does. */
    method Update(u: User, fault: Fault) returns (err: Option<Error>)
      requires Valid()
      modifies this
      ensures fresh(Objects() - old(Objects()))
      ensures Valid() <==> u.id !in old(byId) || u.email == old(byId[u.id].email) || fault.Lost?
      ensures (Table(), err) == Write(old(Table()), UpdateUser(old(Table()), u.Row()), fault)
      ensures fault.NoFault? ==> err == if u.id in old(byId) then None else Some(UserNotFound)
    {
      if fault.Lost? {
        return Some(Infrastructure);
      }
      if u.id !in byId {
        err := Some(UserNotFound);
      } else {
        var cp := new User(u.Row());
        ghost var previous := byId[u.id].email;
        byId := byId[u.id := cp];
        byEmail := byEmail[u.email := cp];
        err := None;
        assert Table() == old(Table())[u.id := u.Row()];
        assert previous != u.email ==> byEmail[previous] != byId[u.id];
      }
      if fault.Torn? {
        err := Some(Infrastructure);
      }
    }

    method Delete(id: Id)
      requires Valid()
      modifies this
      ensures Valid() && Objects() <= old(Objects())
      ensures Table() == old(Table()) - {id}
    {
      if id in byId {
        var u := byId[id];
        byEmail := byEmail - {u.email};
        byId := byId - {id};
      }
      assert Table() == old(Table()) - {id};
    }
  }
}
