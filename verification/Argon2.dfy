/** Argon2Hasher as the PasswordHasher that AuthService uses. */
module Argon2 {
  import opened Wrappers
  import opened Base64
  import opened Domain
  import opened HashGrammar
  import opened PasswordHash
  import opened Text

  function Hasher(kdf: Kdf, p: Params): PasswordHasher {
    PasswordHasher(
      (password: string, salt: Option<seq<byte>>) => HashWith(kdf, p, password, salt),
      (password: string, hash: string) =>
        var r := Verify(kdf, password, hash);
        if r.Ok? then Ok(r.value) else Err(HashFailed))
  }

  /** The random source fills a slice of the configured length, so no other salt is ever offered. */
  function HashWith(kdf: Kdf, p: Params, password: string, salt: Option<seq<byte>>): Result<string, Error> {
    if salt.Some? && |salt.value| != p.saltLength then Err(HashFailed)
    else
      var r := Hash(kdf, p, password, salt);
      if r.Ok? then Ok(r.value) else Err(HashFailed)
  }

  /** For any text: a hash is checked by deriving the key it denotes from the candidate, anything else is an
      error. */
  lemma HasherAnswers(kdf: Kdf, p: Params, candidate: string, parts: seq<string>, d: Decoded)
    requires Plain(parts)
    ensures Denotes(parts, d) ==>
              var q := d.params;
              Hasher(kdf, p).verify(candidate, Join(parts, '$')) ==
              if q.iterations >= 1 && q.parallelism >= 1 && q.keyLength >= 1
              then Ok(kdf(KdfInput(candidate, d.salt, q.iterations, q.memory, q.parallelism, q.keyLength)) == d.key)
              else Err(HashFailed)
    ensures (forall any :: !Denotes(parts, any)) ==>
              Hasher(kdf, p).verify(candidate, Join(parts, '$')) == Err(HashFailed)
  {
    hide Denotes, Join, Verify;
    VerifyAnswers(kdf, candidate, parts, d);
  }

  lemma HashedPasswordMatches(kdf: Kdf, p: Params, password: string, salt: Option<seq<byte>>)
    requires ReturnsRequestedLength(kdf) && HashWith(kdf, p, password, salt).Ok?
    ensures Hasher(kdf, p).verify(password, HashWith(kdf, p, password, salt).value) ==
            if p.saltLength > 0 then Ok(true) else Err(HashFailed)
  {
    VerifyOfHash(kdf, p, password, salt.value, password);
  }

  /** Every password hashed under p is accepted later exactly when the salt length is positive (or the
      parameters are such that nothing can be hashed at all). */
  lemma FaithfulWhen(kdf: Kdf, p: Params)
    requires ReturnsRequestedLength(kdf)
    ensures Faithful(Hasher(kdf, p)) <==> p.saltLength > 0 || !KdfRuns(p)
  {
    var hasher := Hasher(kdf, p);
    if p.saltLength > 0 || !KdfRuns(p) {
      forall password: string, salt: Option<seq<byte>> | hasher.hash(password, salt).Ok?
        ensures hasher.verify(password, hasher.hash(password, salt).value) == Ok(true)
      {
        HashedPasswordMatches(kdf, p, password, salt);
      }
    } else {
      var salt: seq<byte> := seq(p.saltLength, _ => 0);
      assert hasher.hash("", Some(salt)) == HashWith(kdf, p, "", Some(salt));
      HashedPasswordMatches(kdf, p, "", Some(salt));
      assert hasher.hash("", Some(salt)).Ok?;
    }
  }
}
