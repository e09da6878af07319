/** JSON Web Keys for Ed25519 and the in-memory key set built from them. */
module Jwks {
  import opened Wrappers
  import opened Base64

  const PUBLIC_KEY_SIZE := 32

  type Bytes = seq<byte>

  datatype JwkError = UnsupportedKey | BadEncoding | BadLength | UnknownKey

  datatype Jwk = Jwk(kty: string, crv: string, kid: string, use: string, alg: string, x: string) {

    function PublicKey(): Result<Bytes, JwkError> {
      if kty != "OKP" || crv != "Ed25519" then Err(UnsupportedKey)
      else
        var b := Decode(Url, x);
        if b.None? then Err(BadEncoding)
        else if |b.value| != PUBLIC_KEY_SIZE then Err(BadLength)
        else Ok(b.value)
    }
  }

  /** SHA-256 of a text: not modelled, so taken as a parameter. */
  type Digest = string -> Bytes

  /** The text of section 3.2 of RFC 7638: required members in order, no white space. */
  function Canonical(pub: Bytes): string {
    "{\"crv\":\"Ed25519\",\"kty\":\"OKP\",\"x\":\"" + Encode(Url, pub) + "\"}"
  }

  function Thumbprint(sha256: Digest, pub: Bytes): string {
    Encode(Url, sha256(Canonical(pub)))
  }

  function PublicJwk(sha256: Digest, pub: Bytes): Jwk {
    Jwk("OKP", "Ed25519", Thumbprint(sha256, pub), "sig", "EdDSA", Encode(Url, pub))
  }

  /** A key comes back from its JWK exactly when it has the length of an Ed25519 public key. */
  lemma PublicKeySurvives(sha256: Digest, pub: Bytes)
    ensures PublicJwk(sha256, pub).PublicKey() ==
            if |pub| == PUBLIC_KEY_SIZE then Ok(pub) else Err(BadLength)
  {
    RoundTrip(Url, pub);
  }

  /** An Ed25519 entry whose x stands for the 32 bytes of key. */
  predicate WellFormed(k: Jwk, key: Bytes) {
    k.kty == "OKP" && k.crv == "Ed25519" && Decode(Url, k.x) == Some(key) && |key| == 32
  }

  /** A key is read from exactly such entries; another type or curve, an x that is not base64url, and a
      wrong length each have their error. */
  lemma PublicKeyWhen(k: Jwk, key: Bytes)
    ensures k.PublicKey() == Ok(key) <==> WellFormed(k, key)
    ensures k.PublicKey() == Err(UnsupportedKey) <==> !(k.kty == "OKP" && k.crv == "Ed25519")
    ensures k.PublicKey() == Err(BadEncoding) <==> k.kty == "OKP" && k.crv == "Ed25519" && Decode(Url, k.x).None?
    ensures k.PublicKey() == Err(BadLength) <==>
            k.kty == "OKP" && k.crv == "Ed25519" && Decode(Url, k.x).Some? && |Decode(Url, k.x).value| != 32
  {
  }

  /** A published entry is for signatures by that key, under its thumbprint. */
  lemma PublishedEntry(sha256: Digest, pub: Bytes)
    ensures var k := PublicJwk(sha256, pub);
            && k.use == "sig" && k.alg == "EdDSA" && k.kid == Thumbprint(sha256, pub)
            && (|pub| == 32 ==> WellFormed(k, pub))
    ensures Decode(Url, Thumbprint(sha256, pub)) == Some(sha256(Canonical(pub)))
  {
    RoundTrip(Url, pub);
    RoundTrip(Url, sha256(Canonical(pub)));
  }

  // The text of section 3.2 of RFC 7638, said from its rules: a JSON object of the required members, in the
  // order of their names, without white space.

  function Quoted(s: string): string {
    "\"" + s + "\""
  }

  function Member(name: string, value: string): string {
    Quoted(name) + ":" + Quoted(value)
  }

  function Members(ms: seq<(string, string)>): string
    requires |ms| >= 1
  {
    var first := Member(ms[0].0, ms[0].1);
    if |ms| == 1 then first else first + "," + Members(ms[1..])
  }

  lemma ThreeMembers(a: (string, string), b: (string, string), c: (string, string))
    ensures Members([a, b, c]) == Member(a.0, a.1) + "," + (Member(b.0, b.1) + "," + Member(c.0, c.1))
  {
    hide Member;
    assert [a, b, c][1..] == [b, c] && [b, c][1..] == [c];
    assert Members([c]) == Member(c.0, c.1);
    assert Members([b, c]) == Member(b.0, b.1) + "," + Member(c.0, c.1);
  }

  lemma ObjectEndsInX(crv: string, kty: string, x: string)
    ensures "{" + (crv + "," + (kty + "," + Member("x", x))) + "}" == ("{" + crv + "," + kty + ",\"x\":\"") + x + "\"}"
  {
    assert Member("x", x) == "\"x\":\"" + x + "\"";
  }

  lemma CanonicalIsJson(pub: Bytes)
    ensures Canonical(pub) == "{" + Members([("crv", "Ed25519"), ("kty", "OKP"), ("x", Encode(Url, pub))]) + "}"
  {
    hide Encode, Members, Member, Quoted;
    ThreeMembers(("crv", "Ed25519"), ("kty", "OKP"), ("x", Encode(Url, pub)));
    ObjectEndsInX(Member("crv", "Ed25519"), Member("kty", "OKP"), Encode(Url, pub));
    CanonicalStart();
  }

  lemma CanonicalStart()
    ensures "{" + Member("crv", "Ed25519") + "," + Member("kty", "OKP") + ",\"x\":\"" ==
            "{\"crv\":\"Ed25519\",\"kty\":\"OKP\",\"x\":\""
  {
  }

  lemma EncodeIsInjective(b: Bytes, c: Bytes)
    ensures Encode(Url, b) == Encode(Url, c) ==> b == c
  {
    RoundTrip(Url, b);
    RoundTrip(Url, c);
  }

  lemma CanonicalIsInjective(p: Bytes, q: Bytes)
    ensures Canonical(p) == Canonical(q) ==> p == q
  {
    hide Encode;
    var n := |Canonical([])| - |Encode(Url, [])| - 2;
    assert Canonical(p)[n..|Canonical(p)| - 2] == Encode(Url, p);
    assert Canonical(q)[n..|Canonical(q)| - 2] == Encode(Url, q);
    EncodeIsInjective(p, q);
  }

  /** Two different keys share a thumbprint only where the digest collides on their canonical texts. */
  lemma ThumbprintSeparatesKeys(sha256: Digest, p: Bytes, q: Bytes)
    ensures Thumbprint(sha256, p) == Thumbprint(sha256, q) <==>
            p == q || (Canonical(p) != Canonical(q) && sha256(Canonical(p)) == sha256(Canonical(q)))
  {
    hide Encode, Canonical;
    CanonicalIsInjective(p, q);
    EncodeIsInjective(sha256(Canonical(p)), sha256(Canonical(q)));
  }

  // ---------------------------------------------------------------- Key sets

  /** The last well-formed entry with this kid. */
  function LastKey(jwks: seq<Jwk>, kid: string): Option<Bytes> {
    if jwks == [] then None
    else
      var k := jwks[|jwks| - 1];
      if k.kid == kid && k.PublicKey().Ok? then Some(k.PublicKey().value) else LastKey(jwks[..|jwks| - 1], kid)
  }

  class StaticKeySet {
    var keys: map<string, Bytes>

    /** The set answers like the document it was built from. */
    ghost predicate Represents(jwks: seq<Jwk>)
      reads this
    {
      forall kid: string :: LastKey(jwks, kid) == if kid in keys then Some(keys[kid]) else None
    }

    constructor (jwks: seq<Jwk>)
      ensures Represents(jwks)
    {
      keys := map[];
      new;
      var i := 0;
      while i < |jwks|
        invariant 0 <= i <= |jwks|
        invariant Represents(jwks[..i])
      {
        assert jwks[..i + 1][..i] == jwks[..i];
        var k := jwks[i];
        var pub := k.PublicKey();
        if pub.Ok? {
          keys := keys[k.kid := pub.value];
        }
        i := i + 1;
      }
      assert jwks[..i] == jwks;
    }

    function PublicKey(kid: string): (r: Result<Bytes, JwkError>)
      reads this
      ensures forall jwks :: Represents(jwks) ==>
                r == if LastKey(jwks, kid).Some? then Ok(LastKey(jwks, kid).value) else Err(UnknownKey)
    {
      if kid in keys then Ok(keys[kid]) else Err(UnknownKey)
    }
  }

  /** LastKey said with positions: it is the key of an entry that no later well-formed entry shadows. */
  lemma {:induction false} LastKeyIsUnshadowed(jwks: seq<Jwk>, kid: string, key: Bytes)
    ensures LastKey(jwks, kid) == Some(key) <==>
            exists i :: 0 <= i < |jwks| && jwks[i].kid == kid && jwks[i].PublicKey() == Ok(key) &&
                        forall j :: i < j < |jwks| && jwks[j].kid == kid ==> jwks[j].PublicKey().Err?
  {
    hide Jwk.PublicKey;
    if jwks != [] {
      var n := |jwks| - 1;
      var init := jwks[..n];
      LastKeyIsUnshadowed(init, kid, key);
      if jwks[n].kid == kid && jwks[n].PublicKey().Ok? {
      } else {
        if LastKey(init, kid) == Some(key) {
          var i :| 0 <= i < |init| && init[i].kid == kid && init[i].PublicKey() == Ok(key) &&
                   forall j :: i < j < |init| && init[j].kid == kid ==> init[j].PublicKey().Err?;
          assert jwks[i].kid == kid && jwks[i].PublicKey() == Ok(key);
          forall j | i < j < |jwks| && jwks[j].kid == kid ensures jwks[j].PublicKey().Err? {
            if j < n { assert init[j] == jwks[j]; }
          }
        }
        if i :| 0 <= i < |jwks| && jwks[i].kid == kid && jwks[i].PublicKey() == Ok(key) &&
                forall j :: i < j < |jwks| && jwks[j].kid == kid ==> jwks[j].PublicKey().Err? {
          assert init[i] == jwks[i];
          forall j | i < j < |init| && init[j].kid == kid ensures init[j].PublicKey().Err? {
            assert init[j] == jwks[j];
          }
        }
      }
    }
  }

  /** The key served under kid is that of the last entry with kid that is well-formed, and there is none
      exactly when no entry is. */
  lemma LookupWhen(jwks: seq<Jwk>, kid: string, key: Bytes)
    ensures LastKey(jwks, kid) == Some(key) <==>
            exists i :: 0 <= i < |jwks| && jwks[i].kid == kid && WellFormed(jwks[i], key) &&
                        forall j, other :: i < j < |jwks| && jwks[j].kid == kid ==> !WellFormed(jwks[j], other)
    ensures LastKey(jwks, kid).None? <==>
            forall i, other :: 0 <= i < |jwks| && jwks[i].kid == kid ==> !WellFormed(jwks[i], other)
  {
    hide Jwk.PublicKey, WellFormed, LastKey;
    forall k: Jwk, other ensures k.PublicKey() == Ok(other) <==> WellFormed(k, other) {
      PublicKeyWhen(k, other);
    }
    LastKeyIsUnshadowed(jwks, kid, key);
    if LastKey(jwks, kid).Some? {
      LastKeyIsUnshadowed(jwks, kid, LastKey(jwks, kid).value);
    }
    forall i | 0 <= i < |jwks| && jwks[i].kid == kid && jwks[i].PublicKey().Ok? ensures LastKey(jwks, kid).Some? {
      LastOfMatching(jwks, kid, i);
    }
  }

  /** Malformed entries change no lookup, wherever they stand. */
  lemma {:induction false} MalformedEntriesAreInert(before: seq<Jwk>, bad: seq<Jwk>, after: seq<Jwk>, kid: string)
    requires forall i :: 0 <= i < |bad| ==> bad[i].PublicKey().Err?
    ensures LastKey(before + bad + after, kid) == LastKey(before + after, kid)
  {
    hide Jwk.PublicKey;
    if after != [] {
      var init := after[..|after| - 1];
      var s, t := before + bad + after, before + after;
      assert s[..|s| - 1] == before + bad + init && t[..|t| - 1] == before + init;
      MalformedEntriesAreInert(before, bad, init, kid);
    } else if bad != [] {
      var s := before + bad + after;
      assert s[..|s| - 1] == before + bad[..|bad| - 1] + after;
      assert s[|s| - 1] == bad[|bad| - 1];
      MalformedEntriesAreInert(before, bad[..|bad| - 1], after, kid);
    } else {
      assert before + bad + after == before + after;
    }
  }

  /** Every key published in a document is found under its own thumbprint, unless the digest collides. */
  lemma PublishedKeyIsFound(sha256: Digest, pubs: seq<Bytes>, i: nat)
    requires i < |pubs| && |pubs[i]| == PUBLIC_KEY_SIZE
    requires forall j :: 0 <= j < |pubs| && sha256(Canonical(pubs[j])) == sha256(Canonical(pubs[i])) ==>
               pubs[j] == pubs[i]
    ensures LastKey(Published(sha256, pubs), Thumbprint(sha256, pubs[i])) == Some(pubs[i])
  {
    hide Thumbprint;
    var kid := Thumbprint(sha256, pubs[i]);
    PublicKeySurvives(sha256, pubs[i]);
    if LastKey(Published(sha256, pubs), kid).None? {
      LastOfMatching(Published(sha256, pubs), kid, i);
    } else {
      LastKeyIsUnshadowed(Published(sha256, pubs), kid, LastKey(Published(sha256, pubs), kid).value);
      var j :| 0 <= j < |pubs| && Published(sha256, pubs)[j].kid == kid
               && Published(sha256, pubs)[j].PublicKey() == Ok(LastKey(Published(sha256, pubs), kid).value);
      ThumbprintSeparatesKeys(sha256, pubs[i], pubs[j]);
      PublicKeySurvives(sha256, pubs[j]);
    }
  }

  function Published(sha256: Digest, pubs: seq<Bytes>): (r: seq<Jwk>)
    ensures |r| == |pubs|
  {
    seq(|pubs|, i requires 0 <= i < |pubs| => PublicJwk(sha256, pubs[i]))
  }

  lemma {:induction false} LastOfMatching(jwks: seq<Jwk>, kid: string, i: nat)
    requires i < |jwks| && jwks[i].kid == kid && jwks[i].PublicKey().Ok?
    ensures LastKey(jwks, kid).Some?
  {
    if i < |jwks| - 1 {
      LastOfMatching(jwks[..|jwks| - 1], kid, i);
    }
  }
}
