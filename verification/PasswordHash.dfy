/** Argon2Hasher: the PHC string it prints, the parser that takes it apart, and Verify. */
module PasswordHash {
  import opened Wrappers
  import opened Base64
  import opened Text

  type uint32 = x: int | 0 <= x < 0x1_0000_0000

  type uint8 = x: int | 0 <= x < 0x100

  datatype Params = Params(
    memory: uint32, iterations: uint32, parallelism: uint8,
    saltLength: uint32, keyLength: uint32)

  datatype HashError = Malformed | UnsupportedVersion | BadParams | BadSalt | BadKey | NoRandomness | KdfPanic

  const ARGON2_VERSION := 19

  datatype KdfInput = KdfInput(password: string, salt: seq<byte>, time: int, memory: int, threads: int, keyLength: int)

  /** argon2.IDKey: the derivation itself is not modelled, only its panics and the length it returns. */
  type Kdf = KdfInput -> seq<byte>

  ghost predicate ReturnsRequestedLength(kdf: Kdf) {
    forall x: KdfInput :: x.keyLength >= 0 ==> |kdf(x)| == x.keyLength
  }

  /** IDKey panics without iterations or lanes, and blake2b, which it ends in, has no digest of no bytes. */
  predicate KdfRuns(p: Params) {
    p.iterations >= 1 && p.parallelism >= 1 && p.keyLength >= 1
  }

  function Input(p: Params, password: string, salt: seq<byte>, keyLength: int): KdfInput {
    KdfInput(password, salt, p.iterations, p.memory, p.parallelism, keyLength)
  }

  function Print(p: Params, salt: seq<byte>, key: seq<byte>): string {
    "$argon2id$v=" + Decimal(ARGON2_VERSION)
    + "$m=" + Decimal(p.memory) + ",t=" + Decimal(p.iterations) + ",p=" + Decimal(p.parallelism)
    + "$" + Encode(Std, salt) + "$" + Encode(Std, key)
  }

  /** salt is what the random source delivered, None when it failed. */
  function Hash(kdf: Kdf, p: Params, password: string, salt: Option<seq<byte>>): Result<string, HashError>
    requires salt.Some? ==> |salt.value| == p.saltLength
  {
    if salt.None? then Err(NoRandomness)
    else if !KdfRuns(p) then Err(KdfPanic)
    else Ok(Print(p, salt.value, kdf(Input(p, password, salt.value, p.keyLength))))
  }

  function ScanVersion(s: string): Option<int> {
    var t := Expect(s, "v=");
    if t.None? then None
    else
      var n := ScanInt(t.value);
      if n.None? then None else Some(n.value.0)
  }

  /** Sscanf stops after its last verb: whatever follows the third number is not looked at. */
  function ScanParams(s: string): Option<(uint32, uint32, uint8)> {
    var s0 := Expect(s, "m=");
    if s0.None? then None
    else
      var m := ScanUint(s0.value, 0x1_0000_0000);
      if m.None? || Expect(m.value.1, ",t=").None? then None
      else
        var t := ScanUint(Expect(m.value.1, ",t=").value, 0x1_0000_0000);
        if t.None? || Expect(t.value.1, ",p=").None? then None
        else
          var p := ScanUint(Expect(t.value.1, ",p=").value, 0x100);
          if p.None? then None else Some((m.value.0, t.value.0, p.value.0))
  }

  datatype Decoded = Decoded(params: Params, salt: seq<byte>, key: seq<byte>)

  /** The last two parts of the hash, once the parameters are known. */
  function DecodeTail(cost: (uint32, uint32, uint8), saltText: string, keyText: string): Result<Decoded, HashError> {
    var salt, key := Decode(Std, saltText), Decode(Std, keyText);
    if salt.None? then Err(BadSalt)
    else if key.None? then Err(BadKey)
    else if |salt.value| == 0 || |key.value| == 0 then Err(Malformed)
    else
      var p := Params(cost.0, cost.1, cost.2, |salt.value| % 0x1_0000_0000, |key.value| % 0x1_0000_0000);
      Ok(Decoded(p, salt.value, key.value))
  }

  function DecodeParts(parts: seq<string>): Result<Decoded, HashError> {
    if |parts| != 6 || parts[0] != "" || parts[1] != "argon2id" then Err(Malformed)
    else if ScanVersion(parts[2]) != Some(ARGON2_VERSION) then Err(UnsupportedVersion)
    else if ScanParams(parts[3]).None? then Err(BadParams)
    else DecodeTail(ScanParams(parts[3]).value, parts[4], parts[5])
  }

  function DecodeHash(hash: string): Result<Decoded, HashError> {
    DecodeParts(Split(hash, '$'))
  }

  function Verify(kdf: Kdf, password: string, hash: string): Result<bool, HashError> {
    var d := DecodeHash(hash);
    if d.Err? then Err(d.error)
    else if !KdfRuns(d.value.params) then Err(KdfPanic)
    else Ok(kdf(Input(d.value.params, password, d.value.salt, d.value.params.keyLength)) == d.value.key)
  }

  // ---------------------------------------------------------------- The parser inverts the printer

  function CostText(p: Params): string {
    "m=" + Decimal(p.memory) + ",t=" + Decimal(p.iterations) + ",p=" + Decimal(p.parallelism)
  }

  /** Print with extra text after the version number and after the last cost parameter. */
  function PrintLoosely(p: Params, salt: seq<byte>, key: seq<byte>, afterVersion: string, afterCost: string): string {
    Join(["", "argon2id", "v=" + Decimal(ARGON2_VERSION) + afterVersion, CostText(p) + afterCost,
          Encode(Std, salt), Encode(Std, key)], '$')
  }

  predicate Ignorable(s: string) {
    '$' !in s && (s == "" || !IsDigit(s[0]))
  }

  lemma VersionScans(after: string)
    requires Ignorable(after)
    ensures ScanVersion("v=" + Decimal(ARGON2_VERSION) + after) == Some(ARGON2_VERSION)
  {
    var s := "v=" + Decimal(ARGON2_VERSION) + after;
    assert s[2..] == Decimal(ARGON2_VERSION) + after;
    ScanIntOfDecimal(ARGON2_VERSION, after);
  }

  lemma CostScans(p: Params, after: string)
    requires Ignorable(after)
    ensures ScanParams(CostText(p) + after) == Some((p.memory, p.iterations, p.parallelism))
  {
    hide Decimal, ScanUint;
    var s3 := Decimal(p.parallelism) + after;
    var s2 := Decimal(p.iterations) + (",p=" + s3);
    var s1 := Decimal(p.memory) + (",t=" + s2);
    var s := CostText(p) + after;
    assert s == "m=" + s1;
    assert s[2..] == s1 && (",t=" + s2)[3..] == s2 && (",p=" + s3)[3..] == s3;
    ScanUintOfDecimal(p.memory, 0x1_0000_0000, ",t=" + s2);
    ScanUintOfDecimal(p.iterations, 0x1_0000_0000, ",p=" + s3);
    ScanUintOfDecimal(p.parallelism, 0x100, after);
  }

  lemma NumericHasNoDollar(s: string)
    requires Numeric(s)
    ensures '$' !in s
  {
  }

  lemma EncodedHasNoDollar(b: seq<byte>)
    ensures '$' !in Encode(Std, b)
  {
  }

  lemma PartsRecovered(p: Params, salt: seq<byte>, key: seq<byte>, afterVersion: string, afterCost: string)
    requires '$' !in afterVersion && '$' !in afterCost
    ensures Split(PrintLoosely(p, salt, key, afterVersion, afterCost), '$') ==
            ["", "argon2id", "v=" + Decimal(ARGON2_VERSION) + afterVersion, CostText(p) + afterCost,
             Encode(Std, salt), Encode(Std, key)]
  {
    hide Decimal, Encode, Join, Split;
    var parts := ["", "argon2id", "v=" + Decimal(ARGON2_VERSION) + afterVersion, CostText(p) + afterCost,
                  Encode(Std, salt), Encode(Std, key)];
    NumericHasNoDollar(Decimal(ARGON2_VERSION));
    NumericHasNoDollar(Decimal(p.memory));
    NumericHasNoDollar(Decimal(p.iterations));
    NumericHasNoDollar(Decimal(p.parallelism));
    EncodedHasNoDollar(salt);
    EncodedHasNoDollar(key);
    SplitOfJoin(parts, '$');
  }

  lemma JoinStep(first: string, rest: seq<string>, c: char)
    requires |rest| >= 1
    ensures Join([first] + rest, c) == first + [c] + Join(rest, c)
  {
  }

  lemma JoinOfOne(part: string, c: char)
    ensures Join([part], c) == part
  {
  }

  lemma JoinOfSix(v: string, c: string, s: string, k: string)
    ensures Join(["", "argon2id", v, c, s, k], '$') == "$argon2id$" + v + "$" + c + "$" + s + "$" + k
  {
    hide Join;
    JoinOfOne(k, '$');
    JoinStep(s, [k], '$');
    JoinStep(c, [s, k], '$');
    JoinStep(v, [c, s, k], '$');
    JoinStep("argon2id", [v, c, s, k], '$');
    JoinStep("", ["argon2id", v, c, s, k], '$');
    assert [s] + [k] == [s, k] && [c] + [s, k] == [c, s, k] && [v] + [c, s, k] == [v, c, s, k];
    assert ["argon2id"] + [v, c, s, k] == ["argon2id", v, c, s, k];
    assert [""] + ["argon2id", v, c, s, k] == ["", "argon2id", v, c, s, k];
  }

  lemma PrintIsJoin(p: Params, salt: seq<byte>, key: seq<byte>)
    ensures Print(p, salt, key) == PrintLoosely(p, salt, key, "", "")
  {
    hide Decimal, Encode, Join;
    var v, c := "v=" + Decimal(ARGON2_VERSION), CostText(p);
    assert v + "" == v && c + "" == c;
    JoinOfSix(v, c, Encode(Std, salt), Encode(Std, key));
  }

  /** The parser recovers exactly what was printed, unless salt or key is empty, and it cannot tell
      extra text behind the version or behind the last cost parameter from none. */
  lemma DecodeOfPrint(p: Params, salt: seq<byte>, key: seq<byte>, afterVersion: string, afterCost: string)
    requires Ignorable(afterVersion) && Ignorable(afterCost)
    requires |salt| == p.saltLength && |key| == p.keyLength
    ensures DecodeHash(PrintLoosely(p, salt, key, afterVersion, afterCost)) ==
            if |salt| > 0 && |key| > 0 then Ok(Decoded(p, salt, key)) else Err(Malformed)
    ensures DecodeHash(Print(p, salt, key)) == DecodeHash(PrintLoosely(p, salt, key, afterVersion, afterCost))
  {
    DecodeLoosely(p, salt, key, afterVersion, afterCost);
    DecodeLoosely(p, salt, key, "", "");
    PrintIsJoin(p, salt, key);
  }

  lemma DecodeLoosely(p: Params, salt: seq<byte>, key: seq<byte>, afterVersion: string, afterCost: string)
    requires Ignorable(afterVersion) && Ignorable(afterCost)
    requires |salt| == p.saltLength && |key| == p.keyLength
    ensures DecodeHash(PrintLoosely(p, salt, key, afterVersion, afterCost)) ==
            if |salt| > 0 && |key| > 0 then Ok(Decoded(p, salt, key)) else Err(Malformed)
  {
    hide PrintLoosely, ScanVersion, ScanParams, CostText, Decimal, Encode, Decode, Split;
    PartsRecovered(p, salt, key, afterVersion, afterCost);
    VersionScans(afterVersion);
    CostScans(p, afterCost);
    RoundTrip(Std, salt);
    RoundTrip(Std, key);
  }

  lemma DecodedLengths(hash: string)
    requires DecodeHash(hash).Ok?
    ensures var d := DecodeHash(hash).value;
            && |d.salt| > 0 && |d.key| > 0
            && d.params.saltLength == |d.salt| % 0x1_0000_0000 && d.params.keyLength == |d.key| % 0x1_0000_0000
  {
  }

  /** Whatever the parser accepts, printing it again gives a hash that is read the same way. */
  lemma AcceptedHashCanBeReprinted(hash: string)
    requires DecodeHash(hash).Ok?
    requires |DecodeHash(hash).value.salt| < 0x1_0000_0000 && |DecodeHash(hash).value.key| < 0x1_0000_0000
    ensures var d := DecodeHash(hash).value;
            DecodeHash(Print(d.params, d.salt, d.key)) == DecodeHash(hash)
  {
    hide DecodeHash, Print;
    var d := DecodeHash(hash).value;
    DecodedLengths(hash);
    DecodeOfPrint(d.params, d.salt, d.key, "", "");
  }

  /** A hash printed by any hasher is checked the same way by every other one, since only the
      parameters in the hash are used: the answer is right exactly when the salt is not empty, and an
      error otherwise. */
  lemma VerifyOfHash(kdf: Kdf, p: Params, password: string, salt: seq<byte>, candidate: string)
    requires ReturnsRequestedLength(kdf) && KdfRuns(p) && |salt| == p.saltLength
    ensures Hash(kdf, p, password, Some(salt)).Ok?
    ensures Verify(kdf, candidate, Hash(kdf, p, password, Some(salt)).value) ==
            if p.saltLength == 0 then Err(Malformed)
            else Ok(kdf(Input(p, candidate, salt, p.keyLength)) == kdf(Input(p, password, salt, p.keyLength)))
  {
    var key := kdf(Input(p, password, salt, p.keyLength));
    assert |key| == p.keyLength;
    DecodeOfPrint(p, salt, key, "", "");
  }
}
