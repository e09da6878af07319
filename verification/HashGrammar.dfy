/** Which texts are password hashes, what they stand for, and how every other text is refused. */
module HashGrammar {
  import opened Wrappers
  import opened Base64
  import opened Text
  import opened PasswordHash

  // ---------------------------------------------------------------- The grammar

  /** "v=" and a number worth 19; what follows the number is not looked at. */
  ghost predicate IsVersion(s: string) {
    exists text, rest :: s == "v=" + text && SignedNumberThen(text, 19, rest)
  }

  /** "m=", ",t=" and ",p=" each with a number, in this order; what follows the last is not looked at. */
  ghost predicate IsCost(s: string, m: nat, t: nat, p: nat) {
    exists s0, s1, s2, rest ::
      s == "m=" + s0 && NumberThen(s0, m, ",t=" + s1) && NumberThen(s1, t, ",p=" + s2) && NumberThen(s2, p, rest)
  }

  ghost predicate InRange(m: nat, t: nat, p: nat) {
    m < 0x1_0000_0000 && t < 0x1_0000_0000 && p < 0x100
  }

  /** The six parts of a hash and what they stand for. */
  ghost predicate Denotes(parts: seq<string>, d: Decoded) {
    && |parts| == 6 && parts[0] == "" && parts[1] == "argon2id"
    && IsVersion(parts[2])
    && IsCost(parts[3], d.params.memory, d.params.iterations, d.params.parallelism)
    && Decode(Std, parts[4]) == Some(d.salt) && d.salt != [] && d.params.saltLength == |d.salt| % 0x1_0000_0000
    && Decode(Std, parts[5]) == Some(d.key) && d.key != [] && d.params.keyLength == |d.key| % 0x1_0000_0000
  }

  /** The text between the separators. */
  predicate Plain(parts: seq<string>) {
    |parts| >= 1 && forall i :: 0 <= i < |parts| ==> '$' !in parts[i]
  }

  // ---------------------------------------------------------------- The scanners read the grammar

  lemma ExpectWhen(s: string, literal: string, rest: string)
    ensures Expect(s, literal) == Some(rest) <==> s == literal + rest
  {
    if literal <= s {
      assert s == literal + s[|literal|..];
    }
    if s == literal + rest {
      assert s[|literal|..] == rest;
    }
  }

  lemma VersionWhen(s: string)
    ensures ScanVersion(s) == Some(19) <==> IsVersion(s)
  {
    hide Expect, ScanInt;
    if ScanVersion(s) == Some(19) {
      var text := Expect(s, "v=").value;
      var rest := ScanInt(text).value.1;
      ExpectWhen(s, "v=", text);
      ScanIntWhen(text, 19, rest);
    }
    if IsVersion(s) {
      var text, rest :| s == "v=" + text && SignedNumberThen(text, 19, rest);
      ExpectWhen(s, "v=", text);
      ScanIntWhen(text, 19, rest);
    }
  }

  /** Of the decimal numbers only 19 is a version, whatever follows it. */
  lemma OnlyVersion19(n: nat, rest: string)
    requires Fits64(n) && EndsNumber(rest)
    ensures IsVersion("v=" + Decimal(n) + rest) <==> n == 19
    ensures Decimal(19) == "19" && Number("19") == 19
  {
    NumberOfDecimal(19);
    var s, text := "v=" + Decimal(n) + rest, Decimal(n) + rest;
    assert s == "v=" + text;
    ExpectWhen(s, "v=", text);
    ScanIntOfDecimal(n, rest);
    VersionWhen(s);
  }

  lemma CostOfScan(s: string)
    requires ScanParams(s).Some?
    ensures var (m, t, p) := ScanParams(s).value; InRange(m, t, p) && IsCost(s, m, t, p)
  {
    hide Expect, ScanUint, NumberThen;
    var s0 := Expect(s, "m=").value;
    var (m, r0) := ScanUint(s0, 0x1_0000_0000).value;
    var s1 := Expect(r0, ",t=").value;
    var (t, r1) := ScanUint(s1, 0x1_0000_0000).value;
    var s2 := Expect(r1, ",p=").value;
    var (p, rest) := ScanUint(s2, 0x100).value;
    ExpectWhen(s, "m=", s0);
    ExpectWhen(r0, ",t=", s1);
    ExpectWhen(r1, ",p=", s2);
    ScanUintWhen(s0, 0x1_0000_0000, m, r0);
    ScanUintWhen(s1, 0x1_0000_0000, t, r1);
    ScanUintWhen(s2, 0x100, p, rest);
  }

  lemma ScanOfCost(s: string, m: nat, t: nat, p: nat)
    requires InRange(m, t, p) && IsCost(s, m, t, p)
    ensures ScanParams(s) == Some((m, t, p))
  {
    hide Expect, ScanUint, NumberThen;
    var s0, s1, s2, rest :|
      s == "m=" + s0 && NumberThen(s0, m, ",t=" + s1) && NumberThen(s1, t, ",p=" + s2) && NumberThen(s2, p, rest);
    ExpectWhen(s, "m=", s0);
    ExpectWhen(",t=" + s1, ",t=", s1);
    ExpectWhen(",p=" + s2, ",p=", s2);
    ScanUintWhen(s0, 0x1_0000_0000, m, ",t=" + s1);
    ScanUintWhen(s1, 0x1_0000_0000, t, ",p=" + s2);
    ScanUintWhen(s2, 0x100, p, rest);
  }

  lemma CostWhen(s: string, m: nat, t: nat, p: nat)
    ensures ScanParams(s) == Some((m, t, p)) <==> InRange(m, t, p) && IsCost(s, m, t, p)
  {
    hide ScanParams, IsCost;
    if ScanParams(s).Some? {
      CostOfScan(s);
    }
    if InRange(m, t, p) && IsCost(s, m, t, p) {
      ScanOfCost(s, m, t, p);
    }
  }

  // ---------------------------------------------------------------- Acceptance and refusals

  lemma PartsWhen(parts: seq<string>, d: Decoded)
    ensures DecodeParts(parts) == Ok(d) <==> Denotes(parts, d)
  {
    hide ScanVersion, ScanParams, IsVersion, IsCost, Decode;
    if |parts| == 6 {
      VersionWhen(parts[2]);
      CostWhen(parts[3], d.params.memory, d.params.iterations, d.params.parallelism);
    }
  }

  /** The parser gives d for a text exactly when the text, taken apart at every '$', denotes d. */
  lemma AcceptedWhen(hash: string, d: Decoded)
    ensures DecodeHash(hash) == Ok(d) <==>
            exists parts :: Plain(parts) && hash == Join(parts, '$') && Denotes(parts, d)
  {
    hide DecodeParts, Denotes, Join, Split;
    PartsWhen(Split(hash, '$'), d);
    JoinOfSplit(hash, '$');
    assert Plain(Split(hash, '$'));
    if parts :| Plain(parts) && hash == Join(parts, '$') && Denotes(parts, d) {
      SplitOfJoin(parts, '$');
    }
  }

  /** Every other text is refused, for the first of these reasons that applies: not six parts, text in
      front, or another algorithm; another version; parameters that are no numbers or out of range; a salt
      and then a key that is not base64; an empty salt or key. */
  lemma RefusesInOrder(parts: seq<string>)
    requires Plain(parts)
    ensures var r := DecodeHash(Join(parts, '$'));
            if |parts| != 6 || parts[0] != "" || parts[1] != "argon2id" then r == Err(Malformed)
            else if !IsVersion(parts[2]) then r == Err(UnsupportedVersion)
            else if forall m, t, p :: InRange(m, t, p) ==> !IsCost(parts[3], m, t, p) then r == Err(BadParams)
            else if Decode(Std, parts[4]).None? then r == Err(BadSalt)
            else if Decode(Std, parts[5]).None? then r == Err(BadKey)
            else if Decode(Std, parts[4]).value == [] || Decode(Std, parts[5]).value == [] then r == Err(Malformed)
            else r.Ok?
  {
    hide ScanVersion, ScanParams, IsVersion, IsCost, Decode, Split, Join, InRange;
    SplitOfJoin(parts, '$');
    if |parts| == 6 {
      VersionWhen(parts[2]);
      if ScanParams(parts[3]).Some? {
        CostOfScan(parts[3]);
      }
      forall m, t, p | InRange(m, t, p) && IsCost(parts[3], m, t, p) ensures ScanParams(parts[3]).Some? {
        CostWhen(parts[3], m, t, p);
      }
    }
  }

  /** Verify derives a key from the password with what the hash denotes and nothing else, and answers
      whether it is the key in the hash; every text that is no hash is an error. */
  lemma VerifyAnswers(kdf: Kdf, password: string, parts: seq<string>, d: Decoded)
    requires Plain(parts)
    ensures Denotes(parts, d) ==>
              var p := d.params;
              Verify(kdf, password, Join(parts, '$')) ==
              if p.iterations >= 1 && p.parallelism >= 1 && p.keyLength >= 1
              then Ok(kdf(KdfInput(password, d.salt, p.iterations, p.memory, p.parallelism, p.keyLength)) == d.key)
              else Err(KdfPanic)
    ensures (forall any :: !Denotes(parts, any)) ==> Verify(kdf, password, Join(parts, '$')).Err?
  {
    hide DecodeParts, Denotes, Join, Split;
    SplitOfJoin(parts, '$');
    PartsWhen(parts, d);
    if DecodeParts(parts).Ok? {
      PartsWhen(parts, DecodeParts(parts).value);
    }
  }

  lemma PrintedText(p: Params, salt: seq<byte>, key: seq<byte>)
    ensures Print(p, salt, key) ==
            "$argon2id$v=19$m=" + Decimal(p.memory) + ",t=" + Decimal(p.iterations) + ",p=" + Decimal(p.parallelism)
            + "$" + Encode(Std, salt) + "$" + Encode(Std, key)
  {
    NumberOfDecimal(19);
    assert Decimal(19) == "19";
    hide Decimal, Encode;
    assert "$argon2id$v=" + Decimal(19) + "$m=" == "$argon2id$v=19$m=";
  }

  /** Hash fails exactly without randomness or where argon2 panics; otherwise its text denotes the
      parameters, the salt and the derived key, as long as the salt is not empty. */
  lemma HashAnswers(kdf: Kdf, p: Params, password: string, salt: Option<seq<byte>>)
    requires ReturnsRequestedLength(kdf) && (salt.Some? ==> |salt.value| == p.saltLength)
    ensures var r := Hash(kdf, p, password, salt);
            if salt.None? then r == Err(NoRandomness)
            else if p.iterations == 0 || p.parallelism == 0 || p.keyLength == 0 then r == Err(KdfPanic)
            else
              var input := KdfInput(password, salt.value, p.iterations, p.memory, p.parallelism, p.keyLength);
              && r.Ok?
              && r.value == "$argon2id$v=19$m=" + Decimal(p.memory) + ",t=" + Decimal(p.iterations) + ",p="
                            + Decimal(p.parallelism) + "$" + Encode(Std, salt.value) + "$" + Encode(Std, kdf(input))
              && (p.saltLength > 0 ==>
                    exists parts :: Plain(parts) && r.value == Join(parts, '$') &&
                                    Denotes(parts, Decoded(p, salt.value, kdf(input))))
  {
    if salt.Some? && KdfRuns(p) {
      var key := kdf(Input(p, password, salt.value, p.keyLength));
      assert |key| == p.keyLength;
      PrintedText(p, salt.value, key);
      hide Denotes, Print, DecodeHash, Plain, Join, Decimal, Encode;
      DecodeOfPrint(p, salt.value, key, "", "");
      AcceptedWhen(Print(p, salt.value, key), Decoded(p, salt.value, key));
    }
  }
}
