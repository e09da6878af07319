/** The pieces of Go's strings and fmt packages that the password hash format relies on. */
module Text {
  import opened Wrappers

  // ---------------------------------------------------------------- strings.Split

  function Split(s: string, c: char): (parts: seq<string>)
    ensures |parts| >= 1
  {
    if s == "" then [""]
    else if s[0] == c then [""] + Split(s[1..], c)
    else
      var rest := Split(s[1..], c);
      [[s[0]] + rest[0]] + rest[1..]
  }

  function Join(parts: seq<string>, c: char): string
    requires |parts| >= 1
  {
    if |parts| == 1 then parts[0] else parts[0] + [c] + Join(parts[1..], c)
  }

  lemma {:induction false} SplitFirst(p: string, rest: string, c: char)
    requires c !in p
    ensures Split(p + [c] + rest, c) == [p] + Split(rest, c)
    ensures Split(p, c) == [p]
  {
    if p == "" {
      assert (p + [c] + rest)[1..] == rest;
    } else {
      SplitFirst(p[1..], rest, c);
      assert (p + [c] + rest)[1..] == p[1..] + [c] + rest;
      assert p == [p[0]] + p[1..];
    }
  }

  /** Splitting recovers any list of separator-free parts that was joined. */
  lemma {:induction false} SplitOfJoin(parts: seq<string>, c: char)
    requires |parts| >= 1 && forall i :: 0 <= i < |parts| ==> c !in parts[i]
    ensures Split(Join(parts, c), c) == parts
  {
    if |parts| == 1 {
      SplitFirst(parts[0], "", c);
      assert parts == [parts[0]];
    } else {
      SplitOfJoin(parts[1..], c);
      SplitFirst(parts[0], Join(parts[1..], c), c);
      assert parts == [parts[0]] + parts[1..];
    }
  }

  // ---------------------------------------------------------------- %d

  predicate IsDigit(c: char) {
    '0' <= c <= '9'
  }

  predicate Numeric(s: string) {
    forall i :: 0 <= i < |s| ==> IsDigit(s[i])
  }

  function DigitChar(d: int): char
    requires 0 <= d < 10
  {
    '0' + d as char
  }

  function Decimal(n: nat): (s: string)
    ensures |s| > 0 && Numeric(s)
  {
    if n < 10 then [DigitChar(n)] else Decimal(n / 10) + [DigitChar(n % 10)]
  }

  function Number(s: string): nat
    requires Numeric(s)
  {
    if s == "" then 0 else 10 * Number(s[..|s| - 1]) + (s[|s| - 1] - '0') as int
  }

  /** A decimal is worth its number, and has no leading zero. */
  lemma {:induction false} NumberOfDecimal(n: nat)
    ensures Number(Decimal(n)) == n && (Decimal(n)[0] == '0' ==> n == 0)
  {
    if n >= 10 {
      NumberOfDecimal(n / 10);
      assert Decimal(n)[..|Decimal(n)| - 1] == Decimal(n / 10);
    } else {
      assert Decimal(n)[..0] == "";
    }
  }

  // ---------------------------------------------------------------- fmt.Sscanf

  /** The white space fmt skips in front of a number. */
  predicate IsSpace(c: char) {
    '\t' <= c <= '\r' || c == ' ' || c == '\U{85}' || c == '\U{A0}' || c == '\U{1680}'
    || '\U{2000}' <= c <= '\U{200A}' || '\U{2028}' <= c <= '\U{2029}'
    || c == '\U{202F}' || c == '\U{205F}' || c == '\U{3000}'
  }

  lemma SpacesAreThese(c: char)
    ensures IsSpace(c) <==>
            c in {'\t', '\n', '\U{0B}', '\U{0C}', '\r', ' ', '\U{85}', '\U{A0}', '\U{1680}', '\U{2000}', '\U{2001}',
                  '\U{2002}', '\U{2003}', '\U{2004}', '\U{2005}', '\U{2006}', '\U{2007}', '\U{2008}', '\U{2009}',
                  '\U{200A}', '\U{2028}', '\U{2029}', '\U{202F}', '\U{205F}', '\U{3000}'}
  {
  }

  /** A line feed in the input that the format does not have is an error. */
  function SkipSpace(s: string): Option<string> {
    if s == "" then Some(s)
    else if s[0] == '\n' then None
    else if IsSpace(s[0]) then SkipSpace(s[1..])
    else Some(s)
  }

  function DigitRun(s: string): (k: nat)
    ensures k <= |s| && Numeric(s[..k])
    ensures k < |s| ==> !IsDigit(s[k])
  {
    if s == "" || !IsDigit(s[0]) then 0
    else
      assert s[..1 + DigitRun(s[1..])] == [s[0]] + s[1..][..DigitRun(s[1..])];
      1 + DigitRun(s[1..])
  }

  lemma DigitRunOf(d: string, rest: string)
    requires Numeric(d) && (rest == "" || !IsDigit(rest[0]))
    ensures DigitRun(d + rest) == |d|
  {
    var s := d + rest;
    assert forall i :: 0 <= i < |d| ==> s[i] == d[i];
    assert rest != "" ==> s[|d|] == rest[0];
  }

  /** %d into an unsigned variable that holds values below bound: the number and the unread input. */
  function ScanUint(s: string, bound: nat): (r: Option<(nat, string)>)
    ensures r.Some? ==> r.value.0 < bound
  {
    var t := SkipSpace(s);
    if t.None? || DigitRun(t.value) == 0 then None
    else
      var k := DigitRun(t.value);
      if Number(t.value[..k]) >= bound then None else Some((Number(t.value[..k]), t.value[k..]))
  }

  predicate Fits64(n: int) {
    -0x8000_0000_0000_0000 <= n < 0x8000_0000_0000_0000
  }

  /** A sign in front, if there is one, and what follows it. */
  function SplitSign(s: string): (string, string) {
    if s != "" && (s[0] == '+' || s[0] == '-') then ([s[0]], s[1..]) else ("", s)
  }

  function WithSign(sign: string, m: nat): int {
    if sign == "-" then 0 - m as int else m
  }

  /** %d into an int: an optional sign, then digits, within 64 bits. */
  function ScanInt(s: string): Option<(int, string)> {
    var t := SkipSpace(s);
    if t.None? then None
    else
      var (sign, u) := SplitSign(t.value);
      var k := DigitRun(u);
      if k == 0 then None
      else
        var n := WithSign(sign, Number(u[..k]));
        if Fits64(n) then Some((n, u[k..])) else None
  }

  /** Literal text of the format must match; the rest of the input is returned. */
  function Expect(s: string, literal: string): Option<string> {
    if literal <= s then Some(s[|literal|..]) else None
  }

  lemma ScanUintOfDecimal(n: nat, bound: nat, rest: string)
    requires n < bound && (rest == "" || !IsDigit(rest[0]))
    ensures ScanUint(Decimal(n) + rest, bound) == Some((n, rest))
  {
    var s := Decimal(n) + rest;
    assert IsDigit(s[0]);
    assert SkipSpace(s) == Some(s);
    DigitRunOf(Decimal(n), rest);
    NumberOfDecimal(n);
    assert s[..|Decimal(n)|] == Decimal(n) && s[|Decimal(n)|..] == rest;
  }

  lemma ScanIntOfDecimal(n: nat, rest: string)
    requires n < 0x8000_0000_0000_0000 && (rest == "" || !IsDigit(rest[0]))
    ensures ScanInt(Decimal(n) + rest) == Some((n, rest))
  {
    var s := Decimal(n) + rest;
    assert IsDigit(s[0]);
    assert SkipSpace(s) == Some(s);
    DigitRunOf(Decimal(n), rest);
    NumberOfDecimal(n);
    assert s[..|Decimal(n)|] == Decimal(n) && s[|Decimal(n)|..] == rest;
  }

  // ---------------------------------------------------------------- What %d accepts

  /** White space without a line feed. */
  predicate Blank(s: string) {
    forall i :: 0 <= i < |s| ==> IsSpace(s[i]) && s[i] != '\n'
  }

  predicate EndsNumber(rest: string) {
    rest == "" || !IsDigit(rest[0])
  }

  predicate IsNumber(s: string, n: nat) {
    s != "" && Numeric(s) && Number(s) == n
  }

  /** White space, the number n in digits, and then rest, which does not go on with a digit. */
  ghost predicate NumberThen(s: string, n: nat, rest: string) {
    EndsNumber(rest) && exists blank, digits :: s == blank + digits + rest && Blank(blank) && IsNumber(digits, n)
  }

  predicate IsSigned(sign: string, m: nat, n: int) {
    (sign in {"", "+"} && n == m) || (sign == "-" && n == 0 - m as int)
  }

  /** The same with an optional sign in front of the digits. */
  ghost predicate SignedNumberThen(s: string, n: int, rest: string) {
    EndsNumber(rest) && exists blank, sign, digits, m: nat ::
      s == blank + sign + digits + rest && Blank(blank) && IsNumber(digits, m) && IsSigned(sign, m, n)
  }

  lemma {:induction false} SkipSpaceSplits(s: string) returns (blank: string)
    requires SkipSpace(s).Some?
    ensures Blank(blank) && s == blank + SkipSpace(s).value
  {
    if s == "" || !IsSpace(s[0]) {
      blank := "";
    } else {
      var more := SkipSpaceSplits(s[1..]);
      blank := [s[0]] + more;
    }
  }

  lemma {:induction false} SkipsBlank(blank: string, s: string)
    requires Blank(blank) && s != "" && !IsSpace(s[0])
    ensures SkipSpace(blank + s) == Some(s)
  {
    if blank == "" {
      assert blank + s == s;
    } else {
      assert (blank + s)[1..] == blank[1..] + s;
      SkipsBlank(blank[1..], s);
    }
  }

  lemma NumberOfScanUint(s: string, bound: nat, n: nat, rest: string)
    requires ScanUint(s, bound) == Some((n, rest))
    ensures n < bound && NumberThen(s, n, rest)
  {
    hide SkipSpace;
    var blank := SkipSpaceSplits(s);
    var t := SkipSpace(s).value;
    var digits := t[..DigitRun(t)];
    assert IsNumber(digits, n) && EndsNumber(rest);
    assert t == digits + rest;
    assert s == blank + digits + rest;
  }

  lemma ScanUintOfNumber(blank: string, digits: string, bound: nat, n: nat, rest: string)
    requires Blank(blank) && IsNumber(digits, n) && EndsNumber(rest) && n < bound
    ensures ScanUint(blank + digits + rest, bound) == Some((n, rest))
  {
    var t := digits + rest;
    assert t[0] == digits[0];
    SkipsBlank(blank, t);
    assert blank + digits + rest == blank + t;
    DigitRunOf(digits, rest);
    hide SkipSpace, DigitRun;
    assert t[..|digits|] == digits && t[|digits|..] == rest;
  }

  /** An unsigned %d reads n below the bound, and leaves rest, from exactly such texts. */
  lemma ScanUintWhen(s: string, bound: nat, n: nat, rest: string)
    ensures ScanUint(s, bound) == Some((n, rest)) <==> n < bound && NumberThen(s, n, rest)
  {
    hide ScanUint, IsNumber, Blank, EndsNumber;
    if ScanUint(s, bound) == Some((n, rest)) {
      NumberOfScanUint(s, bound, n, rest);
    }
    if n < bound && NumberThen(s, n, rest) {
      var blank, digits :| s == blank + digits + rest && Blank(blank) && IsNumber(digits, n);
      ScanUintOfNumber(blank, digits, bound, n, rest);
    }
  }

  lemma SignIsSplitOff(sign: string, u: string)
    requires sign in {"", "+", "-"} && u != "" && IsDigit(u[0])
    ensures SplitSign(sign + u) == (sign, u) && !IsSpace((sign + u)[0])
  {
    assert sign + u == if sign == "" then u else [sign[0]] + u;
  }

  lemma SplitSignJoins(s: string)
    ensures SplitSign(s).0 + SplitSign(s).1 == s && SplitSign(s).0 in {"", "+", "-"}
  {
  }

  lemma ScanIntOfSigned(blank: string, sign: string, digits: string, m: nat, n: int, rest: string)
    requires Blank(blank) && IsNumber(digits, m) && IsSigned(sign, m, n) && EndsNumber(rest) && Fits64(n)
    ensures ScanInt(blank + sign + digits + rest) == Some((n, rest))
  {
    hide SplitSign, SkipSpace, DigitRun, Number, Blank, IsSpace;
    var u := digits + rest;
    assert u[0] == digits[0] && u[..|digits|] == digits && u[|digits|..] == rest;
    SignIsSplitOff(sign, u);
    SkipsBlank(blank, sign + u);
    assert blank + sign + digits + rest == blank + (sign + u);
    DigitRunOf(digits, rest);
  }

  lemma SignedOfScanInt(s: string, n: int, rest: string)
    requires ScanInt(s) == Some((n, rest))
    ensures Fits64(n) && SignedNumberThen(s, n, rest)
  {
    hide SplitSign, SkipSpace;
    var blank := SkipSpaceSplits(s);
    var t := SkipSpace(s).value;
    SplitSignJoins(t);
    var (sign, u) := SplitSign(t);
    var digits := u[..DigitRun(u)];
    assert IsNumber(digits, Number(digits)) && IsSigned(sign, Number(digits), n) && EndsNumber(rest);
    assert u == digits + rest;
    assert s == blank + sign + digits + rest;
  }

  /** A %d into an int reads n, and leaves rest, from exactly such texts, as long as n fits. */
  lemma ScanIntWhen(s: string, n: int, rest: string)
    ensures ScanInt(s) == Some((n, rest)) <==> Fits64(n) && SignedNumberThen(s, n, rest)
  {
    hide ScanInt, IsSigned, IsNumber, Blank, EndsNumber;
    if ScanInt(s) == Some((n, rest)) {
      SignedOfScanInt(s, n, rest);
    }
    if Fits64(n) && SignedNumberThen(s, n, rest) {
      var blank, sign, digits, m: nat :|
        s == blank + sign + digits + rest && Blank(blank) && IsNumber(digits, m) && IsSigned(sign, m, n);
      ScanIntOfSigned(blank, sign, digits, m, n, rest);
    }
  }

  /** Splitting takes any text apart into separator-free parts that join to it. */
  lemma {:induction false} JoinOfSplit(s: string, c: char)
    ensures forall i :: 0 <= i < |Split(s, c)| ==> c !in Split(s, c)[i]
    ensures Join(Split(s, c), c) == s
  {
    if s != "" {
      JoinOfSplit(s[1..], c);
      var rest := Split(s[1..], c);
      assert s == [s[0]] + s[1..];
      if s[0] == c {
        assert Split(s, c)[1..] == rest;
        assert Join(Split(s, c), c) == "" + [c] + Join(rest, c);
      } else {
        assert Split(s, c)[1..] == rest[1..];
      }
    }
  }
}
