/** Unpadded base64 as Go's encoding/base64 reads and writes it: sections 4 and 5 of RFC 4648 without
    the pad character. The decoder is Go's default one: it skips line breaks and does not look at the
    spare bits of a final partial group. */
module Base64 {
  import opened Wrappers

  type byte = x: int | 0 <= x < 256

  type sextet = x: int | 0 <= x < 64

  datatype Alphabet = Std | Url

  function Char(a: Alphabet, v: sextet): char {
    if v < 26 then 'A' + v as char
    else if v < 52 then 'a' + (v - 26) as char
    else if v < 62 then '0' + (v - 52) as char
    else if v == 62 then (if a.Std? then '+' else '-')
    else (if a.Std? then '/' else '_')
  }

  function Value(a: Alphabet, c: char): Option<sextet> {
    if 'A' <= c <= 'Z' then Some((c - 'A') as int)
    else if 'a' <= c <= 'z' then Some((c - 'a') as int + 26)
    else if '0' <= c <= '9' then Some((c - '0') as int + 52)
    else if c == (if a.Std? then '+' else '-') then Some(62)
    else if c == (if a.Std? then '/' else '_') then Some(63)
    else None
  }

  // Table 1 of RFC 4648; table 2 differs in the last two characters.

  const UPPER := "ABCDEFGHIJKLMNOPQRSTUVWXYZ"
  const LOWER := "abcdefghijklmnopqrstuvwxyz"
  const OTHERS := "0123456789+/"

  lemma CharIsTabulated(v: sextet)
    ensures |UPPER + LOWER + OTHERS| == 64 && Char(Std, v) == (UPPER + LOWER + OTHERS)[v]
    ensures Char(Url, v) == if v == 62 then '-' else if v == 63 then '_' else Char(Std, v)
  {
    if v < 26 {
      assert Char(Std, v) == UPPER[v];
    } else if v < 52 {
      assert Char(Std, v) == LOWER[v - 26];
    } else {
      assert Char(Std, v) == OTHERS[v - 52];
    }
  }

  /** Value and Char are inverse to each other. */
  lemma DigitsInvert(a: Alphabet, v: sextet, c: char)
    ensures Value(a, c) == Some(v) <==> Char(a, v) == c
  {
  }

  predicate IsLineBreak(c: char) {
    c == '\r' || c == '\n'
  }

  /** Digits only: in particular no '$', no '=', no line break. */
  predicate AllDigits(a: Alphabet, s: string) {
    forall i :: 0 <= i < |s| ==> Value(a, s[i]).Some?
  }

  // ---------------------------------------------------------------- Bytes and 6-bit digits

  // The four digits of three bytes, and the three bytes of four digits.

  function D0(x: int): sextet requires 0 <= x < 256 { x / 4 }

  function D1(x: int, y: int): sextet requires 0 <= x < 256 && 0 <= y < 256 { x % 4 * 16 + y / 16 }

  function D2(y: int, z: int): sextet requires 0 <= y < 256 && 0 <= z < 256 { y % 16 * 4 + z / 64 }

  function D3(z: int): sextet requires 0 <= z < 256 { z % 64 }

  function B0(p: int, q: int): byte requires 0 <= p < 64 && 0 <= q < 64 { p * 4 + q / 16 }

  function B1(q: int, r: int): byte requires 0 <= q < 64 && 0 <= r < 64 { q % 16 * 16 + r / 4 }

  function B2(r: int, s: int): byte requires 0 <= r < 64 && 0 <= s < 64 { r % 4 * 64 + s }

  lemma BytesOfDigits(x: byte, y: byte, z: byte)
    ensures B0(D0(x), D1(x, y)) == x && B1(D1(x, y), D2(y, z)) == y && B2(D2(y, z), D3(z)) == z
  {
  }

  lemma DigitsOfBytes(p: sextet, q: sextet, r: sextet, s: sextet)
    ensures D0(B0(p, q)) == p && D1(B0(p, q), B1(q, r)) == q
    ensures D2(B1(q, r), B2(r, s)) == r && D3(B2(r, s)) == s
  {
  }

  lemma SpareBits(p: sextet, q: sextet, r: sextet)
    ensures D0(B0(p, q)) == p && (D1(B0(p, q), 0) == q <==> q % 16 == 0)
    ensures D1(B0(p, q), B1(q, r)) == q && (D2(B1(q, r), 0) == r <==> r % 4 == 0)
  {
  }

  function ToSextets(b: seq<byte>): (v: seq<sextet>) {
    if |b| == 0 then []
    else if |b| == 1 then [D0(b[0]), D1(b[0], 0)]
    else if |b| == 2 then [D0(b[0]), D1(b[0], b[1]), D2(b[1], 0)]
    else [D0(b[0]), D1(b[0], b[1]), D2(b[1], b[2]), D3(b[2])] + ToSextets(b[3..])
  }

  /** Spare bits of a last group of two or three digits are dropped; a lone digit is an error. */
  function FromSextets(v: seq<sextet>): Option<seq<byte>> {
    if |v| == 0 then Some([])
    else if |v| == 1 then None
    else if |v| == 2 then Some([B0(v[0], v[1])])
    else if |v| == 3 then Some([B0(v[0], v[1]), B1(v[1], v[2])])
    else if FromSextets(v[4..]).None? then None
    else Some([B0(v[0], v[1]), B1(v[1], v[2]), B2(v[2], v[3])] + FromSextets(v[4..]).value)
  }

  lemma {:induction false} SextetsRoundTrip(b: seq<byte>)
    ensures FromSextets(ToSextets(b)) == Some(b)
  {
    hide D0, D1, D2, D3, B0, B1, B2;
    if |b| == 1 {
      BytesOfDigits(b[0], 0, 0);
      assert b == [b[0]];
    } else if |b| == 2 {
      BytesOfDigits(b[0], b[1], 0);
      assert b == [b[0], b[1]];
    } else if |b| >= 3 {
      BytesOfDigits(b[0], b[1], b[2]);
      SextetsRoundTrip(b[3..]);
      assert ToSextets(b)[4..] == ToSextets(b[3..]);
      assert b == [b[0], b[1], b[2]] + b[3..];
    }
  }

  /** The low bits that a final group of two or three digits does not use are zero. */
  predicate SpareBitsZero(v: seq<sextet>) {
    && (|v| % 4 == 2 ==> v[|v| - 1] % 16 == 0)
    && (|v| % 4 == 3 ==> v[|v| - 1] % 4 == 0)
  }

  lemma FullGroup(v: seq<sextet>)
    requires |v| >= 4 && FromSextets(v).Some?
    ensures FromSextets(v[4..]).Some?
    ensures ToSextets(FromSextets(v).value) == v[..4] + ToSextets(FromSextets(v[4..]).value)
  {
    hide D0, D1, D2, D3, B0, B1, B2;
    DigitsOfBytes(v[0], v[1], v[2], v[3]);
    var b := FromSextets(v).value;
    assert b[3..] == FromSextets(v[4..]).value;
    assert v[..4] == [v[0], v[1], v[2], v[3]];
  }

  lemma PairOfDigits(p: sextet, q: sextet)
    ensures FromSextets([p, q]) == Some([B0(p, q)])
    ensures ToSextets([B0(p, q)]) == [p, q] <==> q % 16 == 0
  {
    hide D0, D1, B0;
    SpareBits(p, q, 0);
  }

  lemma TripleOfDigits(p: sextet, q: sextet, r: sextet)
    ensures FromSextets([p, q, r]) == Some([B0(p, q), B1(q, r)])
    ensures ToSextets([B0(p, q), B1(q, r)]) == [p, q, r] <==> r % 4 == 0
  {
    hide D0, D1, D2, B0, B1;
    SpareBits(p, q, r);
  }

  lemma FewDigits(v: seq<sextet>)
    requires |v| < 2
    ensures FromSextets(v) == if v == [] then Some([]) else None
    ensures ToSextets([]) == []
  {
  }

  lemma PartialGroup(v: seq<sextet>)
    requires |v| < 4 && FromSextets(v).Some?
    ensures ToSextets(FromSextets(v).value) == v <==> SpareBitsZero(v)
  {
    hide ToSextets, FromSextets;
    if |v| == 3 {
      TripleOfDigits(v[0], v[1], v[2]);
      assert v == [v[0], v[1], v[2]];
    } else if |v| == 2 {
      PairOfDigits(v[0], v[1]);
      assert v == [v[0], v[1]];
    } else {
      FewDigits(v);
    }
  }

  lemma {:induction false} BytesRoundTrip(v: seq<sextet>)
    requires FromSextets(v).Some?
    ensures ToSextets(FromSextets(v).value) == v <==> SpareBitsZero(v)
  {
    hide ToSextets, FromSextets;
    if |v| < 4 {
      PartialGroup(v);
    } else {
      FullGroup(v);
      BytesRoundTrip(v[4..]);
      var tail := ToSextets(FromSextets(v[4..]).value);
      assert (v[..4] + tail)[4..] == tail;
      assert v == v[..4] + v[4..];
    }
  }

  // ---------------------------------------------------------------- The codec as bits

  /** Byte i of b, followed by zeros. */
  function ByteAt(b: seq<byte>, i: nat): byte {
    if i < |b| then b[i] else 0
  }

  /** Six bits of the 16 that two bytes have, after the first skip. */
  function SixOf(x: byte, y: byte, skip: int): sextet {
    var bits: int := 256 * x + y;
    var kept := if skip == 0 then bits / 1024 else if skip == 2 then bits / 256 else if skip == 4 then bits / 64
                else bits / 16;
    kept % 64
  }

  /** Eight bits of the 12 that two digits have, after the first skip. */
  function EightOf(p: sextet, q: sextet, skip: int): byte {
    var bits: int := 64 * p + q;
    (if skip == 0 then bits / 16 else if skip == 2 then bits / 4 else bits) % 256
  }

  /** The six bits of b, read as one string of bits, from bit 6 * i on. */
  function SixBits(b: seq<byte>, i: nat): sextet {
    SixOf(ByteAt(b, 6 * i / 8), ByteAt(b, 6 * i / 8 + 1), 6 * i % 8)
  }

  /** The eight bits of v, read as one string of bits, from bit 8 * i on. */
  function EightBits(v: seq<sextet>, i: nat): byte
    requires 8 * i + 8 <= 6 * |v|
  {
    EightOf(v[8 * i / 6], v[8 * i / 6 + 1], 8 * i % 6)
  }

  lemma Quotient(n: int, k: int, q: int, r: int)
    requires k == 4 || k == 16 || k == 64 || k == 256
    requires n == k * q + r && 0 <= r < k
    ensures n / k == q && n % k == r
  {
    if k == 4 {
      assert n == 4 * q + r;
    } else if k == 16 {
      assert n == 16 * q + r;
    } else if k == 64 {
      assert n == 64 * q + r;
    } else {
      assert n == 256 * q + r;
    }
  }

  lemma SixFromStart(x: byte, y: byte)
    ensures SixOf(x, y, 0) == D0(x)
  {
  }

  lemma SixAcross(x: byte, y: byte)
    ensures SixOf(x, y, 6) == D1(x, y)
  {
    Quotient(256 * x + y, 16, 16 * x + y / 16, y % 16);
    Quotient(16 * x + y / 16, 64, x / 4, x % 4 * 16 + y / 16);
  }

  lemma SixAcrossNext(y: byte, z: byte)
    ensures SixOf(y, z, 4) == D2(y, z)
  {
    Quotient(256 * y + z, 64, 4 * y + z / 64, z % 64);
    Quotient(4 * y + z / 64, 64, y / 16, y % 16 * 4 + z / 64);
  }

  lemma DigitsOfGroup(x: byte, y: byte, z: byte)
    ensures D0(x) == SixOf(x, y, 0) && D1(x, y) == SixOf(x, y, 6)
    ensures D2(y, z) == SixOf(y, z, 4) && D3(z) == SixOf(z, 0, 2)
  {
    hide D0, D1, D2, D3, SixOf;
    SixFromStart(x, y);
    SixAcross(x, y);
    SixAcrossNext(y, z);
    SixOfThird(z);
  }

  lemma SixOfThird(z: byte)
    ensures forall y: byte :: SixOf(z, y, 2) == D3(z)
  {
  }

  lemma EightFromStart(p: sextet, q: sextet)
    ensures EightOf(p, q, 0) == B0(p, q)
  {
  }

  lemma EightAcross(q: sextet, r: sextet)
    ensures EightOf(q, r, 2) == B1(q, r)
  {
    Quotient(64 * q + r, 4, 16 * q + r / 4, r % 4);
    Quotient(16 * q + r / 4, 256, q / 16, q % 16 * 16 + r / 4);
  }

  lemma EightToEnd(r: sextet, s: sextet)
    ensures EightOf(r, s, 4) == B2(r, s)
  {
    Quotient(64 * r + s, 256, r / 4, r % 4 * 64 + s);
  }

  lemma BytesOfGroup(p: sextet, q: sextet, r: sextet, s: sextet)
    ensures B0(p, q) == EightOf(p, q, 0) && B1(q, r) == EightOf(q, r, 2) && B2(r, s) == EightOf(r, s, 4)
  {
    hide B0, B1, B2, EightOf;
    EightFromStart(p, q);
    EightAcross(q, r);
    EightToEnd(r, s);
  }

  lemma FirstSixBits(b: seq<byte>, i: nat)
    requires i < 4 && i < |ToSextets(b)|
    ensures ToSextets(b)[i] == SixBits(b, i)
  {
    hide D0, D1, D2, D3, SixOf;
    DigitsOfGroup(ByteAt(b, 0), ByteAt(b, 1), ByteAt(b, 2));
    SixOfThird(ByteAt(b, 2));
    assert 6 * i / 8 == (if i == 0 then 0 else i - 1) && 6 * i % 8 == (if i == 0 then 0 else 8 - 2 * i);
  }

  lemma SixBitsLater(b: seq<byte>, i: nat)
    requires |b| >= 3 && i >= 4
    ensures SixBits(b, i) == SixBits(b[3..], i - 4)
  {
    hide SixOf;
    assert 6 * i / 8 == 6 * (i - 4) / 8 + 3 && 6 * (i - 4) % 8 == 6 * i % 8;
  }

  /** The digits are the bits of the bytes, six at a time, filled up with zeros. */
  lemma {:induction false} DigitsAreBits(b: seq<byte>, i: nat)
    ensures |ToSextets(b)| == (8 * |b| + 5) / 6
    ensures i < |ToSextets(b)| ==> ToSextets(b)[i] == SixBits(b, i)
  {
    hide D0, D1, D2, D3, SixBits;
    if |b| >= 3 {
      DigitsAreBits(b[3..], if i >= 4 then i - 4 else 0);
      if i >= 4 {
        SixBitsLater(b, i);
      }
    }
    if i < 4 && i < |ToSextets(b)| {
      FirstSixBits(b, i);
    }
  }

  lemma FirstEightBits(v: seq<sextet>, i: nat)
    requires i < 3 && FromSextets(v).Some? && i < |FromSextets(v).value| && 8 * i + 8 <= 6 * |v|
    ensures FromSextets(v).value[i] == EightBits(v, i)
  {
    hide B0, B1, B2, EightOf;
    BytesOfGroup(v[0], v[1], if |v| > 2 then v[2] else 0, if |v| > 3 then v[3] else 0);
    assert 8 * i / 6 == i && 8 * i % 6 == 2 * i;
  }

  lemma FullGroupDecodes(v: seq<sextet>)
    requires |v| >= 4
    ensures FromSextets(v).Some? <==> FromSextets(v[4..]).Some?
    ensures FromSextets(v).Some? ==> |FromSextets(v).value| == 3 + |FromSextets(v[4..]).value|
  {
    hide B0, B1, B2;
  }

  lemma {:induction false} DecodedLength(v: seq<sextet>)
    ensures FromSextets(v).Some? <==> |v| % 4 != 1
    ensures FromSextets(v).Some? ==> |FromSextets(v).value| == 6 * |v| / 8
  {
    hide B0, B1, B2;
    if |v| >= 4 {
      hide FromSextets;
      FullGroupDecodes(v);
      DecodedLength(v[4..]);
    }
  }

  lemma EightBitsLater(v: seq<sextet>, i: nat)
    requires |v| >= 4 && i >= 3 && 8 * i + 8 <= 6 * |v|
    ensures EightBits(v, i) == EightBits(v[4..], i - 3)
  {
    hide EightOf;
    var w, j, k := v[4..], 8 * (i - 3) / 6, 8 * i / 6;
    assert k == j + 4 && 8 * (i - 3) % 6 == 8 * i % 6;
    assert w[j] == v[k] && w[j + 1] == v[k + 1];
  }

  lemma LaterBytes(v: seq<sextet>, i: nat)
    requires |v| >= 4 && FromSextets(v).Some? && 3 <= i < |FromSextets(v).value|
    ensures FromSextets(v[4..]).Some? && i - 3 < |FromSextets(v[4..]).value|
    ensures FromSextets(v).value[i] == FromSextets(v[4..]).value[i - 3]
  {
    hide B0, B1, B2;
  }

  /** The decoder gives the bits of the digits, eight at a time, and drops what is left; it refuses exactly
      a lone last digit. */
  lemma {:induction false} BytesAreBits(v: seq<sextet>, i: nat)
    ensures FromSextets(v).Some? <==> |v| % 4 != 1
    ensures FromSextets(v).Some? ==> |FromSextets(v).value| == 6 * |v| / 8
    ensures FromSextets(v).Some? && i < |FromSextets(v).value| ==> FromSextets(v).value[i] == EightBits(v, i)
  {
    hide FromSextets, EightBits;
    DecodedLength(v);
    if FromSextets(v).Some? && i < |FromSextets(v).value| {
      if i < 3 {
        FirstEightBits(v, i);
      } else {
        LaterBytes(v, i);
        EightBitsLater(v, i);
        BytesAreBits(v[4..], i - 3);
      }
    }
  }

  // ---------------------------------------------------------------- Digits and characters

  function Text(a: Alphabet, v: seq<sextet>): (s: string)
    ensures |s| == |v|
  {
    seq(|v|, i requires 0 <= i < |v| => Char(a, v[i]))
  }

  function Digits(a: Alphabet, s: string): (r: Option<seq<sextet>>)
    ensures r.Some? ==> |r.value| == |s|
  {
    if AllDigits(a, s) then Some(seq(|s|, i requires 0 <= i < |s| => Value(a, s[i]).value)) else None
  }

  lemma TextAndDigitsInvert(a: Alphabet, v: seq<sextet>, s: string)
    ensures Text(a, v) == s <==> Digits(a, s) == Some(v)
  {
    if Text(a, v) == s {
      forall i | 0 <= i < |s| ensures Value(a, s[i]) == Some(v[i]) {
        DigitsInvert(a, v[i], s[i]);
      }
      assert Digits(a, s).value == v;
    }
    if Digits(a, s) == Some(v) {
      forall i | 0 <= i < |s| ensures Text(a, v)[i] == s[i] {
        DigitsInvert(a, v[i], s[i]);
      }
    }
  }

  // ---------------------------------------------------------------- The codec

  function Encode(a: Alphabet, b: seq<byte>): string {
    Text(a, ToSextets(b))
  }

  function Strip(s: string): string {
    if s == "" then ""
    else if IsLineBreak(s[0]) then Strip(s[1..])
    else [s[0]] + Strip(s[1..])
  }

  function Decode(a: Alphabet, s: string): Option<seq<byte>> {
    var digits := Digits(a, Strip(s));
    if digits.None? then None else FromSextets(digits.value)
  }

  lemma EncodeWritesDigits(a: Alphabet, b: seq<byte>)
    ensures AllDigits(a, Encode(a, b))
    ensures Encode(a, b) == "" <==> b == []
  {
  }

  predicate NoLineBreak(s: string) {
    forall i :: 0 <= i < |s| ==> !IsLineBreak(s[i])
  }

  lemma {:induction false} StripWhen(s: string)
    ensures |Strip(s)| <= |s|
    ensures Strip(s) == s <==> NoLineBreak(s)
  {
    if s != "" {
      StripWhen(s[1..]);
      assert s == [s[0]] + s[1..];
      assert NoLineBreak(s) <==> !IsLineBreak(s[0]) && NoLineBreak(s[1..]);
      if !IsLineBreak(s[0]) && Strip(s) == s {
        assert Strip(s)[1..] == Strip(s[1..]);
      }
    }
  }

  /** Every byte string survives encoding and decoding. */
  lemma RoundTrip(a: Alphabet, b: seq<byte>)
    ensures Decode(a, Encode(a, b)) == Some(b)
  {
    EncodeWritesDigits(a, b);
    StripWhen(Encode(a, b));
    TextAndDigitsInvert(a, ToSextets(b), Encode(a, b));
    SextetsRoundTrip(b);
  }

  lemma DigitsHaveNoLineBreak(a: Alphabet, s: string)
    requires AllDigits(a, s)
    ensures NoLineBreak(s)
  {
  }

  lemma {:induction false} StripKeepsTheRest(s: string, c: char, t: string)
    ensures Strip(s + [c] + t) == Strip(s) + (if c == '\r' || c == '\n' then "" else [c]) + Strip(t)
    ensures Strip("") == ""
  {
    if s != "" {
      assert (s + [c] + t)[1..] == s[1..] + [c] + t;
      StripKeepsTheRest(s[1..], c, t);
    } else {
      assert (s + [c] + t)[1..] == t;
    }
  }

  /** What the decoder accepts, and as what: without its line breaks the text is digits, not one more than
      whole groups of four, and their bits are the bytes. */
  lemma DecodesWhen(a: Alphabet, s: string, b: seq<byte>)
    ensures Decode(a, s) == Some(b) <==>
            && AllDigits(a, Strip(s)) && |Strip(s)| % 4 != 1 && |b| == 6 * |Strip(s)| / 8
            && forall i :: 0 <= i < |b| ==> b[i] == EightBits(Digits(a, Strip(s)).value, i)
  {
    if AllDigits(a, Strip(s)) {
      hide FromSextets, EightBits;
      var v := Digits(a, Strip(s)).value;
      BytesAreBits(v, 0);
      if |v| % 4 != 1 {
        var d := FromSextets(v).value;
        forall i | 0 <= i < |d| ensures d[i] == EightBits(v, i) {
          BytesAreBits(v, i);
        }
        if |b| == |d| && forall i :: 0 <= i < |b| ==> b[i] == EightBits(v, i) {
          assert b == d;
        }
      }
    }
  }

  /** Go's decoder accepts more than the encoder writes. An accepted text is the encoding of what it
      decodes to exactly when it has no line break and its spare bits are zero. */
  lemma AcceptedIsCanonicalWhen(a: Alphabet, s: string)
    requires Decode(a, s).Some?
    ensures Encode(a, Decode(a, s).value) == s <==>
            NoLineBreak(s) && SpareBitsZero(Digits(a, Strip(s)).value)
  {
    hide ToSextets, FromSextets, Strip, Text, AllDigits, NoLineBreak, SpareBitsZero;
    StripWhen(s);
    var v := Digits(a, Strip(s)).value;
    BytesRoundTrip(v);
    var w := ToSextets(Decode(a, s).value);
    TextAndDigitsInvert(a, w, s);
    TextAndDigitsInvert(a, v, Strip(s));
    if Encode(a, Decode(a, s).value) == s {
      EncodeWritesDigits(a, Decode(a, s).value);
      DigitsHaveNoLineBreak(a, s);
    }
  }

  /** A set spare bit and a line break are both accepted, and neither is what the encoder writes. */
  lemma DecoderIsLenient()
    ensures Decode(Std, "AB") == Some([0]) && Decode(Std, "A\nA") == Some([0]) && Encode(Std, [0]) == "AA"
  {
    assert Strip("B") == "B";
    assert Strip("AB") == "AB";
    assert Strip("A") == "A";
    assert Strip("A\nA"[1..][1..]) == "A";
    assert Strip("A\nA") == "AA";
    TextAndDigitsInvert(Std, [0, 1], "AB");
    TextAndDigitsInvert(Std, [0, 0], "AA");
    assert Text(Std, [0, 1]) == "AB" && Text(Std, [0, 0]) == "AA";
    assert FromSextets([0, 1]) == Some([0]);
  }
}
