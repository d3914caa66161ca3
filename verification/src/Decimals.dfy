/** Decimal numerals and fixed-width big-endian integers, with the facts that make them decodable. */
module Decimals {

  function Digit(d: nat): (c: char)
    requires d < 10
    ensures '0' <= c <= '9'
    ensures c as int - '0' as int == d
  {
    '0' + d as char
  }

  predicate IsDigit(c: char) {
    '0' <= c <= '9'
  }

  function Zeros(n: nat): (s: string)
    ensures |s| == n && forall i :: 0 <= i < n ==> s[i] == '0'
  {
    seq(n, i => '0')
  }

  predicate IsHexDigit(c: char) {
    c in "0123456789abcdef"
  }

  lemma HexDigitIff(c: char)
    ensures IsHexDigit(c) <==> '0' <= c <= '9' || 'a' <= c <= 'f'
  {
  }

  predicate AllDigits(s: string) {
    forall i :: 0 <= i < |s| ==> IsDigit(s[i])
  }

  function Decimal(n: nat): (s: string)
    ensures s != [] && AllDigits(s)
  {
    if n < 10 then [Digit(n)] else Decimal(n / 10) + [Digit(n % 10)]
  }

  function Numeral(s: string): nat
    requires AllDigits(s)
  {
    if s == [] then 0 else Numeral(s[..|s| - 1]) * 10 + (s[|s| - 1] as int - '0' as int)
  }

  lemma {:induction false} DecimalRoundTrip(n: nat)
    ensures Numeral(Decimal(n)) == n
  {
    if n < 10 {
      assert Decimal(n)[..0] == [];
      assert Numeral([]) == 0;
    } else {
      var s := Decimal(n);
      assert s[..|s| - 1] == Decimal(n / 10);
      DecimalRoundTrip(n / 10);
    }
  }

  /** A numeral ends at the first byte that is not a digit. */
  lemma DecimalDelimited(m: nat, n: nat, stop: char, a: string, b: string)
    requires !IsDigit(stop)
    requires Decimal(m) + [stop] + a == Decimal(n) + [stop] + b
    ensures m == n && a == b
  {
    var s, t := Decimal(m), Decimal(n);
    var whole := s + [stop] + a;
    assert whole[|s|] == stop && whole[|t|] == (t + [stop] + b)[|t|] == stop;
    assert s == whole[..|s|] && t == (t + [stop] + b)[..|t|];
    assert a == whole[|s| + 1..] && b == (t + [stop] + b)[|t| + 1..];
    DecimalRoundTrip(m);
    DecimalRoundTrip(n);
  }

  lemma DecimalInjective(m: nat, n: nat)
    requires Decimal(m) == Decimal(n)
    ensures m == n
  {
    DecimalRoundTrip(m);
    DecimalRoundTrip(n);
  }

  /** The `width` low-order bytes of `n`, most significant first. */
  function BigEndian(n: nat, width: nat): (s: string)
    ensures |s| == width
  {
    if width == 0 then [] else BigEndian(n / 256, width - 1) + [(n % 256) as char]
  }

  function FromBigEndian(s: string): nat {
    if s == [] then 0 else FromBigEndian(s[..|s| - 1]) * 256 + s[|s| - 1] as int
  }

  function Power256(width: nat): (p: nat)
    ensures p > 0
  {
    if width == 0 then 1 else 256 * Power256(width - 1)
  }

  lemma FromSnoc(s: string, c: char)
    ensures FromBigEndian(s + [c]) == FromBigEndian(s) * 256 + c as int
  {
    assert (s + [c])[..|s|] == s;
  }

  lemma HighAndLow(n: nat)
    ensures n / 256 * 256 + n % 256 == n
  {
  }

  lemma {:induction false} BigEndianRoundTrip(n: nat, width: nat)
    requires n < Power256(width)
    ensures FromBigEndian(BigEndian(n, width)) == n
  {
    if width == 0 {
      assert FromBigEndian([]) == 0;
    } else {
      BigEndianRoundTrip(n / 256, width - 1);
      FromSnoc(BigEndian(n / 256, width - 1), (n % 256) as char);
      HighAndLow(n);
    }
  }

  const WORD := 0x1_0000_0000_0000_0000

  /** `struct.pack(">Q", n)` and `struct.unpack(">Q", s)`. */
  function Pack(n: nat): (s: string)
    ensures |s| == 8
  {
    BigEndian(n, 8)
  }

  function Unpack(s: string): nat {
    FromBigEndian(s)
  }

  lemma PackRoundTrip(n: nat)
    requires n < WORD
    ensures Unpack(Pack(n)) == n
  {
    assert Power256(2) == 0x1_0000;
    assert Power256(4) == 256 * (256 * Power256(2)) == 0x1_0000_0000;
    assert Power256(6) == 256 * (256 * Power256(4)) == 0x1_0000_0000_0000;
    assert Power256(8) == 256 * (256 * Power256(6)) == WORD;
    BigEndianRoundTrip(n, 8);
  }

  predicate IsBytes(s: string) {
    forall i :: 0 <= i < |s| ==> s[i] as int < 256
  }

  lemma {:induction false} FromBigEndianRoundTrip(s: string)
    requires IsBytes(s)
    ensures BigEndian(FromBigEndian(s), |s|) == s
    decreases |s|
  {
    if s != [] {
      var high, low := s[..|s| - 1], s[|s| - 1] as int;
      FromBigEndianRoundTrip(high);
      var n := FromBigEndian(high) * 256 + low;
      assert n / 256 == FromBigEndian(high) && n % 256 == low;
      assert s == high + [s[|s| - 1]];
    }
  }
}
