/**
 * The digit codec of Sensor.cpp: one hexadecimal character to its value
 * (getIntFromChar), a hexadecimal string to an integer (getIntFromString) and
 * a BCD string to a fixed-point value with one implied decimal place
 * (getDoubleFromString). Every operation answers -1 on bad input, as the
 * source does; the fixed-point value is kept in integer tenths, so the
 * sentinel -1.0 is -10 tenths.
 */
module Codec {
  import opened Wrappers

  /** The lookup table the source searches, in index order. */
  const HexDecod: string := "0123456789ABCDEF"

  /** Value of one upper-case hexadecimal digit, -1 for every other character. */
  function DigitOf(c: char): (d: int)
    ensures -1 <= d < 16
    ensures d != -1 <==> ('0' <= c <= '9' || 'A' <= c <= 'F')
  {
    if '0' <= c <= '9' then c as int - '0' as int
    else if 'A' <= c <= 'F' then c as int - 'A' as int + 10
    else -1
  }

  /** DigitOf is the position of c in the table, and -1 exactly for the characters not in it. */
  lemma DigitOfIsTableIndex(c: char)
    ensures DigitOf(c) == -1 <==> c !in HexDecod
    ensures forall i :: 0 <= i < |HexDecod| ==> (HexDecod[i] == c <==> i == DigitOf(c))
  {
  }

  /** getIntFromChar: a linear search of the table. */
  method GetIntFromChar(c: char) returns (r: int)
    ensures r == DigitOf(c)
  {
    DigitOfIsTableIndex(c);
    for i := 0 to |HexDecod|
      invariant forall k :: 0 <= k < i ==> HexDecod[k] != c
    {
      if HexDecod[i] == c {
        return i;
      }
    }
    return -1;
  }

  /** The 32-bit two's complement image of a digit value; -1 has every bit set. */
  function DigitBits(d: int): bv32
    requires -1 <= d < 16
  {
    if d == -1 then 0xFFFF_FFFF else d as bv32
  }

  /** Sum of the digit values of s[lo..hi], bad characters counting -1 each. */
  function RangeSum(s: string, lo: nat, hi: nat): (r: int)
    requires lo <= hi <= |s|
    ensures -(hi - lo) <= r <= 15 * (hi - lo)
    decreases hi
  {
    if hi == lo then 0 else RangeSum(s, lo, hi - 1) + DigitOf(s[hi - 1])
  }

  function Pow(base: nat, n: nat): nat {
    if n == 0 then 1 else base * Pow(base, n - 1)
  }

  /** Every character of s is a digit below base. */
  predicate AllDigits(s: string, base: nat) {
    forall i :: 0 <= i < |s| ==> 0 <= DigitOf(s[i]) < base
  }

  /**
   * The left fold r := r * base + digit that getIntFromString (base 16) and
   * getDoubleFromString (base 10) run; None as soon as a character is not a
   * digit below base.
   */
  function Fold(s: string, base: nat): (r: Option<nat>)
    requires 2 <= base <= 16
    ensures r.Some? <==> AllDigits(s, base)
    ensures r.Some? ==> r.value < Pow(base, |s|)
    decreases |s|
  {
    if |s| == 0 then Some(0)
    else
      var p := s[..|s| - 1];
      assert forall i :: 0 <= i < |p| ==> p[i] == s[i];
      match Fold(p, base)
      case None => None
      case Some(v) =>
        var t := DigitOf(s[|s| - 1]);
        if 0 <= t < base then
          FoldStepBound(v, t, base, Pow(base, |p|));
          assert Pow(base, |s|) == base * Pow(base, |p|);
          Some(v * base + t)
        else None
  }

  lemma FoldStepBound(v: nat, t: nat, base: nat, p: nat)
    requires v < p && t < base
    ensures 0 <= v * base + t < base * p
  {
    assert v * base <= (p - 1) * base == p * base - base;
  }

  /** The n-digit big-endian rendering of v in base, with the table's characters. */
  function ToDigits(v: nat, n: nat, base: nat): (s: string)
    requires 2 <= base <= 16
    ensures |s| == n
  {
    if n == 0 then "" else ToDigits(v / base, n - 1, base) + [HexDecod[v % base]]
  }

  /** The table's k-th character has digit value k. */
  lemma TableDigit(k: nat)
    requires k < |HexDecod|
    ensures DigitOf(HexDecod[k]) == k
  {
  }

  lemma DivModStep(u: nat, t: nat, base: nat)
    requires t < base
    ensures (u * base + t) / base == u && (u * base + t) % base == t
  {
    var x := u * base + t;
    var q, r := x / base, x % base;
    assert q * base + r == x;
    if q > u {
      MulLe(u + 1, q, base);
    } else if q < u {
      MulLe(q + 1, u, base);
    }
  }

  lemma MulLe(a: nat, b: nat, c: nat)
    requires a <= b
    ensures a * c <= b * c
  {
  }

  lemma DivModSplit(v: nat, base: nat)
    requires base > 0
    ensures v == (v / base) * base + v % base
  {
  }

  /** Decoding a rendering gives the value back. */
  lemma {:induction false} FoldToDigits(v: nat, n: nat, base: nat)
    requires 2 <= base <= 16
    requires v < Pow(base, n)
    ensures Fold(ToDigits(v, n, base), base) == Some(v)
    decreases n
  {
    if n > 0 {
      var p, c := ToDigits(v / base, n - 1, base), HexDecod[v % base];
      ToDigitsLast(v, n, base);
      FoldToDigits(v / base, n - 1, base);
      FoldLastDigit(p, base, v);
      assert ToDigits(v, n, base) == p + [c];
    }
  }

  /** The last character of a rendering is the last digit; the rest renders the quotient. */
  lemma ToDigitsLast(v: nat, n: nat, base: nat)
    requires 2 <= base <= 16 && n > 0
    requires v < Pow(base, n)
    ensures ToDigits(v, n, base) == ToDigits(v / base, n - 1, base) + [HexDecod[v % base]]
    ensures v / base < Pow(base, n - 1)
  {
    assert Pow(base, n) == base * Pow(base, n - 1);
    DivBound(v, base, Pow(base, n - 1));
  }

  lemma FoldLastDigit(p: string, base: nat, v: nat)
    requires 2 <= base <= 16
    requires Fold(p, base) == Some(v / base)
    ensures Fold(p + [HexDecod[v % base]], base) == Some(v)
  {
    TableDigit(v % base);
    DivModSplit(v, base);
    FoldSnoc(p, HexDecod[v % base], base);
  }

  lemma DivBound(v: nat, base: nat, p: nat)
    requires base >= 1
    requires v < base * p
    ensures v / base < p
  {
  }

  /** A string that decodes is the rendering of its value: decoding is injective per length. */
  lemma {:induction false} ToDigitsFold(s: string, base: nat)
    requires 2 <= base <= 16
    requires Fold(s, base).Some?
    ensures ToDigits(Fold(s, base).value, |s|, base) == s
  {
    if |s| > 0 {
      var p := s[..|s| - 1];
      var u := Fold(p, base).value;
      var t := DigitOf(s[|s| - 1]);
      var v := u * base + t;
      assert Fold(s, base).value == v;
      DivModStep(u, t, base);
      ToDigitsLast(v, |s|, base);
      ToDigitsFold(p, base);
      DigitOfIsTableIndex(s[|s| - 1]);
      assert HexDecod[t] == s[|s| - 1];
      assert ToDigits(v, |s|, base) == ToDigits(u, |s| - 1, base) + [HexDecod[t]];
      assert s == p + [s[|s| - 1]];
    }
  }

  /** getIntFromString's result: the base-16 value, or -1 when some character is not a hex digit. */
  function IntFromString(s: string): (r: int)
    ensures r == -1 <==> !AllDigits(s, 16)
    ensures r != -1 ==> 0 <= r < Pow(16, |s|) && ToDigits(r, |s|, 16) == s
  {
    match Fold(s, 16)
    case None => -1
    case Some(v) => ToDigitsFold(s, 16); v
  }

  /**
   * getDoubleFromString's result in tenths: the base-10 value of the digits,
   * whose last digit is the fractional one, or -10 (the sentinel -1.0) when
   * some character is not a decimal digit.
   */
  function BcdTenths(s: string): (r: int)
    ensures r == -10 <==> !AllDigits(s, 10)
    ensures r != -10 ==> 0 <= r < Pow(10, |s|) && ToDigits(r, |s|, 10) == s
  {
    match Fold(s, 10)
    case None => -10
    case Some(v) => ToDigitsFold(s, 10); v
  }

  /** Appending one character extends the fold by one step. */
  lemma FoldSnoc(p: string, c: char, base: nat)
    requires 2 <= base <= 16
    ensures Fold(p + [c], base) ==
      if Fold(p, base).Some? && 0 <= DigitOf(c) < base then Some(Fold(p, base).value * base + DigitOf(c)) else None
  {
    assert (p + [c])[..|p|] == p;
  }

  /** A two-character hex string is the byte 16 * high + low. */
  lemma HexPair(a: char, b: char)
    ensures IntFromString([a, b]) ==
      if DigitOf(a) != -1 && DigitOf(b) != -1 then 16 * DigitOf(a) + DigitOf(b) else -1
  {
    FoldSnoc([], a, 16);
    assert [a] + [b] == [a, b];
    FoldSnoc([a], b, 16);
  }

  /** A four-character hex string in positional notation. */
  lemma HexQuad(a: char, b: char, c: char, d: char)
    requires DigitOf(a) != -1 && DigitOf(b) != -1 && DigitOf(c) != -1 && DigitOf(d) != -1
    ensures IntFromString([a, b, c, d]) == 4096 * DigitOf(a) + 256 * DigitOf(b) + 16 * DigitOf(c) + DigitOf(d)
  {
    FoldSnoc([], a, 16);
    assert [a] + [b] == [a, b] && [a, b] + [c] == [a, b, c] && [a, b, c] + [d] == [a, b, c, d];
    FoldSnoc([a], b, 16);
    FoldSnoc([a, b], c, 16);
    FoldSnoc([a, b, c], d, 16);
  }

  /** A three-digit BCD string in tenths: "502" is 50.2. */
  lemma BcdTriple(a: char, b: char, c: char)
    ensures BcdTenths([a, b, c]) ==
      if 0 <= DigitOf(a) < 10 && 0 <= DigitOf(b) < 10 && 0 <= DigitOf(c) < 10
      then 100 * DigitOf(a) + 10 * DigitOf(b) + DigitOf(c) else -10
  {
    FoldSnoc([], a, 10);
    assert [a] + [b] == [a, b] && [a, b] + [c] == [a, b, c];
    FoldSnoc([a], b, 10);
    FoldSnoc([a, b], c, 10);
  }

  /** A BCD string ending in '0' is a whole number of units (or the sentinel -1.0). */
  lemma BcdTrailingZero(p: string)
    ensures BcdTenths(p + ['0']) % 10 == 0
  {
    var s := p + ['0'];
    assert s[..|s| - 1] == p;
    match Fold(p, 10)
    case None =>
    case Some(v) => assert Fold(s, 10) == Some(v * 10);
  }

  /** getIntFromString: the loop with an early return on the first bad character. */
  method GetIntFromString(s: string) returns (r: int)
    ensures r == IntFromString(s)
  {
    r := 0;
    var i := 0;
    while i < |s|
      invariant 0 <= i <= |s|
      invariant Fold(s[..i], 16) == Some(r)
    {
      r := r * 16;
      var t := GetIntFromChar(s[i]);
      if t == -1 {
        return -1;
      }
      r := r + t;
      assert s[..i + 1][..i] == s[..i];
      i := i + 1;
    }
    assert s[..i] == s;
  }

  /** getDoubleFromString, in tenths. */
  method GetDoubleFromString(s: string) returns (tenths: int)
    ensures tenths == BcdTenths(s)
  {
    var r := 0;
    var i := 0;
    while i < |s|
      invariant 0 <= i <= |s|
      invariant Fold(s[..i], 10) == Some(r)
    {
      r := r * 10;
      var t := GetIntFromChar(s[i]);
      if t == -1 || t >= 10 {
        return -10;
      }
      r := r + t;
      assert s[..i + 1][..i] == s[..i];
      i := i + 1;
    }
    assert s[..i] == s;
    return r;
  }
}
