/**
 * OregonSensorV2::validate (Sensor.cpp:417-470): the checksum and the CRC-8
 * over a nibble-pair-swapped working copy of the first len characters of a
 * message body. The CRC variable of the source is a 32-bit int; it is a bv32
 * here, so that XOR-ing in the -1 of a bad digit is two's complement.
 */
module Validator {
  import opened Codec

  /** The character at index i, where index |s| is the C string's terminator. */
  function CharAt(s: string, i: nat): (c: char)
    requires i <= |s|
    ensures i < |s| ==> c == s[i]
    ensures i == |s| ==> c == '\0'
  {
    if i < |s| then s[i] else '\0'
  }

  /**
   * The working copy the swap loop leaves in the buffer: each pair (j, j+1),
   * j even, exchanged.
   */
  function Working(s: string, len: nat): (w: string)
    requires len <= |s|
    ensures |w| == len
  {
    seq(len, j requires 0 <= j < len => if j % 2 == 0 then CharAt(s, j + 1) else s[j - 1])
  }

  /** Swapping twice gives the original span back when len is even. */
  lemma WorkingInvolution(s: string, len: nat)
    requires len <= |s| && len % 2 == 0
    ensures Working(Working(s, len), len) == s[..len]
  {
    var w := Working(s, len);
    var ww := Working(w, len);
    forall j | 0 <= j < len
      ensures ww[j] == s[j]
    {
      if j % 2 == 0 {
        assert ww[j] == w[j + 1] == s[j];
      } else {
        assert ww[j] == w[j - 1] == s[j];
      }
    }
  }

  const CrcInit: bv32 := 0x43
  const CrcPoly: bv32 := 0x07

  /** One shift round of the CRC, masked to a byte. */
  function Round(crc: bv32): (r: bv32)
    ensures r <= 0xFF
  {
    if crc & 0x80 != 0 then ((crc << 1) ^ CrcPoly) & 0xFF else (crc << 1) & 0xFF
  }

  /** n successive rounds. */
  function Rounds(crc: bv32, n: nat): (r: bv32)
    ensures n > 0 ==> r <= 0xFF
  {
    if n == 0 then crc else Round(Rounds(crc, n - 1))
  }

  /**
   * One iteration of the main loop at working index j for digit value d:
   * XOR the digit in, then four rounds unless j is a rolling-code index.
   */
  function Step(crc: bv32, j: nat, d: int): (r: bv32)
    requires -1 <= d < 16
    ensures j != 6 && j != 7 ==> r <= 0xFF
  {
    var c := crc ^ DigitBits(d);
    if j != 6 && j != 7 then Rounds(c, 4) else c
  }

  /** The CRC after the main loop has handled working indices 1 .. j-1. */
  function CrcUpTo(w: string, j: nat): (r: bv32)
    requires j <= |w|
    ensures j >= 2 && j != 7 && j != 8 ==> r <= 0xFF
  {
    if j <= 1 then CrcInit else Step(CrcUpTo(w, j - 1), j - 1, DigitOf(w[j - 1]))
  }

  /** The CRC validate computes over a working copy: the main loop, then four rounds when the length is even. */
  function Crc(w: string): (r: bv32)
    ensures |w| % 2 == 0 || (|w| >= 2 && |w| != 7 && |w| != 8) ==> r <= 0xFF
  {
    var c := CrcUpTo(w, |w|);
    if |w| % 2 == 0 then Rounds(c, 4) else c
  }

  /** The checksum validate computes over a working copy: the digits at indices 1 .. |w|-1. */
  function Sum(w: string): (r: int)
    ensures |w| > 0 ==> -(|w| - 1) <= r <= 15 * (|w| - 1)
    ensures |w| <= 1 ==> r == 0
  {
    if |w| == 0 then 0 else RangeSum(w, 1, |w|)
  }

  /**
   * validate: true exactly when the computed checksum equals sum; the
   * transmitted CRC is taken and not compared. The computed checksum and CRC
   * are returned too (the source prints them in its debug trace).
   */
  method Validate(str: string, len: nat, crcIn: int, sumIn: int) returns (ok: bool, sum: int, crc: bv32)
    requires len < 100 && len <= |str|
    ensures sum == Sum(Working(str, len))
    ensures crc == Crc(Working(str, len))
    ensures ok <==> sum == sumIn
  {
    ghost var w := Working(str, len);
    var buf := new char[100];
    var j := 0;
    while j < len
      invariant 0 <= j <= len + 1 && j % 2 == 0
      invariant forall k :: 0 <= k < j && k < len ==> buf[k] == w[k]
    {
      buf[j] := CharAt(str, j + 1);
      buf[j + 1] := str[j];
      j := j + 2;
    }
    buf[len] := '\0';

    crc := CrcInit;
    sum := 0;
    j := 1;
    while j < len
      invariant 1 <= j <= if len == 0 then 1 else len
      invariant forall k :: 0 <= k < len ==> buf[k] == w[k]
      invariant sum == if len == 0 then 0 else RangeSum(w, 1, j)
      invariant crc == CrcUpTo(w, if len == 0 then 0 else j)
    {
      var c := GetIntFromChar(buf[j]);
      sum := sum + c;
      crc := StepDigit(crc, j, c);
      j := j + 1;
    }

    if len % 2 == 0 {
      for i := 0 to 4
        invariant crc == Rounds(CrcUpTo(w, if len == 0 then 0 else len), i)
      {
        crc := Round(crc);
      }
    }
    ok := sum == sumIn;
  }

  /**
   * The body of the main loop after the sum: XOR the digit in, then four
   * shift rounds unless j is one of the rolling-code indices 6 and 7.
   */
  method StepDigit(before: bv32, j: nat, c: int) returns (crc: bv32)
    requires -1 <= c < 16
    ensures crc == Step(before, j, c)
  {
    crc := before ^ DigitBits(c);
    if j != 6 && j != 7 {
      for i := 0 to 4
        invariant crc == Rounds(before ^ DigitBits(c), i)
      {
        crc := Round(crc);
      }
    }
  }

  /**
   * The checksum over the working copy is the digit sum of the original span
   * without its index 1 (the sync nibble): the swap reorders, it does not
   * change what is summed.
   */
  lemma {:induction false} SumOfWorking(s: string, len: nat)
    requires 2 <= len <= |s| && len % 2 == 0
    ensures Sum(Working(s, len)) == RangeSum(s, 0, len) - DigitOf(s[1])
  {
    var w := Working(s, len);
    SumPairs(s, w, len, len);
  }

  lemma {:induction false} SumPairs(s: string, w: string, len: nat, k: nat)
    requires len <= |s| && w == Working(s, len)
    requires 2 <= k <= len && k % 2 == 0
    ensures RangeSum(w, 1, k) == RangeSum(s, 0, k) - DigitOf(s[1])
    decreases k
  {
    if k == 2 {
      assert w[1] == s[0];
    } else {
      SumPairs(s, w, len, k - 2);
      assert w[k - 2] == s[k - 1] && w[k - 1] == s[k - 2];
    }
  }

  /** When every working digit is a hex digit, the CRC stays in one byte after every index. */
  lemma {:induction false} CrcUpToIsByte(w: string, j: nat)
    requires j <= |w| && AllDigits(w, 16)
    ensures CrcUpTo(w, j) <= 0xFF
  {
    if j > 1 {
      CrcUpToIsByte(w, j - 1);
      StepIsByte(CrcUpTo(w, j - 1), j - 1, DigitOf(w[j - 1]));
    }
  }

  /**
   * The hex-digit requirement above is needed: a bad digit at working index 6
   * is XOR-ed in as -1 and no rounds follow it, so the running CRC leaves the
   * byte until the rounds after index 8 mask it again.
   */
  lemma BadRollingDigitLeavesByte(w: string)
    requires |w| >= 7 && DigitOf(w[6]) == -1
    ensures CrcUpTo(w, 7) > 0xFF
  {
    var c := CrcUpTo(w, 6);
    assert c <= 0xFF;
    assert CrcUpTo(w, 7) == c ^ 0xFFFF_FFFF;
  }

  lemma StepIsByte(crc: bv32, j: nat, d: int)
    requires crc <= 0xFF && 0 <= d < 16
    ensures Step(crc, j, d) <= 0xFF
  {
    var b := DigitBits(d);
    assert b <= 0x0F;
    XorByte(crc, b);
  }

  lemma XorAssoc(a: bv32, b: bv32, c: bv32)
    ensures (a ^ b) ^ c == a ^ (b ^ c)
  {
  }

  lemma XorByte(a: bv32, b: bv32)
    requires a <= 0xFF && b <= 0xFF
    ensures a ^ b <= 0xFF
  {
  }

  /**
   * The rolling-code indices 6 and 7 are XOR-ed into the CRC without rounds
   * between them, so the CRC depends on them only through their XOR.
   */
  lemma {:induction false} CrcSeesRollingOnlyByXor(w: string, v: string)
    requires |w| == |v| >= 8
    requires forall k :: 0 <= k < |w| && k != 6 && k != 7 ==> w[k] == v[k]
    requires DigitBits(DigitOf(w[6])) ^ DigitBits(DigitOf(w[7])) == DigitBits(DigitOf(v[6])) ^ DigitBits(DigitOf(v[7]))
    ensures Crc(w) == Crc(v)
  {
    CrcAgreesAtEight(w, v);
    CrcAgreesAbove(w, v, |w|);
    CrcOfLoop(w, v);
  }

  lemma CrcAgreesAtEight(w: string, v: string)
    requires |w| == |v| >= 8
    requires forall k :: 0 <= k < 6 ==> w[k] == v[k]
    requires DigitBits(DigitOf(w[6])) ^ DigitBits(DigitOf(w[7])) == DigitBits(DigitOf(v[6])) ^ DigitBits(DigitOf(v[7]))
    ensures CrcUpTo(w, 8) == CrcUpTo(v, 8)
  {
    CrcAgreesBelow(w, v, 6);
    RollingPair(w);
    RollingPair(v);
  }

  lemma CrcOfLoop(w: string, v: string)
    requires |w| == |v| && CrcUpTo(w, |w|) == CrcUpTo(v, |v|)
    ensures Crc(w) == Crc(v)
  {
  }

  lemma RollingPair(w: string)
    requires |w| >= 8
    ensures CrcUpTo(w, 8) == CrcUpTo(w, 6) ^ (DigitBits(DigitOf(w[6])) ^ DigitBits(DigitOf(w[7])))
  {
    var a, b6, b7 := CrcUpTo(w, 6), DigitBits(DigitOf(w[6])), DigitBits(DigitOf(w[7]));
    assert CrcUpTo(w, 7) == a ^ b6 by {
      assert CrcUpTo(w, 7) == Step(a, 6, DigitOf(w[6]));
    }
    assert CrcUpTo(w, 8) == (a ^ b6) ^ b7 by {
      assert CrcUpTo(w, 8) == Step(CrcUpTo(w, 7), 7, DigitOf(w[7]));
    }
    XorAssoc(a, b6, b7);
  }

  lemma {:induction false} CrcAgreesBelow(w: string, v: string, j: nat)
    requires j <= |w| && j <= |v|
    requires forall k :: 0 <= k < j ==> w[k] == v[k]
    ensures CrcUpTo(w, j) == CrcUpTo(v, j)
  {
    if j > 1 {
      CrcAgreesBelow(w, v, j - 1);
    }
  }

  lemma {:induction false} CrcAgreesAbove(w: string, v: string, j: nat)
    requires 8 <= j <= |w| == |v|
    requires forall k :: 8 <= k < j ==> w[k] == v[k]
    requires CrcUpTo(w, 8) == CrcUpTo(v, 8)
    ensures CrcUpTo(w, j) == CrcUpTo(v, j)
  {
    if j > 8 {
      CrcAgreesAbove(w, v, j - 1);
    }
  }
}
