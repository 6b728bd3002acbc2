/** What decoding a message promises, stated over the values of module OregonDecoding. */
module DecodingProperties {
  import opened Wrappers
  import opened Codec
  import opened Validator
  import opened OregonDecoding

  /** The THN132N layout: a 21-character message whose id is EC40 and whose checksum matches. */
  predicate AcceptedAsTHN132N(s: string) {
    |s| == 21 && SensorId(s) == THN132NId && THN132NSum(s[5..]) == IntFromString([s[20], s[17]])
  }

  /** The THGR122NX layout: a 25-character message whose id is 1D20 and whose validate sum matches. */
  predicate AcceptedAsTHGR122NX(s: string) {
    |s| == 25 && SensorId(s) == THGR122NXId && THGR122NXSum(s[5..]) == IntFromString([s[21], s[22]])
  }

  /** A decoded message is valid exactly when one of the two layouts accepts it. */
  lemma ValidIff(s: string)
    ensures OregonV2Reading(s).isValid <==> AcceptedAsTHN132N(s) || AcceptedAsTHGR122NX(s)
  {
  }

  /**
   * The THGR122NX checksum is the digit sum of pt[0..15] without the sync
   * nibble pt[1]: the pair swap of validate does not change what is summed.
   */
  lemma THGR122NXSumIsSpanSum(pt: string)
    requires |pt| >= 16
    ensures THGR122NXSum(pt) == RangeSum(pt, 0, 16) - DigitOf(pt[1])
  {
    SumOfWorking(pt, 16);
  }

  /**
   * A message that does not decode leaves every field at its constructor
   * value, except the class and a recognised sensorType.
   */
  lemma FailureKeepsDefaults(s: string)
    requires !OregonV2Reading(s).isValid
    ensures var r := OregonV2Reading(s);
      !r.haveTemperature && !r.haveHumidity && !r.haveBattery && !r.haveChannel &&
      r.temperature == 0 && r.humidity == 0 && r.channel == -1 && !r.battery &&
      r.sensorClass == ClassOregonScientific &&
      r.sensorType == (if |s| > 11 && SensorId(s) in {THGR122NXId, THN132NId} then SensorId(s) else -1)
  {
  }

  /** The fields of a valid reading, read at their layout offsets (pt[i] is s[i + 5]). */
  lemma SuccessFields(s: string)
    requires OregonV2Reading(s).isValid
    ensures |s| == 21 || |s| == 25
    ensures var r := OregonV2Reading(s);
      r.haveChannel && r.haveBattery && r.haveTemperature &&
      r.channel == NormalChannel(DigitOf(s[9])) &&
      r.battery == FlagSet(DigitOf(s[14]), 0x04) &&
      r.temperature == Signed(BcdTenths([s[15], s[16], s[13]]), DigitOf(s[18])) &&
      r.sensorType == SensorId(s) &&
      (r.haveHumidity <==> r.sensorType == THGR122NXId) &&
      (r.haveHumidity ==> r.humidity == BcdTenths([s[20], s[17], '0'])) &&
      (!r.haveHumidity ==> r.humidity == 0)
  {
  }

  /** The stored channel is never the raw code 4 and lies in -1 .. 15. */
  lemma ChannelRange(s: string)
    ensures var c := OregonV2Reading(s).channel; c != 4 && -1 <= c <= 15
  {
  }

  /** The humidity's last digit is the fixed '0': humidity is a whole number of percent. */
  lemma HumidityWholePercent(s: string)
    ensures OregonV2Reading(s).humidity % 10 == 0
  {
    if OregonV2Reading(s).isValid {
      SuccessFields(s);
      if |s| == 25 {
        assert [s[20], s[17], '0'] == [s[20], s[17]] + ['0'];
        BcdTrailingZero([s[20], s[17]]);
      }
    } else {
      FailureKeepsDefaults(s);
    }
  }

  /** A bad battery digit reads as "battery low" and a bad sign digit as "negative": -1 has every bit set. */
  lemma BadDigitFlags()
    ensures FlagSet(-1, 0x04) && FlagSet(-1, 0x08)
    ensures forall t :: Signed(t, -1) == -t
  {
  }

  /**
   * On a valid digit the two flags are plain bits: battery low is bit 2
   * (digit mod 8 at least 4), negative is bit 3 (digit at least 8).
   */
  lemma ValidDigitFlags(d: int)
    requires 0 <= d < 16
    ensures FlagSet(d, 0x04) <==> d % 8 >= 4
    ensures FlagSet(d, 0x08) <==> d >= 8
  {
    if d < 4 {
      assert d == 0 || d == 1 || d == 2 || d == 3;
    } else if d < 8 {
      assert d == 4 || d == 5 || d == 6 || d == 7;
    } else if d < 12 {
      assert d == 8 || d == 9 || d == 10 || d == 11;
    } else {
      assert d == 12 || d == 13 || d == 14 || d == 15;
    }
  }

  /**
   * The decoder reads neither the header nor the sync character: the result
   * depends on the length and on the body s[5..] only.
   */
  lemma DependsOnBodyOnly(s: string, t: string)
    requires |s| == |t| && |s| >= 5 && s[5..] == t[5..]
    ensures OregonV2Reading(s) == OregonV2Reading(t)
  {
    if |s| > 11 {
      forall k | 5 <= k < |s|
        ensures s[k] == t[k]
      {
        assert s[k] == s[5..][k - 5];
      }
      assert SensorId(s) == SensorId(t);
    }
  }

  /** An id other than 1D20 and EC40, or a message of 11 characters or fewer, gives the bare OS reading. */
  lemma UnknownSubProtocol(s: string)
    requires |s| <= 11 || SensorId(s) !in {THGR122NXId, THN132NId}
    ensures OregonV2Reading(s) == Initial.(sensorClass := ClassOregonScientific)
  {
  }

  /** getRightSensor gives null exactly for a short message or a header other than "OSV2". */
  lemma RightSensorNullIff(s: string)
    ensures RightSensor(s).None? <==> !(|s| > 4 && s[..4] == "OSV2")
    ensures RightSensor(s).Some? ==>
      RightSensor(s).value == OregonV2Reading(s) && RightSensor(s).value.sensorClass == ClassOregonScientific
  {
    if |s| > 4 {
      assert s[..4] == "OSV2" <==> s[0] == 'O' && s[1] == 'S' && s[2] == 'V' && s[3] == '2' by {
        if s[0] == 'O' && s[1] == 'S' && s[2] == 'V' && s[3] == '2' {
          assert s[..4] == [s[0], s[1], s[2], s[3]];
        }
      }
    }
  }

  /** The accessors of a decoded message in terms of its validity. */
  lemma AccessorsOfDecoded(s: string)
    ensures var r := OregonV2Reading(s);
      r.IsDecoded() == r.isValid &&
      (r.AvailableTemp() <==> r.isValid) &&
      (r.HasChannel() <==> r.isValid) &&
      (r.AvailableHumidity() <==> r.isValid && r.sensorType == THGR122NXId) &&
      (r.IsBatteryLow() <==> r.isValid && FlagSet(DigitOf(s[14]), 0x04)) &&
      (!r.isValid ==> r.temperature == 0 && r.humidity == 0 && r.channel == -1)
  {
    if OregonV2Reading(s).isValid {
      SuccessFields(s);
    } else {
      FailureKeepsDefaults(s);
    }
  }

  /** The transmitted checksum, as the decoder assembles it, and where its characters sit. */
  function ChecksumChars(s: string): string {
    if |s| == 21 then [s[20], s[17]] else if |s| == 25 then [s[21], s[22]] else []
  }

  function ChecksumIndices(s: string): set<nat> {
    if |s| == 21 then {20, 17} else if |s| == 25 then {21, 22} else {}
  }

  /**
   * Corrupting one character of a well-formed transmitted checksum of a valid
   * message makes the message invalid, whatever the replacement character.
   */
  lemma CorruptChecksumRejected(s: string, i: nat, c: char)
    requires OregonV2Reading(s).isValid
    requires i in ChecksumIndices(s) && c != s[i]
    requires AllDigits(ChecksumChars(s), 16)
    ensures !OregonV2Reading(s[i := c]).isValid
  {
    ValidIff(s);
    if |s| == 21 {
      CorruptTHN132NChecksum(s, i, c);
    } else {
      CorruptTHGR122NXChecksum(s, i, c);
    }
  }

  lemma CorruptTHN132NChecksum(s: string, i: nat, c: char)
    requires AcceptedAsTHN132N(s)
    requires i in {20, 17} && c != s[i]
    requires AllDigits([s[20], s[17]], 16)
    ensures !OregonV2Reading(s[i := c]).isValid
  {
    var t := s[i := c];
    ValidIff(t);
    assert SensorId(t) == SensorId(s);
    ChangedTHN132NChecksum(s[5..], t[5..]);
  }

  /** A THN132N body whose checksum characters alone changed is rejected. */
  lemma ChangedTHN132NChecksum(pt: string, qt: string)
    requires |pt| == |qt| == 16 && THN132N(pt).Some?
    requires forall k :: 0 <= k < 16 && k != 12 && k != 15 ==> pt[k] == qt[k]
    requires [pt[15], pt[12]] != [qt[15], qt[12]] && AllDigits([pt[15], pt[12]], 16)
    ensures THN132N(qt).None?
  {
    assert THN132NSum(qt) == THN132NSum(pt) by {
      SumAgrees(qt, pt, 2, 12);
    }
    ChecksumPairChanged([pt[15], pt[12]], [qt[15], qt[12]]);
  }

  lemma CorruptTHGR122NXChecksum(s: string, i: nat, c: char)
    requires AcceptedAsTHGR122NX(s)
    requires i in {21, 22} && c != s[i]
    requires AllDigits([s[21], s[22]], 16)
    ensures !OregonV2Reading(s[i := c]).isValid
  {
    var t := s[i := c];
    ValidIff(t);
    assert SensorId(t) == SensorId(s);
    WorkingAgrees(t[5..], s[5..], 16);
    ChecksumPairChanged([s[21], s[22]], [t[21], t[22]]);
  }

  lemma WorkingAgrees(p: string, q: string, len: nat)
    requires len % 2 == 0 && len <= |p| && len <= |q|
    requires forall k :: 0 <= k < len ==> p[k] == q[k]
    ensures Working(p, len) == Working(q, len)
  {
  }

  /** Two different two-character strings of which the first is hex never decode to the same value. */
  lemma ChecksumPairChanged(a: string, b: string)
    requires |a| == |b| == 2 && a != b && AllDigits(a, 16)
    ensures IntFromString(a) != IntFromString(b)
  {
  }

  lemma {:induction false} SumAgrees(s: string, t: string, lo: nat, hi: nat)
    requires lo <= hi <= |s| && hi <= |t|
    requires forall k :: lo <= k < hi ==> s[k] == t[k]
    ensures RangeSum(s, lo, hi) == RangeSum(t, lo, hi)
    decreases hi
  {
    if hi > lo {
      SumAgrees(s, t, lo, hi - 1);
    }
  }

  /**
   * In the body, validate's working indices 6 and 7 hold the rolling code
   * pt[7] and pt[6]: the computed CRC depends on it only through the XOR of
   * its two nibbles.
   */
  lemma CrcSeesRollingCodeByXor(pt: string, qt: string)
    requires |pt| == |qt| >= 16
    requires forall k :: 0 <= k < 16 && k != 6 && k != 7 ==> pt[k] == qt[k]
    requires DigitBits(DigitOf(pt[6])) ^ DigitBits(DigitOf(pt[7])) == DigitBits(DigitOf(qt[6])) ^ DigitBits(DigitOf(qt[7]))
    ensures Crc(Working(pt, 16)) == Crc(Working(qt, 16))
  {
    var w, v := Working(pt, 16), Working(qt, 16);
    SwapKeepsRollingPair(pt, qt);
    XorCommutes(DigitBits(DigitOf(pt[6])), DigitBits(DigitOf(pt[7])));
    XorCommutes(DigitBits(DigitOf(qt[6])), DigitBits(DigitOf(qt[7])));
    CrcSeesRollingOnlyByXor(w, v);
  }

  /** The swap moves the rolling pair pt[6], pt[7] to working indices 7, 6 and keeps the other indices paired. */
  lemma SwapKeepsRollingPair(pt: string, qt: string)
    requires |pt| == |qt| >= 16
    requires forall k :: 0 <= k < 16 && k != 6 && k != 7 ==> pt[k] == qt[k]
    ensures var w, v := Working(pt, 16), Working(qt, 16);
      w[6] == pt[7] && w[7] == pt[6] && v[6] == qt[7] && v[7] == qt[6] &&
      forall k :: 0 <= k < 16 && k != 6 && k != 7 ==> w[k] == v[k]
  {
    var w, v := Working(pt, 16), Working(qt, 16);
    forall k | 0 <= k < 16 && k != 6 && k != 7
      ensures w[k] == v[k]
    {
      if k % 2 == 0 {
        assert w[k] == pt[k + 1];
      }
    }
  }

  lemma XorCommutes(a: bv32, b: bv32)
    ensures a ^ b == b ^ a
  {
  }

  /**
   * The transmitted CRC of a THGR122NX message (pt[18] pt[19]) is never
   * compared: changing either character to another character changes
   * nothing in the reading. The new character is not the terminator, which
   * would shorten the C string.
   */
  lemma TransmittedCrcIgnored(s: string, i: nat, c: char)
    requires |s| == 25 && i in {23, 24} && c != '\0'
    ensures OregonV2Reading(s[i := c]) == OregonV2Reading(s)
  {
    var t := s[i := c];
    assert SensorId(t) == SensorId(s);
    WorkingAgrees(t[5..], s[5..], 16);
    assert THGR122NX(t[5..]) == THGR122NX(s[5..]);
  }
}
