/**
 * The captures documented beside the decoders in Sensor.cpp, decoded. The
 * comments show the body pt only; a message is "OSV2", one sync character
 * (any character: it is not read) and the body.
 */
module Captures {
  import opened Wrappers
  import opened Codec
  import opened Validator
  import opened OregonDecoding
  import DecodingProperties

  function Message(sync: char, pt: string): string {
    "OSV2" + [sync] + pt
  }

  lemma MessageParts(sync: char, pt: string)
    ensures |Message(sync, pt)| == |pt| + 5 && Message(sync, pt)[5..] == pt
    ensures forall k :: 0 <= k < |pt| ==> Message(sync, pt)[k + 5] == pt[k]
  {
  }

  /** The acceptance test of decode_THN132N, met: the layout reads the shared fields. */
  lemma THN132NAccepts(pt: string, sum: int)
    requires |pt| == 16 && THN132NSum(pt) == sum && IntFromString([pt[15], pt[12]]) == sum
    ensures THN132N(pt) == Some(Fields(pt, None))
  {
  }

  /** The acceptance test of decode_THGR122NX, met: the layout reads the shared fields and the humidity. */
  lemma THGR122NXAccepts(pt: string, sum: int, humidity: int)
    requires |pt| == 20 && THGR122NXSum(pt) == sum && IntFromString([pt[16], pt[17]]) == sum
    requires BcdTenths([pt[15], pt[12], '0']) == humidity
    ensures THGR122NX(pt) == Some(Fields(pt, Some(humidity)))
  {
  }

  /**
   * A THN132N body that the layout accepts, sent as a message: the reading
   * is the measure written over the OregonSensorV2 defaults, with sensorType
   * EC40 and isValid set.
   */
  lemma THN132NMessage(sync: char, pt: string)
    requires |pt| == 16 && [pt[0], pt[3], pt[2], pt[5]] == "EC40"
    requires THN132N(pt).Some?
    ensures OregonV2Reading(Message(sync, pt)) ==
      Apply(Initial.(sensorClass := ClassOregonScientific, sensorType := THN132NId), THN132N(pt).value).(isValid := true)
  {
    var s := Message(sync, pt);
    MessageParts(sync, pt);
    HexQuad('E', 'C', '4', '0');
    assert [s[5], s[8], s[7], s[10]] == "EC40";
    assert SensorId(s) == THN132NId;
  }

  /**
   * THN132N "EA4C20809822D013": id EC40, checksum 0x3D, channel 2, battery
   * fine, 22.9 degrees (pt[10] pt[11] pt[8] = "229"), no humidity.
   */
  lemma THN132NCapture(sync: char)
    ensures var r := OregonV2Reading(Message(sync, "EA4C20809822D013"));
      r.isValid && r.sensorType == THN132NId && r.temperature == 229 && r.channel == 2 &&
      !r.battery && !r.haveHumidity && r.AvailableTemp() && !r.AvailableHumidity()
  {
    var pt := "EA4C20809822D013";
    var s := Message(sync, pt);
    MessageParts(sync, pt);
    HexQuad('E', 'C', '4', '0');
    assert [s[5], s[8], s[7], s[10]] == "EC40";
    assert SensorId(s) == THN132NId;
    THN132NCaptureBody(pt);
    assert THN132N(s[5..]).Some?;
  }

  lemma THN132NCaptureSum(pt: string)
    requires pt == "EA4C20809822D013"
    ensures THN132NSum(pt) == 0x3D
  {
    assert RangeSum(pt, 2, 5) == 18;
    assert RangeSum(pt, 2, 8) == 26;
    assert RangeSum(pt, 2, 11) == 45;
  }

  lemma THN132NCaptureFields(pt: string)
    requires pt == "EA4C20809822D013"
    ensures Fields(pt, None) == Measure(2, false, 229, None)
  {
    BcdTriple('2', '2', '9');
    assert [pt[10], pt[11], pt[8]] == "229";
    assert DigitOf(pt[4]) == 2 && DigitOf(pt[9]) == 8 && DigitOf(pt[13]) == 0;
    DecodingProperties.ValidDigitFlags(0);
    DecodingProperties.ValidDigitFlags(8);
  }

  lemma THN132NCaptureBody(pt: string)
    requires pt == "EA4C20809822D013"
    ensures THN132N(pt) == Some(Measure(2, false, 229, None))
  {
    THN132NCaptureSum(pt);
    THN132NCaptureFields(pt);
    HexPair('3', 'D');
    assert [pt[15], pt[12]] == "3D";
  }

  /** THN132N "EA4C2080021368A3", documented as negative 13: sign digit pt[13] = '8' gives -13.0 degrees. */
  lemma THN132NNegativeCapture(sync: char)
    ensures var r := OregonV2Reading(Message(sync, "EA4C2080021368A3"));
      r.isValid && r.temperature == -130 && r.channel == 2 && !r.battery
  {
    var pt := "EA4C2080021368A3";
    var s := Message(sync, pt);
    MessageParts(sync, pt);
    HexQuad('E', 'C', '4', '0');
    assert [s[5], s[8], s[7], s[10]] == "EC40";
    assert SensorId(s) == THN132NId;
    THN132NNegativeCaptureBody(pt);
    assert THN132N(s[5..]).Some?;
  }

  lemma THN132NNegativeCaptureSum(pt: string)
    requires pt == "EA4C2080021368A3"
    ensures THN132NSum(pt) == 0x36
  {
    assert RangeSum(pt, 2, 5) == 18;
    assert RangeSum(pt, 2, 8) == 26;
    assert RangeSum(pt, 2, 11) == 29;
  }

  lemma THN132NNegativeCaptureFields(pt: string)
    requires pt == "EA4C2080021368A3"
    ensures Fields(pt, None) == Measure(2, false, -130, None)
  {
    BcdTriple('1', '3', '0');
    assert [pt[10], pt[11], pt[8]] == "130";
    assert DigitOf(pt[4]) == 2 && DigitOf(pt[9]) == 2 && DigitOf(pt[13]) == 8;
    DecodingProperties.ValidDigitFlags(2);
    DecodingProperties.ValidDigitFlags(8);
  }

  lemma THN132NNegativeCaptureBody(pt: string)
    requires pt == "EA4C2080021368A3"
    ensures THN132N(pt) == Some(Measure(2, false, -130, None))
  {
    THN132NNegativeCaptureSum(pt);
    THN132NNegativeCaptureFields(pt);
    HexPair('3', '6');
    assert [pt[15], pt[12]] == "36";
  }

  /**
   * Bad characters are summed as -1 and still decode when the checksum
   * agrees: 'Z' at pt[4] and pt[9] gives channel -1 and "battery low".
   */
  lemma THN132NBadDigitsAccepted(sync: char)
    ensures var r := OregonV2Reading(Message(sync, "EA4CZ0809Z221013"));
      r.isValid && r.channel == -1 && r.battery && r.IsBatteryLow() && r.temperature == 229
  {
    var pt := "EA4CZ0809Z221013";
    var s := Message(sync, pt);
    MessageParts(sync, pt);
    HexQuad('E', 'C', '4', '0');
    assert [s[5], s[8], s[7], s[10]] == "EC40";
    assert SensorId(s) == THN132NId;
    THN132NBadDigitsAcceptedBody(pt);
    assert THN132N(s[5..]).Some?;
  }

  lemma THN132NBadDigitsAcceptedSum(pt: string)
    requires pt == "EA4CZ0809Z221013"
    ensures THN132NSum(pt) == 0x31
  {
    assert RangeSum(pt, 2, 5) == 15;
    assert RangeSum(pt, 2, 8) == 23;
    assert RangeSum(pt, 2, 11) == 33;
  }

  lemma THN132NBadDigitsAcceptedFields(pt: string)
    requires pt == "EA4CZ0809Z221013"
    ensures Fields(pt, None) == Measure(-1, true, 229, None)
  {
    BcdTriple('2', '2', '9');
    assert [pt[10], pt[11], pt[8]] == "229";
    assert DigitOf(pt[4]) == -1 && DigitOf(pt[9]) == -1 && DigitOf(pt[13]) == 0;
    DecodingProperties.BadDigitFlags();
    DecodingProperties.ValidDigitFlags(0);
  }

  lemma THN132NBadDigitsAcceptedBody(pt: string)
    requires pt == "EA4CZ0809Z221013"
    ensures THN132N(pt) == Some(Measure(-1, true, 229, None))
  {
    THN132NBadDigitsAcceptedSum(pt);
    THN132NBadDigitsAcceptedFields(pt);
    HexPair('3', '1');
    assert [pt[15], pt[12]] == "31";
  }

  /**
   * THGR122NX "1A2D1002502060552A4C": id 1D20, checksum 0x2A, channel 1,
   * battery fine, 20.5 degrees, 56.0 percent (the third humidity digit is
   * the fixed '0').
   */
  lemma THGR122NXCapture(sync: char)
    ensures var r := OregonV2Reading(Message(sync, "1A2D1002502060552A4C"));
      r.isValid && r.sensorType == THGR122NXId && r.temperature == 205 && r.humidity == 560 &&
      r.channel == 1 && !r.battery && r.AvailableHumidity()
  {
    var pt := "1A2D1002502060552A4C";
    var s := Message(sync, pt);
    MessageParts(sync, pt);
    HexQuad('1', 'D', '2', '0');
    assert [s[5], s[8], s[7], s[10]] == "1D20";
    assert SensorId(s) == THGR122NXId;
    THGR122NXCaptureBody(pt);
    assert THGR122NX(s[5..]).Some?;
  }

  lemma THGR122NXCaptureSum(pt: string)
    requires pt == "1A2D1002502060552A4C"
    ensures THGR122NXSum(pt) == 0x2A
  {
    assert RangeSum(pt, 0, 3) == 13;
    assert RangeSum(pt, 0, 6) == 27;
    assert RangeSum(pt, 0, 9) == 34;
    assert RangeSum(pt, 0, 12) == 36;
    assert RangeSum(pt, 0, 15) == 47;
    assert RangeSum(pt, 0, 16) == 52;
    SumOfWorking(pt, 16);
  }

  lemma THGR122NXCaptureFields(pt: string)
    requires pt == "1A2D1002502060552A4C"
    ensures Fields(pt, Some(560)) == Measure(1, false, 205, Some(560))
  {
    BcdTriple('2', '0', '5');
    assert [pt[10], pt[11], pt[8]] == "205";
    assert DigitOf(pt[4]) == 1 && DigitOf(pt[9]) == 0 && DigitOf(pt[13]) == 0;
    DecodingProperties.ValidDigitFlags(0);
  }

  lemma THGR122NXCaptureBody(pt: string)
    requires pt == "1A2D1002502060552A4C"
    ensures THGR122NX(pt) == Some(Measure(1, false, 205, Some(560)))
  {
    THGR122NXCaptureSum(pt);
    THGR122NXCaptureFields(pt);
    HexPair(pt[16], pt[17]);
    assert [pt[16], pt[17]] == "2A";
    BcdTriple(pt[15], pt[12], '0');
    assert [pt[15], pt[12], '0'] == "560";
    THGR122NXAccepts(pt, 0x2A, 560);
  }

  /** THGR122NX "1A2D1002300638042BB7", documented as -6 degrees: -6.3 degrees, 43.0 percent. */
  lemma THGR122NXNegativeCapture(sync: char)
    ensures var r := OregonV2Reading(Message(sync, "1A2D1002300638042BB7"));
      r.isValid && r.temperature == -63 && r.humidity == 430 && r.channel == 1
  {
    var pt := "1A2D1002300638042BB7";
    var s := Message(sync, pt);
    MessageParts(sync, pt);
    HexQuad('1', 'D', '2', '0');
    assert [s[5], s[8], s[7], s[10]] == "1D20";
    assert SensorId(s) == THGR122NXId;
    THGR122NXNegativeCaptureBody(pt);
    assert THGR122NX(s[5..]).Some?;
  }

  lemma THGR122NXNegativeCaptureSum(pt: string)
    requires pt == "1A2D1002300638042BB7"
    ensures THGR122NXSum(pt) == 0x2B
  {
    assert RangeSum(pt, 0, 3) == 13;
    assert RangeSum(pt, 0, 6) == 27;
    assert RangeSum(pt, 0, 9) == 32;
    assert RangeSum(pt, 0, 12) == 38;
    assert RangeSum(pt, 0, 15) == 49;
    assert RangeSum(pt, 0, 16) == 53;
    SumOfWorking(pt, 16);
  }

  lemma THGR122NXNegativeCaptureFields(pt: string)
    requires pt == "1A2D1002300638042BB7"
    ensures Fields(pt, Some(430)) == Measure(1, false, -63, Some(430))
  {
    BcdTriple('0', '6', '3');
    assert [pt[10], pt[11], pt[8]] == "063";
    assert DigitOf(pt[4]) == 1 && DigitOf(pt[9]) == 0 && DigitOf(pt[13]) == 8;
    DecodingProperties.ValidDigitFlags(0);
    DecodingProperties.ValidDigitFlags(8);
  }

  lemma THGR122NXNegativeCaptureBody(pt: string)
    requires pt == "1A2D1002300638042BB7"
    ensures THGR122NX(pt) == Some(Measure(1, false, -63, Some(430)))
  {
    THGR122NXNegativeCaptureSum(pt);
    THGR122NXNegativeCaptureFields(pt);
    HexPair(pt[16], pt[17]);
    assert [pt[16], pt[17]] == "2B";
    BcdTriple(pt[15], pt[12], '0');
    assert [pt[15], pt[12], '0'] == "430";
    THGR122NXAccepts(pt, 0x2B, 430);
  }

  /** A message whose header is not "OSV2" gets no sensor at all, not an invalid one. */
  lemma UnknownHeader()
    ensures RightSensor("XXXXA1A2D1002502060552A4C").None?
    ensures RightSensor("OSV2").None?
  {
  }

  /** A recognised header with an unknown sub-protocol id (here 1D21) gives an invalid reading. */
  lemma UnknownIdCapture(sync: char)
    ensures var s := Message(sync, "1A2D1102502060552A4C");
      RightSensor(s).Some? && !RightSensor(s).value.isValid && RightSensor(s).value.sensorType == -1
  {
    var pt := "1A2D1102502060552A4C";
    var s := Message(sync, pt);
    MessageParts(sync, pt);
    HexQuad('1', 'D', '2', '1');
    assert SensorId(s) == 0x1D21;
    DecodingProperties.UnknownSubProtocol(s);
  }
}

/**
 * The CRC validate computes for the two documented THGR122NX captures, over
 * their working copies (pairs swapped): both equal the transmitted CRC.
 */
module CrcCaptures {
  import opened Codec
  import opened Validator

  /** One step of the CRC chain, stated so that each step is checked on literals. */
  lemma CrcStep(w: string, j: nat, prev: bv32, d: int, v: bv32)
    requires 1 <= j < |w| && -1 <= d < 16
    requires CrcUpTo(w, j) == prev && DigitOf(w[j]) == d && Step(prev, j, d) == v
    ensures CrcUpTo(w, j + 1) == v
  {
  }

  /** The closing four rounds of an even-length working copy. */
  lemma CrcFinal(w: string, prev: bv32, v: bv32)
    requires |w| % 2 == 0 && CrcUpTo(w, |w|) == prev && Rounds(prev, 4) == v
    ensures Crc(w) == v
  {
  }

  /** The working copies the swap loop builds from the two bodies. */
  lemma CaptureWorkingCopy()
    ensures Working("1A2D1002502060552A4C", 16) == "A1D2012005020655"
  {
  }

  lemma NegativeCaptureWorkingCopy()
    ensures Working("1A2D1002300638042BB7", 16) == "A1D2012003608340"
  {
  }

  lemma THGR122NXCaptureCrcUpto3(w: string)
    requires w == "A1D2012005020655"
    ensures CrcUpTo(w, 3) == 0x19
  {
    CrcStep(w, 1, 0x43, 1, 0x3C);
    CrcStep(w, 2, 0x3C, 13, 0x19);
  }

  lemma THGR122NXCaptureCrcUpto5(w: string)
    requires w == "A1D2012005020655"
    ensures CrcUpTo(w, 5) == 0x41
  {
    THGR122NXCaptureCrcUpto3(w);
    CrcStep(w, 3, 0x19, 2, 0xB7);
    CrcStep(w, 4, 0xB7, 0, 0x41);
  }

  lemma THGR122NXCaptureCrcUpto7(w: string)
    requires w == "A1D2012005020655"
    ensures CrcUpTo(w, 7) == 0x1E
  {
    THGR122NXCaptureCrcUpto5(w);
    CrcStep(w, 5, 0x41, 1, 0x1C);
    CrcStep(w, 6, 0x1C, 2, 0x1E);
  }

  lemma THGR122NXCaptureCrcUpto9(w: string)
    requires w == "A1D2012005020655"
    ensures CrcUpTo(w, 9) == 0xE7
  {
    THGR122NXCaptureCrcUpto7(w);
    CrcStep(w, 7, 0x1E, 0, 0x1E);
    CrcStep(w, 8, 0x1E, 0, 0xE7);
  }

  lemma THGR122NXCaptureCrcUpto11(w: string)
    requires w == "A1D2012005020655"
    ensures CrcUpTo(w, 11) == 0xA0
  {
    THGR122NXCaptureCrcUpto9(w);
    CrcStep(w, 9, 0xE7, 5, 0x0A);
    CrcStep(w, 10, 0x0A, 0, 0xA0);
  }

  lemma THGR122NXCaptureCrcUpto13(w: string)
    requires w == "A1D2012005020655"
    ensures CrcUpTo(w, 13) == 0x67
  {
    THGR122NXCaptureCrcUpto11(w);
    CrcStep(w, 11, 0xA0, 2, 0x16);
    CrcStep(w, 12, 0x16, 0, 0x67);
  }

  lemma THGR122NXCaptureCrcUpto15(w: string)
    requires w == "A1D2012005020655"
    ensures CrcUpTo(w, 15) == 0x70
  {
    THGR122NXCaptureCrcUpto13(w);
    CrcStep(w, 13, 0x67, 6, 0x02);
    CrcStep(w, 14, 0x02, 5, 0x70);
  }

  lemma THGR122NXCaptureCrcUpto16(w: string)
    requires w == "A1D2012005020655"
    ensures CrcUpTo(w, 16) == 0x45
  {
    THGR122NXCaptureCrcUpto15(w);
    CrcStep(w, 15, 0x70, 5, 0x45);
  }

  /** The CRC validate computes for that capture is the transmitted 0x4C, though it is never compared. */
  lemma THGR122NXCaptureCrc(w: string)
    requires w == "A1D2012005020655"
    ensures Crc(w) == 0x4C
  {
    THGR122NXCaptureCrcUpto16(w);
    CrcFinal(w, 0x45, 0x4C);
  }

  lemma THGR122NXNegativeCaptureCrcUpto3(w: string)
    requires w == "A1D2012003608340"
    ensures CrcUpTo(w, 3) == 0x19
  {
    CrcStep(w, 1, 0x43, 1, 0x3C);
    CrcStep(w, 2, 0x3C, 13, 0x19);
  }

  lemma THGR122NXNegativeCaptureCrcUpto5(w: string)
    requires w == "A1D2012003608340"
    ensures CrcUpTo(w, 5) == 0x41
  {
    THGR122NXNegativeCaptureCrcUpto3(w);
    CrcStep(w, 3, 0x19, 2, 0xB7);
    CrcStep(w, 4, 0xB7, 0, 0x41);
  }

  lemma THGR122NXNegativeCaptureCrcUpto7(w: string)
    requires w == "A1D2012003608340"
    ensures CrcUpTo(w, 7) == 0x1E
  {
    THGR122NXNegativeCaptureCrcUpto5(w);
    CrcStep(w, 5, 0x41, 1, 0x1C);
    CrcStep(w, 6, 0x1C, 2, 0x1E);
  }

  lemma THGR122NXNegativeCaptureCrcUpto9(w: string)
    requires w == "A1D2012003608340"
    ensures CrcUpTo(w, 9) == 0xE7
  {
    THGR122NXNegativeCaptureCrcUpto7(w);
    CrcStep(w, 7, 0x1E, 0, 0x1E);
    CrcStep(w, 8, 0x1E, 0, 0xE7);
  }

  lemma THGR122NXNegativeCaptureCrcUpto11(w: string)
    requires w == "A1D2012003608340"
    ensures CrcUpTo(w, 11) == 0xD2
  {
    THGR122NXNegativeCaptureCrcUpto9(w);
    CrcStep(w, 9, 0xE7, 3, 0x6A);
    CrcStep(w, 10, 0x6A, 6, 0xD2);
  }

  lemma THGR122NXNegativeCaptureCrcUpto13(w: string)
    requires w == "A1D2012003608340"
    ensures CrcUpTo(w, 13) == 0xB0
  {
    THGR122NXNegativeCaptureCrcUpto11(w);
    CrcStep(w, 11, 0xD2, 0, 0x03);
    CrcStep(w, 12, 0x03, 8, 0xB0);
  }

  lemma THGR122NXNegativeCaptureCrcUpto15(w: string)
    requires w == "A1D2012003608340"
    ensures CrcUpTo(w, 15) == 0x50
  {
    THGR122NXNegativeCaptureCrcUpto13(w);
    CrcStep(w, 13, 0xB0, 3, 0x01);
    CrcStep(w, 14, 0x01, 4, 0x50);
  }

  lemma THGR122NXNegativeCaptureCrcUpto16(w: string)
    requires w == "A1D2012003608340"
    ensures CrcUpTo(w, 16) == 0x1B
  {
    THGR122NXNegativeCaptureCrcUpto15(w);
    CrcStep(w, 15, 0x50, 0, 0x1B);
  }

  /** Its computed CRC is the transmitted 0xB7 as well. */
  lemma THGR122NXNegativeCaptureCrc(w: string)
    requires w == "A1D2012003608340"
    ensures Crc(w) == 0xB7
  {
    THGR122NXNegativeCaptureCrcUpto16(w);
    CrcFinal(w, 0x1B, 0xB7);
  }
}
