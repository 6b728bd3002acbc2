/**
 * The remaining THN132N captures logged beside decode_THN132N
 * (Sensor.cpp:233-246), each decoded by the model. All have channel 2 and a
 * good battery; pt[13] is the sign digit, so a digit with bit 0x08 set makes
 * the temperature negative whatever the comment beside it says.
 */
module CaptureLog {
  import opened Wrappers
  import opened Codec
  import opened OregonDecoding
  import opened Captures
  import DecodingProperties

  /** Sensor.cpp:234, EA4C20805208F813: -8.5 degrees (documented as 08.5 degrees). */
  lemma THN132NLog5208(sync: char, pt: string)
    requires pt == "EA4C20805208F813"
    ensures var r := OregonV2Reading(Message(sync, pt));
      r.isValid && r.channel == 2 && !r.battery && r.temperature == -85 && !r.haveHumidity
  {
    THN132NLog5208Body(pt);
    THN132NMessage(sync, pt);
  }

  lemma THN132NLog5208Body(pt: string)
    requires pt == "EA4C20805208F813"
    ensures THN132N(pt) == Some(Measure(2, false, -85, None))
  {
    THN132NLog5208Sum(pt);
    HexPair(pt[15], pt[12]);
    assert [pt[15], pt[12]] == "3F";
    THN132NAccepts(pt, 63);
    BcdTriple(pt[10], pt[11], pt[8]);
    assert [pt[10], pt[11], pt[8]] == "085";
    assert DigitOf(pt[4]) == 2 && DigitOf(pt[9]) == 2 && DigitOf(pt[13]) == 8;
    DecodingProperties.ValidDigitFlags(2);
    DecodingProperties.ValidDigitFlags(8);
  }

  lemma THN132NLog5208Sum(pt: string)
    requires pt == "EA4C20805208F813"
    ensures THN132NSum(pt) == 63
  {
    assert RangeSum(pt, 2, 5) == 18;
    assert RangeSum(pt, 2, 8) == 26;
    assert RangeSum(pt, 2, 11) == 33;
  }

  /** Sensor.cpp:235, EA4C20800201B082: 1.0 degrees. */
  lemma THN132NLog0201(sync: char, pt: string)
    requires pt == "EA4C20800201B082"
    ensures var r := OregonV2Reading(Message(sync, pt));
      r.isValid && r.channel == 2 && !r.battery && r.temperature == 10 && !r.haveHumidity
  {
    THN132NLog0201Body(pt);
    THN132NMessage(sync, pt);
  }

  lemma THN132NLog0201Body(pt: string)
    requires pt == "EA4C20800201B082"
    ensures THN132N(pt) == Some(Measure(2, false, 10, None))
  {
    THN132NLog0201Sum(pt);
    HexPair(pt[15], pt[12]);
    assert [pt[15], pt[12]] == "2B";
    THN132NAccepts(pt, 43);
    BcdTriple(pt[10], pt[11], pt[8]);
    assert [pt[10], pt[11], pt[8]] == "010";
    assert DigitOf(pt[4]) == 2 && DigitOf(pt[9]) == 2 && DigitOf(pt[13]) == 0;
    DecodingProperties.ValidDigitFlags(2);
    DecodingProperties.ValidDigitFlags(0);
  }

  lemma THN132NLog0201Sum(pt: string)
    requires pt == "EA4C20800201B082"
    ensures THN132NSum(pt) == 43
  {
    assert RangeSum(pt, 2, 5) == 18;
    assert RangeSum(pt, 2, 8) == 26;
    assert RangeSum(pt, 2, 11) == 28;
  }

  /** Sensor.cpp:236, EA4C208072023053: 2.7 degrees. */
  lemma THN132NLog7202(sync: char, pt: string)
    requires pt == "EA4C208072023053"
    ensures var r := OregonV2Reading(Message(sync, pt));
      r.isValid && r.channel == 2 && !r.battery && r.temperature == 27 && !r.haveHumidity
  {
    THN132NLog7202Body(pt);
    THN132NMessage(sync, pt);
  }

  lemma THN132NLog7202Body(pt: string)
    requires pt == "EA4C208072023053"
    ensures THN132N(pt) == Some(Measure(2, false, 27, None))
  {
    THN132NLog7202Sum(pt);
    HexPair(pt[15], pt[12]);
    assert [pt[15], pt[12]] == "33";
    THN132NAccepts(pt, 51);
    BcdTriple(pt[10], pt[11], pt[8]);
    assert [pt[10], pt[11], pt[8]] == "027";
    assert DigitOf(pt[4]) == 2 && DigitOf(pt[9]) == 2 && DigitOf(pt[13]) == 0;
    DecodingProperties.ValidDigitFlags(2);
    DecodingProperties.ValidDigitFlags(0);
  }

  lemma THN132NLog7202Sum(pt: string)
    requires pt == "EA4C208072023053"
    ensures THN132NSum(pt) == 51
  {
    assert RangeSum(pt, 2, 5) == 18;
    assert RangeSum(pt, 2, 8) == 26;
    assert RangeSum(pt, 2, 11) == 35;
  }

  /** Sensor.cpp:237, EA4C208022040073: 4.2 degrees. */
  lemma THN132NLog2204(sync: char, pt: string)
    requires pt == "EA4C208022040073"
    ensures var r := OregonV2Reading(Message(sync, pt));
      r.isValid && r.channel == 2 && !r.battery && r.temperature == 42 && !r.haveHumidity
  {
    THN132NLog2204Body(pt);
    THN132NMessage(sync, pt);
  }

  lemma THN132NLog2204Body(pt: string)
    requires pt == "EA4C208022040073"
    ensures THN132N(pt) == Some(Measure(2, false, 42, None))
  {
    THN132NLog2204Sum(pt);
    HexPair(pt[15], pt[12]);
    assert [pt[15], pt[12]] == "30";
    THN132NAccepts(pt, 48);
    BcdTriple(pt[10], pt[11], pt[8]);
    assert [pt[10], pt[11], pt[8]] == "042";
    assert DigitOf(pt[4]) == 2 && DigitOf(pt[9]) == 2 && DigitOf(pt[13]) == 0;
    DecodingProperties.ValidDigitFlags(2);
    DecodingProperties.ValidDigitFlags(0);
  }

  lemma THN132NLog2204Sum(pt: string)
    requires pt == "EA4C208022040073"
    ensures THN132NSum(pt) == 48
  {
    assert RangeSum(pt, 2, 5) == 18;
    assert RangeSum(pt, 2, 8) == 26;
    assert RangeSum(pt, 2, 11) == 30;
  }

  /** Sensor.cpp:238, EA4C208062066063: 6.6 degrees. */
  lemma THN132NLog6206(sync: char, pt: string)
    requires pt == "EA4C208062066063"
    ensures var r := OregonV2Reading(Message(sync, pt));
      r.isValid && r.channel == 2 && !r.battery && r.temperature == 66 && !r.haveHumidity
  {
    THN132NLog6206Body(pt);
    THN132NMessage(sync, pt);
  }

  lemma THN132NLog6206Body(pt: string)
    requires pt == "EA4C208062066063"
    ensures THN132N(pt) == Some(Measure(2, false, 66, None))
  {
    THN132NLog6206Sum(pt);
    HexPair(pt[15], pt[12]);
    assert [pt[15], pt[12]] == "36";
    THN132NAccepts(pt, 54);
    BcdTriple(pt[10], pt[11], pt[8]);
    assert [pt[10], pt[11], pt[8]] == "066";
    assert DigitOf(pt[4]) == 2 && DigitOf(pt[9]) == 2 && DigitOf(pt[13]) == 0;
    DecodingProperties.ValidDigitFlags(2);
    DecodingProperties.ValidDigitFlags(0);
  }

  lemma THN132NLog6206Sum(pt: string)
    requires pt == "EA4C208062066063"
    ensures THN132NSum(pt) == 54
  {
    assert RangeSum(pt, 2, 5) == 18;
    assert RangeSum(pt, 2, 8) == 26;
    assert RangeSum(pt, 2, 11) == 34;
  }

  /** Sensor.cpp:239, EA4C2080921040C3: 10.9 degrees. */
  lemma THN132NLog9210(sync: char, pt: string)
    requires pt == "EA4C2080921040C3"
    ensures var r := OregonV2Reading(Message(sync, pt));
      r.isValid && r.channel == 2 && !r.battery && r.temperature == 109 && !r.haveHumidity
  {
    THN132NLog9210Body(pt);
    THN132NMessage(sync, pt);
  }

  lemma THN132NLog9210Body(pt: string)
    requires pt == "EA4C2080921040C3"
    ensures THN132N(pt) == Some(Measure(2, false, 109, None))
  {
    THN132NLog9210Sum(pt);
    HexPair(pt[15], pt[12]);
    assert [pt[15], pt[12]] == "34";
    THN132NAccepts(pt, 52);
    BcdTriple(pt[10], pt[11], pt[8]);
    assert [pt[10], pt[11], pt[8]] == "109";
    assert DigitOf(pt[4]) == 2 && DigitOf(pt[9]) == 2 && DigitOf(pt[13]) == 0;
    DecodingProperties.ValidDigitFlags(2);
    DecodingProperties.ValidDigitFlags(0);
  }

  lemma THN132NLog9210Sum(pt: string)
    requires pt == "EA4C2080921040C3"
    ensures THN132NSum(pt) == 52
  {
    assert RangeSum(pt, 2, 5) == 18;
    assert RangeSum(pt, 2, 8) == 26;
    assert RangeSum(pt, 2, 11) == 38;
  }

  /** Sensor.cpp:240, EA4C208042110033: 11.4 degrees. */
  lemma THN132NLog4211(sync: char, pt: string)
    requires pt == "EA4C208042110033"
    ensures var r := OregonV2Reading(Message(sync, pt));
      r.isValid && r.channel == 2 && !r.battery && r.temperature == 114 && !r.haveHumidity
  {
    THN132NLog4211Body(pt);
    THN132NMessage(sync, pt);
  }

  lemma THN132NLog4211Body(pt: string)
    requires pt == "EA4C208042110033"
    ensures THN132N(pt) == Some(Measure(2, false, 114, None))
  {
    THN132NLog4211Sum(pt);
    HexPair(pt[15], pt[12]);
    assert [pt[15], pt[12]] == "30";
    THN132NAccepts(pt, 48);
    BcdTriple(pt[10], pt[11], pt[8]);
    assert [pt[10], pt[11], pt[8]] == "114";
    assert DigitOf(pt[4]) == 2 && DigitOf(pt[9]) == 2 && DigitOf(pt[13]) == 0;
    DecodingProperties.ValidDigitFlags(2);
    DecodingProperties.ValidDigitFlags(0);
  }

  lemma THN132NLog4211Sum(pt: string)
    requires pt == "EA4C208042110033"
    ensures THN132NSum(pt) == 48
  {
    assert RangeSum(pt, 2, 5) == 18;
    assert RangeSum(pt, 2, 8) == 26;
    assert RangeSum(pt, 2, 11) == 33;
  }

  /** Sensor.cpp:241, EA4C20801212E002: 12.1 degrees. */
  lemma THN132NLog1212(sync: char, pt: string)
    requires pt == "EA4C20801212E002"
    ensures var r := OregonV2Reading(Message(sync, pt));
      r.isValid && r.channel == 2 && !r.battery && r.temperature == 121 && !r.haveHumidity
  {
    THN132NLog1212Body(pt);
    THN132NMessage(sync, pt);
  }

  lemma THN132NLog1212Body(pt: string)
    requires pt == "EA4C20801212E002"
    ensures THN132N(pt) == Some(Measure(2, false, 121, None))
  {
    THN132NLog1212Sum(pt);
    HexPair(pt[15], pt[12]);
    assert [pt[15], pt[12]] == "2E";
    THN132NAccepts(pt, 46);
    BcdTriple(pt[10], pt[11], pt[8]);
    assert [pt[10], pt[11], pt[8]] == "121";
    assert DigitOf(pt[4]) == 2 && DigitOf(pt[9]) == 2 && DigitOf(pt[13]) == 0;
    DecodingProperties.ValidDigitFlags(2);
    DecodingProperties.ValidDigitFlags(0);
  }

  lemma THN132NLog1212Sum(pt: string)
    requires pt == "EA4C20801212E002"
    ensures THN132NSum(pt) == 46
  {
    assert RangeSum(pt, 2, 5) == 18;
    assert RangeSum(pt, 2, 8) == 26;
    assert RangeSum(pt, 2, 11) == 30;
  }

  /** Sensor.cpp:242, EA4C2080623470C3: 34.6 degrees (documented as 34.6 degrees). */
  lemma THN132NLog6234(sync: char, pt: string)
    requires pt == "EA4C2080623470C3"
    ensures var r := OregonV2Reading(Message(sync, pt));
      r.isValid && r.channel == 2 && !r.battery && r.temperature == 346 && !r.haveHumidity
  {
    THN132NLog6234Body(pt);
    THN132NMessage(sync, pt);
  }

  lemma THN132NLog6234Body(pt: string)
    requires pt == "EA4C2080623470C3"
    ensures THN132N(pt) == Some(Measure(2, false, 346, None))
  {
    THN132NLog6234Sum(pt);
    HexPair(pt[15], pt[12]);
    assert [pt[15], pt[12]] == "37";
    THN132NAccepts(pt, 55);
    BcdTriple(pt[10], pt[11], pt[8]);
    assert [pt[10], pt[11], pt[8]] == "346";
    assert DigitOf(pt[4]) == 2 && DigitOf(pt[9]) == 2 && DigitOf(pt[13]) == 0;
    DecodingProperties.ValidDigitFlags(2);
    DecodingProperties.ValidDigitFlags(0);
  }

  lemma THN132NLog6234Sum(pt: string)
    requires pt == "EA4C2080623470C3"
    ensures THN132NSum(pt) == 55
  {
    assert RangeSum(pt, 2, 5) == 18;
    assert RangeSum(pt, 2, 8) == 26;
    assert RangeSum(pt, 2, 11) == 37;
  }

  /** Sensor.cpp:243, EA4C208052313043: 31.5 degrees (documented as 31.5 degrees). */
  lemma THN132NLog5231(sync: char, pt: string)
    requires pt == "EA4C208052313043"
    ensures var r := OregonV2Reading(Message(sync, pt));
      r.isValid && r.channel == 2 && !r.battery && r.temperature == 315 && !r.haveHumidity
  {
    THN132NLog5231Body(pt);
    THN132NMessage(sync, pt);
  }

  lemma THN132NLog5231Body(pt: string)
    requires pt == "EA4C208052313043"
    ensures THN132N(pt) == Some(Measure(2, false, 315, None))
  {
    THN132NLog5231Sum(pt);
    HexPair(pt[15], pt[12]);
    assert [pt[15], pt[12]] == "33";
    THN132NAccepts(pt, 51);
    BcdTriple(pt[10], pt[11], pt[8]);
    assert [pt[10], pt[11], pt[8]] == "315";
    assert DigitOf(pt[4]) == 2 && DigitOf(pt[9]) == 2 && DigitOf(pt[13]) == 0;
    DecodingProperties.ValidDigitFlags(2);
    DecodingProperties.ValidDigitFlags(0);
  }

  lemma THN132NLog5231Sum(pt: string)
    requires pt == "EA4C208052313043"
    ensures THN132NSum(pt) == 51
  {
    assert RangeSum(pt, 2, 5) == 18;
    assert RangeSum(pt, 2, 8) == 26;
    assert RangeSum(pt, 2, 11) == 36;
  }

  /** Sensor.cpp:244, EA4C2080920728F4: -7.9 degrees (documented as about -7 degrees). */
  lemma THN132NLog9207(sync: char, pt: string)
    requires pt == "EA4C2080920728F4"
    ensures var r := OregonV2Reading(Message(sync, pt));
      r.isValid && r.channel == 2 && !r.battery && r.temperature == -79 && !r.haveHumidity
  {
    THN132NLog9207Body(pt);
    THN132NMessage(sync, pt);
  }

  lemma THN132NLog9207Body(pt: string)
    requires pt == "EA4C2080920728F4"
    ensures THN132N(pt) == Some(Measure(2, false, -79, None))
  {
    THN132NLog9207Sum(pt);
    HexPair(pt[15], pt[12]);
    assert [pt[15], pt[12]] == "42";
    THN132NAccepts(pt, 66);
    BcdTriple(pt[10], pt[11], pt[8]);
    assert [pt[10], pt[11], pt[8]] == "079";
    assert DigitOf(pt[4]) == 2 && DigitOf(pt[9]) == 2 && DigitOf(pt[13]) == 8;
    DecodingProperties.ValidDigitFlags(2);
    DecodingProperties.ValidDigitFlags(8);
  }

  lemma THN132NLog9207Sum(pt: string)
    requires pt == "EA4C2080920728F4"
    ensures THN132NSum(pt) == 66
  {
    assert RangeSum(pt, 2, 5) == 18;
    assert RangeSum(pt, 2, 8) == 26;
    assert RangeSum(pt, 2, 11) == 37;
  }

  /** Sensor.cpp:246, EA4C208070199043: 19.7 degrees. */
  lemma THN132NLog7019(sync: char, pt: string)
    requires pt == "EA4C208070199043"
    ensures var r := OregonV2Reading(Message(sync, pt));
      r.isValid && r.channel == 2 && !r.battery && r.temperature == 197 && !r.haveHumidity
  {
    THN132NLog7019Body(pt);
    THN132NMessage(sync, pt);
  }

  lemma THN132NLog7019Body(pt: string)
    requires pt == "EA4C208070199043"
    ensures THN132N(pt) == Some(Measure(2, false, 197, None))
  {
    THN132NLog7019Sum(pt);
    HexPair(pt[15], pt[12]);
    assert [pt[15], pt[12]] == "39";
    THN132NAccepts(pt, 57);
    BcdTriple(pt[10], pt[11], pt[8]);
    assert [pt[10], pt[11], pt[8]] == "197";
    assert DigitOf(pt[4]) == 2 && DigitOf(pt[9]) == 0 && DigitOf(pt[13]) == 0;
    DecodingProperties.ValidDigitFlags(0);
    DecodingProperties.ValidDigitFlags(0);
  }

  lemma THN132NLog7019Sum(pt: string)
    requires pt == "EA4C208070199043"
    ensures THN132NSum(pt) == 57
  {
    assert RangeSum(pt, 2, 5) == 18;
    assert RangeSum(pt, 2, 8) == 26;
    assert RangeSum(pt, 2, 11) == 34;
  }
}
