/**
 * What an Oregon Scientific v2 message decodes to, as values: the fields of a
 * Sensor object (Reading), the two fixed-layout field decoders
 * (decode_THN132N, decode_THGR122NX), the sub-protocol dispatch
 * (OregonSensorV2::decode), the OregonSensorV2 construction and the header
 * dispatch (Sensor::getRightSensor). The class in module Sensors runs these
 * steps in place and is proved to reach the same values.
 *
 * A message s is the characters before the C terminator. The body pt is
 * s[5..]: four header characters and one sync character come first.
 * Temperature and humidity are integer tenths.
 */
module OregonDecoding {
  import opened Wrappers
  import opened Codec
  import Validator

  /** SENS_CLASS_NONE and SENS_CLASS_OS. */
  datatype SensorClass = ClassNone | ClassOregonScientific

  /** The fields of a Sensor object, with the source's read accessors. */
  datatype Reading = Reading(
    temperature: int,
    humidity: int,
    channel: int,
    battery: bool,
    haveTemperature: bool,
    haveHumidity: bool,
    haveBattery: bool,
    isValid: bool,
    haveChannel: bool,
    sensorType: int,
    sensorClass: SensorClass)
  {
    predicate AvailableTemp() { isValid && haveTemperature }
    predicate AvailableHumidity() { isValid && haveHumidity }
    predicate IsBatteryLow() { isValid && haveBattery && battery }
    predicate HasChannel() { isValid && haveChannel }
    predicate IsDecoded() { isValid }
  }

  /** The values the Sensor constructor gives every field. */
  const Initial: Reading := Reading(0, 0, -1, false, false, false, false, false, false, -1, ClassNone)

  const THGR122NXId: int := 0x1D20
  const THN132NId: int := 0xEC40

  /** The fields a successful field decoder writes; humidity only for THGR122NX. */
  datatype Measure = Measure(channel: int, battery: bool, temperature: int, humidity: Option<int>)

  /** The channel as stored: the raw code 4 becomes 3, every other value is kept. */
  function NormalChannel(raw: int): int {
    if raw != 4 then raw else 3
  }

  /** A flag bit of a digit value, -1 meaning every bit set. */
  predicate FlagSet(d: int, mask: bv32)
    requires -1 <= d < 16
  {
    DigitBits(d) & mask != 0
  }

  /** The temperature magnitude, negated when bit 0x08 of the sign digit is set. */
  function Signed(tenths: int, signDigit: int): int
    requires -1 <= signDigit < 16
  {
    if FlagSet(signDigit, 0x08) then -tenths else tenths
  }

  /**
   * The fields both layouts share: channel at pt[4], battery flag 0x04 of
   * pt[9], temperature BCD from pt[10] pt[11] pt[8], sign flag 0x08 of pt[13].
   */
  function Fields(pt: string, humidity: Option<int>): (m: Measure)
    requires |pt| >= 14
    ensures m.channel != 4 && -1 <= m.channel <= 15
    ensures m.humidity == humidity
  {
    Measure(
      NormalChannel(DigitOf(pt[4])),
      FlagSet(DigitOf(pt[9]), 0x04),
      Signed(BcdTenths([pt[10], pt[11], pt[8]]), DigitOf(pt[13])),
      humidity)
  }

  /** The THN132N checksum: digits pt[0], pt[2..11] and pt[13]. */
  function THN132NSum(pt: string): int
    requires |pt| >= 14
  {
    DigitOf(pt[0]) + RangeSum(pt, 2, 12) + DigitOf(pt[13])
  }

  /** decode_THN132N: a 16-character body whose checksum equals hex(pt[15] pt[12]). */
  function THN132N(pt: string): (r: Option<Measure>)
    ensures r.Some? ==> |pt| == 16 && r.value.humidity.None? && r.value.channel != 4
  {
    if |pt| != 16 then None
    else if THN132NSum(pt) != IntFromString([pt[15], pt[12]]) then None
    else Some(Fields(pt, None))
  }

  /** The checksum validate computes for THGR122NX: over the first 16 characters. */
  function THGR122NXSum(pt: string): int
    requires |pt| >= 16
  {
    Validator.Sum(Validator.Working(pt, 16))
  }

  /**
   * decode_THGR122NX: a 20-character body that validate accepts against the
   * checksum hex(pt[16] pt[17]); humidity is BCD of pt[15] pt[12] and a fixed '0'.
   */
  function THGR122NX(pt: string): (r: Option<Measure>)
    ensures r.Some? ==> |pt| == 20 && r.value.channel != 4
    ensures r.Some? ==> r.value.humidity.Some? && r.value.humidity.value % 10 == 0
  {
    if |pt| != 20 then None
    else if THGR122NXSum(pt) != IntFromString([pt[16], pt[17]]) then None
    else
      assert [pt[15], pt[12], '0'] == [pt[15], pt[12]] + ['0'];
      BcdTrailingZero([pt[15], pt[12]]);
      Some(Fields(pt, Some(BcdTenths([pt[15], pt[12], '0']))))
  }

  /** The field writes of a successful field decoder. */
  function Apply(r: Reading, m: Measure): (a: Reading)
    ensures a.isValid == r.isValid && a.sensorType == r.sensorType && a.sensorClass == r.sensorClass
    ensures a.haveChannel && a.haveBattery && a.haveTemperature && (a.haveHumidity <==> m.humidity.Some?)
    ensures a.channel == m.channel && a.temperature == m.temperature
  {
    r.(haveChannel := true, channel := m.channel,
       haveBattery := true, battery := m.battery,
       haveTemperature := true, temperature := m.temperature,
       haveHumidity := m.humidity.Some?,
       humidity := if m.humidity.Some? then m.humidity.value else r.humidity)
  }

  /** The sub-protocol id: hex of pt[0] pt[3] pt[2] pt[5], in that order. */
  function SensorId(s: string): (id: int)
    requires |s| > 11
    ensures -1 <= id < 0x1_0000
    ensures id == -1 <==> !AllDigits([s[5], s[8], s[7], s[10]], 16)
  {
    assert Pow(16, 4) == 0x1_0000;
    IntFromString([s[5], s[8], s[7], s[10]])
  }

  /**
   * OregonSensorV2::decode applied to the fields r: whether it succeeded and
   * the fields afterwards. sensorType is written as soon as the id is known.
   */
  function Decode(s: string, r: Reading): (res: (bool, Reading))
    ensures res.1.isValid == r.isValid && res.1.sensorClass == r.sensorClass
    ensures res.0 ==> (|s| == 21 || |s| == 25) && res.1.sensorType == SensorId(s)
    ensures !res.0 ==> res.1 == r || (|s| > 11 && res.1 == r.(sensorType := SensorId(s)))
  {
    if |s| <= 11 then (false, r)
    else
      var id := SensorId(s);
      if id == THGR122NXId then
        var r1 := r.(sensorType := THGR122NXId);
        match THGR122NX(s[5..])
        case None => (false, r1)
        case Some(m) => (true, Apply(r1, m))
      else if id == THN132NId then
        var r1 := r.(sensorType := THN132NId);
        match THN132N(s[5..])
        case None => (false, r1)
        case Some(m) => (true, Apply(r1, m))
      else (false, r)
  }

  /** What the OregonSensorV2 constructor leaves: defaults, class OS, isValid := decode. */
  function OregonV2Reading(s: string): (r: Reading)
    ensures r.sensorClass == ClassOregonScientific
    ensures r.isValid ==> |s| == 21 || |s| == 25
  {
    var (ok, r) := Decode(s, Initial.(sensorClass := ClassOregonScientific));
    r.(isValid := ok)
  }

  /** Sensor::getRightSensor: an OregonSensorV2 for a message longer than 4 starting "OSV2", else null. */
  function RightSensor(s: string): (r: Option<Reading>)
    ensures r.Some? ==> |s| > 4 && s[..4] == "OSV2" && r.value.sensorClass == ClassOregonScientific
  {
    if |s| > 4 && s[0] == 'O' && s[1] == 'S' && s[2] == 'V' && s[3] == '2' then Some(OregonV2Reading(s))
    else None
  }
}
