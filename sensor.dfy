/**
 * The Sensor object of Sensor.cpp, updated in place the way the source
 * does it: the constructors assign the defaults, OregonSensorV2 decoding
 * writes the fields it decodes, and getRightSensor allocates the object.
 * Sensor and its subclass OregonSensorV2 share one class here; sensorClass
 * tells them apart. Every method is proved to leave exactly the fields the
 * value model of module OregonDecoding computes.
 */
module Sensors {
  import opened Wrappers
  import opened Codec
  import opened OregonDecoding
  import Validator

  class Sensor {
    var temperature: int   // tenths of a degree
    var humidity: int      // tenths of a percent
    var channel: int
    var battery: bool
    var haveTemperature: bool
    var haveHumidity: bool
    var haveBattery: bool
    var isValid: bool
    var haveChannel: bool
    var sensorType: int
    var sensorClass: SensorClass

    /** The fields as one value. */
    function State(): Reading
      reads this
    {
      Reading(temperature, humidity, channel, battery, haveTemperature, haveHumidity,
              haveBattery, isValid, haveChannel, sensorType, sensorClass)
    }

    /** Sensor::Sensor: every field at its default; the message is not read. */
    constructor (strval: string)
      ensures State() == Initial
    {
      temperature := 0;
      humidity := 0;
      channel := -1;
      battery := false;
      haveTemperature := false;
      haveHumidity := false;
      haveBattery := false;
      isValid := false;
      haveChannel := false;
      sensorType := -1;
      sensorClass := ClassNone;
    }

    /** OregonSensorV2::OregonSensorV2: the Sensor defaults, class OS, then isValid := decode(s). */
    constructor OregonV2(s: string)
      ensures State() == OregonV2Reading(s)
    {
      temperature := 0;
      humidity := 0;
      channel := -1;
      battery := false;
      haveTemperature := false;
      haveHumidity := false;
      haveBattery := false;
      isValid := false;
      haveChannel := false;
      sensorType := -1;
      sensorClass := ClassNone;
      new;
      sensorClass := ClassOregonScientific;
      isValid := Decode(s);
    }

    predicate AvailableTemp() reads this { State().AvailableTemp() }
    predicate AvailableHumidity() reads this { State().AvailableHumidity() }
    predicate IsBatteryLow() reads this { State().IsBatteryLow() }
    predicate HasChannel() reads this { State().HasChannel() }
    predicate IsDecoded() reads this { State().IsDecoded() }

    /**
     * Sensor::getRightSensor: a new OregonSensorV2 for a message of more
     * than four characters that starts with "OSV2", otherwise null.
     */
    static method GetRightSensor(s: string) returns (r: Sensor?)
      ensures r == null <==> RightSensor(s).None?
      ensures r != null ==> fresh(r) && r.State() == RightSensor(s).value
    {
      var len := |s|;
      if len > 4 {
        if s[0] == 'O' && s[1] == 'S' && s[2] == 'V' && s[3] == '2' {
          r := new Sensor.OregonV2(s);
          return;
        }
      }
      return null;
    }

    /**
     * OregonSensorV2::decode: reads the sub-protocol id from the body pt =
     * s[5..], records it in sensorType when it is known and runs that
     * layout's decoder.
     */
    method Decode(s: string) returns (ok: bool)
      modifies this
      ensures (ok, State()) == OregonDecoding.Decode(s, old(State()))
    {
      var len := |s|;
      if len > 11 {
        var pt := s[5..];
        var sensorId := [pt[0], pt[3], pt[2], pt[5]];
        assert sensorId == [s[5], s[8], s[7], s[10]];
        var isensorId := GetIntFromString(sensorId);
        if isensorId == 0x1D20 {
          sensorType := 0x1D20;
          ok := DecodeTHGR122NX(pt);
        } else if isensorId == 0xEC40 {
          sensorType := 0xEC40;
          ok := DecodeTHN132N(pt);
        } else {
          ok := false;
        }
      } else {
        ok := false;
      }
    }

    /**
     * OregonSensorV2::decode_THN132N: on a 16-character body whose checksum
     * (digits pt[0], pt[2..11], pt[13]) equals hex(pt[15] pt[12]), writes
     * channel, battery and temperature and clears haveHumidity; otherwise
     * changes nothing.
     */
    method DecodeTHN132N(pt: string) returns (ok: bool)
      modifies this
      ensures ok == THN132N(pt).Some?
      ensures State() == if ok then Apply(old(State()), THN132N(pt).value) else old(State())
    {
      var len := |pt|;
      if len == 16 {
        var m;
        ok, m := ReadTHN132N(pt);
        if ok {
          Store(m);
        }
      } else {
        ok := false;
      }
    }

    /**
     * The conversions and the checksum test of decode_THN132N, before any
     * field is written: whether the body is accepted, and what it then holds.
     */
    static method ReadTHN132N(pt: string) returns (ok: bool, m: Measure)
      requires |pt| == 16
      ensures THN132N(pt) == if ok then Some(m) else None
    {
      var checksum := [pt[15], pt[12]];
      m := FieldsTHN132N(pt);
      var ichecksum := GetIntFromString(checksum);
      var sum := SumTHN132N(pt);
      ok := sum == ichecksum;
    }

    /** The field conversions of decode_THN132N; the rolling code is converted and not used. */
    static method FieldsTHN132N(pt: string) returns (m: Measure)
      requires |pt| == 16
      ensures m == Fields(pt, None)
    {
      var channel := pt[4];
      var rolling := [pt[7], pt[6]];
      var battery := pt[9];
      var temp := [pt[10], pt[11], pt[8]];
      var tempS := pt[13];

      var ichannel := GetIntFromChar(channel);
      var irolling := GetIntFromString(rolling);
      var b := GetIntFromChar(battery);
      var ibattery := DigitBits(b) & 0x04;
      var t := GetIntFromChar(tempS);
      var itempS := DigitBits(t) & 0x08;
      var dtemp := GetDoubleFromString(temp);

      assert ibattery != 0 <==> FlagSet(DigitOf(pt[9]), 0x04);
      m := Measure(if ichannel != 4 then ichannel else 3, ibattery != 0,
                   if itempS == 0 then dtemp else -dtemp, None);
    }

    /** The checksum loop of decode_THN132N: digits pt[0], pt[2] .. pt[11] and pt[13], a bad one counting -1. */
    static method SumTHN132N(pt: string) returns (sum: int)
      requires |pt| >= 14
      ensures sum == THN132NSum(pt)
    {
      sum := GetIntFromChar(pt[0]);
      for i := 2 to 12
        invariant sum == DigitOf(pt[0]) + RangeSum(pt, 2, i)
      {
        var d := GetIntFromChar(pt[i]);
        sum := sum + d;
      }
      var last := GetIntFromChar(pt[13]);
      sum := sum + last;
    }

    /**
     * OregonSensorV2::decode_THGR122NX: on a 20-character body that
     * validate accepts against the checksum hex(pt[16] pt[17]), writes
     * channel, battery, temperature and humidity; otherwise changes nothing.
     */
    method DecodeTHGR122NX(pt: string) returns (ok: bool)
      modifies this
      ensures ok == THGR122NX(pt).Some?
      ensures State() == if ok then Apply(old(State()), THGR122NX(pt).value) else old(State())
    {
      var len := |pt|;
      if len == 20 {
        var m;
        ok, m := ReadTHGR122NX(pt);
        if ok {
          Store(m);
        }
      } else {
        ok := false;
      }
    }

    /**
     * The conversions and the validate call of decode_THGR122NX, before any
     * field is written: whether the body is accepted, and what it then holds.
     */
    static method ReadTHGR122NX(pt: string) returns (ok: bool, m: Measure)
      requires |pt| == 20
      ensures THGR122NX(pt) == if ok then Some(m) else None
    {
      var channel := pt[4];
      var rolling := [pt[7], pt[6]];
      var battery := pt[9];
      var temp := [pt[10], pt[11], pt[8]];
      var tempS := pt[13];
      var humid := [pt[15], pt[12], '0'];
      var checksum := [pt[16], pt[17]];
      var crc := [pt[18], pt[19]];

      var ichannel := GetIntFromChar(channel);
      var irolling := GetIntFromString(rolling);
      var ibattery := GetIntFromChar(battery);
      var t := GetIntFromChar(tempS);
      var itempS := DigitBits(t) & 0x08;
      var ichecksum := GetIntFromString(checksum);
      var icrc := GetIntFromString(crc);
      var dtemp := GetDoubleFromString(temp);
      var dhumid := GetDoubleFromString(humid);

      var valid, _, _ := Validator.Validate(pt, 16, icrc, ichecksum);
      ok := valid;
      m := Measure(if ichannel != 4 then ichannel else 3, DigitBits(ibattery) & 0x04 != 0,
                   if itempS == 0 then dtemp else -dtemp, Some(dhumid));
    }

    /**
     * The field writes that end both decoders on success: channel, battery
     * and temperature with their have-flags, and humidity when the layout
     * carries one (haveHumidity cleared otherwise).
     */
    method Store(m: Measure)
      modifies this
      ensures State() == Apply(old(State()), m)
    {
      haveChannel := true;
      channel := m.channel;
      haveBattery := true;
      battery := m.battery;
      haveTemperature := true;
      temperature := m.temperature;
      match m.humidity {
        case None =>
          haveHumidity := false;
        case Some(h) =>
          haveHumidity := true;
          humidity := h;
      }
    }
  }
}
