# Oregon Scientific v2 sensor decoder

A Dafny model of the decoding engine in `Sensor.cpp`. The radio front end receives
an Oregon Scientific v2 message as text: the header `OSV2`, a sync character, and
the nibbles of the message as hexadecimal digits, in the order they were
received. The decoder does the following:

- picks a sensor object for the message (`getRightSensor`);
- reads the four-digit sub-protocol id, whose nibbles are transmitted out of order;
- for the two known layouts, converts the channel, the battery flag, the BCD
  temperature, its sign and, for THGR122NX, the BCD humidity;
- accepts the message only when the transmitted checksum matches.

THN132N messages (id `EC40`) carry a plain sum of digits. THGR122NX messages (id
`1D20`) are checked by `validate`. That routine swaps the digits pairwise,
sums them, and computes an 8-bit CRC (polynomial 0x07, start 0x43) that skips
the rolling code. Only the sum decides the result.

Modules:

- `Wrappers`: the `Option` type.
- `Codec`: the digit conversions `getIntFromChar`, `getIntFromString` and
  `getDoubleFromString`, with their `-1` sentinels.
  - Each conversion has a reference fold (`Fold`) and its inverse (`ToDigits`).
- `Validator`: `validate` as a method with loops. It is proved against the functions
  `Working` (the pairwise swap), `Sum` and `Crc`.
- `OregonDecoding`: value definitions of the sensor state (`Reading`), the two
  layouts, `decode`, the `OregonSensorV2` constructor and `getRightSensor`.
- `Sensors`: the `Sensor` object with its fields. Its constructors and its decode
  methods update the object in place, as in the source. Each one is proved to leave
  exactly the state that `OregonDecoding` computes.
- `DecodingProperties`: what a decoded reading means, how the checksum protects it,
  and what does not affect the result.
- `Captures`, `CaptureLog`, `CrcCaptures`: all sixteen captures documented in the
  source's comments, each decoded to its reading: the two THGR122NX captures and the
  fourteen THN132N captures, counting `EA4C20809822D013` once although it appears twice.

Representation choices:

- Strings are the characters before the C terminator. Reading one element past the
  end gives `'\0'` (`Validator.CharAt`).
- Temperatures and humidities are integers in tenths: 22.9 °C is 229.
- C `int` values that meet `&`, `^` and shifts are 32-bit two's complement
  vectors (`Codec.DigitBits`). So the `-1` of a bad digit has every flag set.

Where the source's comments and its code disagree, the model follows the code:

- The comments give the THN132N capture `EA4C20809822D013` as 22.8 °C. Its
  digits 9, 2, 2 in the code's order `pt[10] pt[11] pt[8]` read as 22.9 °C.
- The comments give `EA4C20805208F813` as 08.5 °C. Its sign digit `pt[13]` is '8',
  which has bit 0x08 set, so the code reads -8.5 °C.
- The comments give the THGR122NX capture `1A2D1002300638042BB7` as -6 °C. The code
  reads -6.3 °C (`-63` tenths).

## Model

| member | source | states |
|---|---|---|
| Codec.DigitOf | Sensor.cpp:111-115 | the value of a character is in -1..15, and it is -1 exactly when the character is not one of 0-9, A-F |
| Codec.DigitOfIsTableIndex | Sensor.cpp:19-20 | the value of a character is its position in the `_hexDecod` table, and -1 exactly when it is not in the table |
| Codec.GetIntFromChar | Sensor.cpp:111-115 | the table scan returns the character's digit value, with -1 for a character not in the table |
| Codec.Fold | Sensor.cpp:120-130 | the digit fold is defined exactly when every character is a digit of the base, and then it is below base^length |
| Codec.FoldToDigits | Sensor.cpp:120-130 | reading back the `n` digits written for any value below base^n gives that value |
| Codec.ToDigitsFold | Sensor.cpp:120-130 | writing out what a digit string reads as gives the same string back |
| Codec.IntFromString | Sensor.cpp:120-130 | hex string to int: -1 exactly when some character is not a hex digit; otherwise a value below 16^length whose hex digits are the string |
| Codec.BcdTenths | Sensor.cpp:135-145 | BCD string to tenths: -1.0 exactly when some character is not a decimal digit; otherwise a value below 10^length whose decimal digits are the string, the last one being the tenths |
| Codec.GetIntFromString | Sensor.cpp:120-130 | the loop that accumulates `v*16 + digit` and stops at the first bad digit returns `IntFromString` |
| Codec.GetDoubleFromString | Sensor.cpp:135-145 | the loop that accumulates `v*10 + digit` and divides by 10 returns `BcdTenths` |
| Codec.RangeSum | Sensor.cpp:292-294 | the digit sum over a range of `n` characters, each bad one counting -1, lies between -n and 15n |
| Codec.FoldSnoc | Sensor.cpp:122-128 | one more character extends the fold by one `v*base + digit` step, or makes it undefined |
| Codec.HexPair | Sensor.cpp:120-130 | a two-character hex string reads as 16*first + second, or -1 |
| Codec.HexQuad | Sensor.cpp:206-207 | a four-digit id reads as 4096a + 256b + 16c + d |
| Codec.BcdTriple | Sensor.cpp:135-145 | a three-character BCD string reads as 100a + 10b + c tenths, or -1.0 |
| Codec.BcdTrailingZero | Sensor.cpp:365 | a BCD string ending in the constant '0' reads as a whole number |
| Validator.Working | Sensor.cpp:424-430 | the pairwise swap keeps the length |
| Validator.WorkingInvolution | Sensor.cpp:424-430 | swapping an even-length prefix twice gives the prefix back |
| Validator.CharAt | Sensor.cpp:427-430 | the character at an index of the string, and the terminator '\0' one past its end |
| Validator.Round | Sensor.cpp:441-446 | one CRC shift round leaves an 8-bit value |
| Validator.Rounds | Sensor.cpp:441-446 | one or more rounds leave an 8-bit value |
| Validator.Step | Sensor.cpp:435-447 | one main-loop iteration: the digit XOR-ed into the CRC, then four rounds except at the rolling indices 6 and 7; after the rounds the CRC is a byte |
| Validator.StepDigit | Sensor.cpp:437-447 | the XOR and the four-round loop compute `Step` |
| Validator.CrcUpTo | Sensor.cpp:433-448 | the CRC after the main loop has read working indices 1 to j-1, starting from 0x43; it is a byte after every index at which rounds ran |
| Validator.Crc | Sensor.cpp:433-458 | the main loop, then four more rounds when the length is even; the result is a byte when the length is even or the last index had rounds |
| Validator.Sum | Sensor.cpp:433-436 | the sum of the working copy's digits from index 1, between -(n-1) and 15(n-1) for n digits |
| Validator.Validate | Sensor.cpp:417-470 | the swap and the two loops compute `Sum` and `Crc` of the swapped string; the result is true exactly when the sum equals the transmitted checksum |
| Validator.SumOfWorking | Sensor.cpp:424-436 | the sum from digit 1 of the swapped string is the sum of the original's first `len` digits minus its digit 1 |
| Validator.CrcUpToIsByte | Sensor.cpp:433-448 | the running CRC of a hex string stays within 8 bits |
| Validator.StepIsByte | Sensor.cpp:435-447 | one step of the main loop keeps an 8-bit CRC within 8 bits |
| Validator.BadRollingDigitLeavesByte | Sensor.cpp:437-440 | a non-hex digit at working index 6 takes the running CRC out of the byte range, because it is XOR-ed in as -1 with no rounds after it |
| Validator.CrcSeesRollingOnlyByXor | Sensor.cpp:439-447 | two strings that differ only at positions 6 and 7 have the same CRC when the XOR of those two digits agrees |
| Validator.CrcAgreesBelow | Sensor.cpp:433-448 | the running CRC depends only on the digits read so far |
| Validator.RollingPair | Sensor.cpp:437-440 | digits 6 and 7 enter the CRC only as one XOR |
| OregonDecoding.Fields | Sensor.cpp:283-289 | the fields both layouts share, read at pt[4], pt[9], pt[10] pt[11] pt[8] and pt[13]; the stored channel is never 4 and lies in -1..15, and the humidity is carried unchanged |
| OregonDecoding.THN132N | Sensor.cpp:260-321 | decode_THN132N as a value: a measure only for a 16-character body whose digit sum equals hex(pt[15] pt[12]); that measure has no humidity and a channel other than 4 |
| OregonDecoding.THGR122NX | Sensor.cpp:346-410 | decode_THGR122NX as a value: a measure only for a 20-character body that validate accepts against hex(pt[16] pt[17]); that measure has a humidity, a whole number of percent |
| OregonDecoding.Apply | Sensor.cpp:305-316 | the success writes: channel, battery and temperature with their have-flags, humidity only when the layout has one; validity, type and class untouched |
| OregonDecoding.SensorId | Sensor.cpp:206-207 | the id hex(pt[0] pt[3] pt[2] pt[5]) is below 0x10000, and -1 exactly when one of those four characters is not a hex digit |
| OregonDecoding.Decode | Sensor.cpp:199-226 | decode as a value: validity and class untouched; on success the message is 21 or 25 characters long and sensorType is its id; on failure the fields are unchanged except a recognised sensorType |
| OregonDecoding.OregonV2Reading | Sensor.cpp:173-176 | the state an OregonSensorV2 is constructed with: class Oregon Scientific, and valid only for a message of 21 or 25 characters |
| OregonDecoding.RightSensor | Sensor.cpp:153-169 | getRightSensor as a value: a reading only for a message longer than four characters that starts with "OSV2", and that reading has class Oregon Scientific |
| Sensors.Sensor.constructor | Sensor.cpp:24-41 | a new Sensor has every field at its default: no data, channel -1, type -1, class none |
| Sensors.Sensor.OregonV2 | Sensor.cpp:173-176 | a new OregonSensorV2 is the Sensor defaults with class Oregon Scientific, and `isValid` is the result of decoding the message |
| Sensors.Sensor.GetRightSensor | Sensor.cpp:153-169 | the result is null exactly when the message is not longer than four characters or does not start with "OSV2"; otherwise it is a new object whose state is what the OSV2 constructor gives |
| Sensors.Sensor.Decode | Sensor.cpp:199-226 | decode's result and new state are those of `OregonDecoding.Decode`: a message of 12 or more characters whose id `pt[0] pt[3] pt[2] pt[5]` is 1D20 or EC40 sets `sensorType` and runs that layout's decoder; anything else changes nothing and fails |
| Sensors.Sensor.DecodeTHN132N | Sensor.cpp:260-321 | accepted exactly when the layout accepts the body; on success the decoded channel, battery and temperature are written and humidity is cleared; on failure nothing changes |
| Sensors.Sensor.ReadTHN132N | Sensor.cpp:283-302 | the conversions and the checksum comparison give the layout's verdict and measure |
| Sensors.Sensor.FieldsTHN132N | Sensor.cpp:283-289 | the field conversions: channel 4 becomes 3, battery is the 0x04 bit of its digit, and a sign digit with bit 0x08 negates the temperature |
| Sensors.Sensor.SumTHN132N | Sensor.cpp:292-294 | the checksum loop sums digit 0, digits 2 to 11 and digit 13 |
| Sensors.Sensor.DecodeTHGR122NX | Sensor.cpp:346-410 | accepted exactly when the layout accepts the 20-character body; on success channel, battery, temperature and humidity are written; on failure nothing changes |
| Sensors.Sensor.ReadTHGR122NX | Sensor.cpp:358-390 | the conversions and the `validate` call give the layout's verdict and measure |
| Sensors.Sensor.Store | Sensor.cpp:305-316 | the success path writes the measure's fields and their have-flags, and nothing else |
| DecodingProperties.ValidIff | Sensor.cpp:199-226 | a decoded message is valid exactly when it has length 21 with id EC40 and a matching THN132N sum, or length 25 with id 1D20 and a matching THGR122NX sum |
| DecodingProperties.THGR122NXSumIsSpanSum | Sensor.cpp:424-436 | the sum `validate` checks for THGR122NX is that of body digits 0..15 without digit 1 |
| DecodingProperties.FailureKeepsDefaults | Sensor.cpp:173-176 | a message that fails to decode leaves every measured field at its constructor default; only the class and a recognised type are set |
| DecodingProperties.SuccessFields | Sensor.cpp:305-316 | a valid message is 21 or 25 characters long, and its channel, battery, temperature and humidity are the conversions of the characters at their layout offsets |
| DecodingProperties.ChannelRange | Sensor.cpp:305-306 | a decoded channel is never 4 and lies in -1..15 |
| DecodingProperties.HumidityWholePercent | Sensor.cpp:365 | the humidity is always a whole percent, because its tenths digit is the constant '0' |
| DecodingProperties.BadDigitFlags | Sensor.cpp:285-287 | a non-hex battery or sign digit (-1) reads as battery low and as negative |
| DecodingProperties.ValidDigitFlags | Sensor.cpp:285-287 | for a hex digit, the battery flag is bit 2 and the sign flag is bit 3 |
| DecodingProperties.DependsOnBodyOnly | Sensor.cpp:199-226 | the header and sync characters do not affect the reading |
| DecodingProperties.UnknownSubProtocol | Sensor.cpp:199-226 | a short message or an unknown id gives the OSV2 constructor's defaults and an invalid reading |
| DecodingProperties.RightSensorNullIff | Sensor.cpp:153-169 | no object exactly when the message is not an OSV2 message longer than four characters; otherwise the object holds the OSV2 reading |
| DecodingProperties.AccessorsOfDecoded | Sensor.cpp:46-107 | the accessors of a decoded message: temperature, channel and decoded status are available exactly when it is valid, humidity only for THGR122NX, and battery low per the flag bit |
| DecodingProperties.CorruptChecksumRejected | Sensor.cpp:276-302 | changing one character of a valid message's hex checksum makes it invalid |
| DecodingProperties.CorruptTHN132NChecksum | Sensor.cpp:276-302 | for THN132N, a changed checksum character makes the message invalid |
| DecodingProperties.CorruptTHGR122NXChecksum | Sensor.cpp:366-390 | for THGR122NX, a changed checksum character makes the message invalid |
| DecodingProperties.ChangedTHN132NChecksum | Sensor.cpp:276-302 | a THN132N body whose hex checksum characters alone are changed is rejected |
| DecodingProperties.WorkingAgrees | Sensor.cpp:424-430 | the swapped string depends only on the first `len` characters |
| DecodingProperties.ChecksumPairChanged | Sensor.cpp:120-130 | two different two-character strings, the first all hex digits, read as different values |
| DecodingProperties.SumAgrees | Sensor.cpp:433-436 | the digit sum depends only on the digits inside its range |
| DecodingProperties.CrcSeesRollingCodeByXor | Sensor.cpp:439-447 | the CRC of a THGR122NX body sees the two rolling-code digits only through their XOR |
| DecodingProperties.SwapKeepsRollingPair | Sensor.cpp:424-430 | the swap moves the rolling digits pt[6], pt[7] to working indices 7, 6 and keeps two bodies that agree elsewhere in agreement |
| DecodingProperties.TransmittedCrcIgnored | Sensor.cpp:462-463 | changing a transmitted CRC character of a THGR122NX message changes nothing in the reading |
| Captures.THN132NAccepts | Sensor.cpp:292-316 | a 16-character body whose digit sum equals the transmitted checksum is accepted with the shared fields and no humidity |
| Captures.THGR122NXAccepts | Sensor.cpp:358-405 | a 20-character body whose validate sum equals the transmitted checksum is accepted with the shared fields and its humidity |
| Captures.THN132NMessage | Sensor.cpp:199-226 | an accepted THN132N body sent with id EC40 gives the constructor defaults overwritten by its measure, with sensorType EC40 and the reading valid |
| Captures.THN132NCapture | Sensor.cpp:193-196 | capture EA4C20809822D013 decodes as THN132N, channel 2, battery ok, 22.9 °C, no humidity |
| Captures.THN132NCaptureBody | Sensor.cpp:260-321 | the THN132N layout accepts that body and reads that measure |
| Captures.THN132NNegativeCapture | Sensor.cpp:245 | capture EA4C2080021368A3 decodes as -13.0 °C on channel 2 |
| Captures.THN132NBadDigitsAccepted | Sensor.cpp:283-302 | a body with non-hex channel and battery digits whose -1 sentinels balance the sum is accepted with channel -1 and battery low |
| Captures.THGR122NXCapture | Sensor.cpp:186-192 | capture 1A2D1002502060552A4C decodes as THGR122NX, channel 1, battery ok, 20.5 °C, 56.0 % humidity |
| Captures.THGR122NXCaptureBody | Sensor.cpp:346-410 | the THGR122NX layout accepts that body and reads that measure |
| Captures.THGR122NXNegativeCapture | Sensor.cpp:329 | capture 1A2D1002300638042BB7 decodes as -6.3 °C and 43.0 % humidity |
| Captures.UnknownHeader | Sensor.cpp:153-169 | a message without the OSV2 header, or of only four characters, gets no object |
| Captures.UnknownIdCapture | Sensor.cpp:199-226 | a body whose id reads 1D21 is rejected with sensorType left at -1 |
| CaptureLog.THN132NLog5208 | Sensor.cpp:234 | capture EA4C20805208F813 decodes as THN132N, channel 2, battery ok, -8.5 °C, no humidity |
| CaptureLog.THN132NLog0201 | Sensor.cpp:235 | capture EA4C20800201B082 decodes as THN132N, channel 2, battery ok, 1.0 °C, no humidity |
| CaptureLog.THN132NLog7202 | Sensor.cpp:236 | capture EA4C208072023053 decodes as THN132N, channel 2, battery ok, 2.7 °C, no humidity |
| CaptureLog.THN132NLog2204 | Sensor.cpp:237 | capture EA4C208022040073 decodes as THN132N, channel 2, battery ok, 4.2 °C, no humidity |
| CaptureLog.THN132NLog6206 | Sensor.cpp:238 | capture EA4C208062066063 decodes as THN132N, channel 2, battery ok, 6.6 °C, no humidity |
| CaptureLog.THN132NLog9210 | Sensor.cpp:239 | capture EA4C2080921040C3 decodes as THN132N, channel 2, battery ok, 10.9 °C, no humidity |
| CaptureLog.THN132NLog4211 | Sensor.cpp:240 | capture EA4C208042110033 decodes as THN132N, channel 2, battery ok, 11.4 °C, no humidity |
| CaptureLog.THN132NLog1212 | Sensor.cpp:241 | capture EA4C20801212E002 decodes as THN132N, channel 2, battery ok, 12.1 °C, no humidity |
| CaptureLog.THN132NLog6234 | Sensor.cpp:242 | capture EA4C2080623470C3 decodes as THN132N, channel 2, battery ok, 34.6 °C, no humidity |
| CaptureLog.THN132NLog5231 | Sensor.cpp:243 | capture EA4C208052313043 decodes as THN132N, channel 2, battery ok, 31.5 °C, no humidity |
| CaptureLog.THN132NLog9207 | Sensor.cpp:244 | capture EA4C2080920728F4 decodes as THN132N, channel 2, battery ok, -7.9 °C, no humidity |
| CaptureLog.THN132NLog7019 | Sensor.cpp:246 | capture EA4C208070199043 decodes as THN132N, channel 2, battery ok, 19.7 °C, no humidity |
| CrcCaptures.THGR122NXCaptureCrc | Sensor.cpp:328-332 | the CRC computed over that capture's swapped digits is 0x4C, the transmitted CRC |
| CrcCaptures.THGR122NXNegativeCaptureCrc | Sensor.cpp:329 | the CRC computed over the negative capture's swapped digits is 0xB7, the transmitted CRC |

## Left out

- test.cpp, and the I/O that delivers messages to the decoder: they are outside the decoder.
- Debug and trace output (`SENSORDEBUG`, `SENSORTRACE`): it only prints.
- The creation timestamp of a Sensor: it is a clock read. The model has no such field.
- Floating point: temperatures and humidities are integer tenths. `-dtemp` of a zero temperature (-0.0) is 0 here. The negation of the -1.0 sentinel gives +1.0, as in the source.
- Heap management (`new`, `delete` of a rejected object): it has no effect on the decoded values. `GetRightSensor` returns a fresh object and nothing is freed.
- Sensor.h is not part of this model. The `SENS_CLASS` values are the datatype `OregonDecoding.SensorClass`, and ids 0x1D20 and 0xEC40 are constants.
- Codec.IntFromString: does not model C `int` overflow, which needs strings of 8 or more hex characters; the decoder only converts 2- and 4-character strings.
- The fixed 100-character buffer of `validate`: `Validator.Validate` requires `len < 100`, and the decoder passes 16.
- Shifts and `&` on negative C `int` values are modelled as 32-bit two's complement, which is what the compilers the source targets do.
- The rolling code is converted in both decoders and never used. The model converts it and discards it.
- Validator.Validate: also returns the computed sum and CRC, which the source only prints; the boolean result is as in the source.
- Sensors.Sensor.AvailableTemp, Sensors.Sensor.AvailableHumidity, Sensors.Sensor.IsBatteryLow, Sensors.Sensor.HasChannel, Sensors.Sensor.IsDecoded: the accessors are predicates over the fields, as in the source, and carry no contract of their own; `DecodingProperties.AccessorsOfDecoded` states what they return after decoding. The plain getters (`getTemperature`, `getHumidity`, `getChannel`, `getSensClass`, `getSensType`) are the fields themselves.
- C strings end at their first '\0'; the model's strings are any character sequence and do not exclude '\0'. A message holding '\0' stands for the shorter string before it, so `DecodingProperties.TransmittedCrcIgnored` replaces a CRC character only by a character other than '\0'.
