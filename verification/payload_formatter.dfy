/** The uplink payload formatter of the people-counting sensor: `decodeUplink`
    turns the sensor's fixed-layout binary payload into a reading plus advisory
    warnings. It never fails: every field read past the end of a short payload
    takes a fixed default.

    Layout (offsets 0-based, multi-byte fields big-endian):
      0-1 BLE device count (u16), 2-3 WiFi device count (u16),
      4-5 total device count (u16), 6 crowd level (u8),
      7 beacon-detected flag (1 means detected), 8 beacon RSSI (i8),
      9 environment type (u8). */
module PayloadFormatter {
  import opened Bytes

  /** The `data` object of a decoded uplink. */
  datatype Reading = Reading(
    bleCount: int,
    wifiCount: int,
    totalCount: int,
    crowdLevel: int,
    crowdLevelText: string,
    beaconDetected: bool,
    beaconRssi: int,
    environmentType: int,
    environmentText: string)

  /** The object `decodeUplink` hands back to the network server. */
  datatype Uplink = Uplink(warnings: seq<string>, data: Reading)

  /** Number of bytes in a complete payload. */
  const FullLength := 10
  /** Number of bytes below which even the core fields are missing. */
  const CoreLength := 7

  const TooShortWarning := "Payload too short: fewer than 7 bytes - unexpected payload"
  const ShortPayloadWarning := "Short payload detected (7 bytes) - extended fields defaulted"

  const CrowdLevelNames: seq<string> := ["CALM", "MODERATE", "CROWDED"]
  const EnvironmentNames: seq<string> := ["STATIC", "MOBILE", "UNKNOWN"]
  const UnknownText := "UNKNOWN"

  /** Default values of the fields that lie past the end of a short payload. */
  const DefaultCrowdLevel := 0
  const DefaultBeaconByte := 0
  const DefaultRssi := -128
  const DefaultEnvironmentType := 2

  /** The byte at `idx`, or `None` (JavaScript's `undefined`) past the end. */
  function ByteAt(bytes: seq<byte>, idx: nat): (r: Option<byte>)
    ensures r.Some? <==> idx < |bytes|
    ensures r.Some? ==> r.value == bytes[idx]
  {
    if idx < |bytes| then Some(bytes[idx]) else None
  }

  /** Unsigned 16-bit big-endian read of the pair at `idx`; 0 unless BOTH
      bytes of the pair are present. */
  function U16At(bytes: seq<byte>, idx: nat): (v: int)
    ensures 0 <= v < 65536
    ensures idx + 1 < |bytes| ==> v == BigEndian(bytes[idx..idx + 2])
    ensures |bytes| <= idx + 1 ==> v == 0
  {
    if |bytes| > idx + 1 then
      var v := (bytes[idx] as int) * 256 + bytes[idx + 1] as int;
      BigEndianPair(bytes[idx], bytes[idx + 1]);
      assert bytes[idx..idx + 2] == [bytes[idx], bytes[idx + 1]];
      v
    else
      0
  }

  /** Two's-complement reading of a byte as a signed 8-bit integer, or
      `default` when the byte is absent. The result is the unique value in
      -128..127 congruent to the byte modulo 256. */
  function ToInt8(raw: Option<byte>, default: int): (r: int)
    ensures raw.Some? ==> -128 <= r < 128 && (r - raw.value) % 256 == 0
    ensures raw.None? ==> r == default
  {
    match raw
    case None => default
    case Some(val) => if val > 127 then val - 256 else val
  }

  /** Unsigned 8-bit read at `idx`, or `default` past the end. */
  function GetByte(bytes: seq<byte>, idx: nat, default: int): (r: int)
    ensures idx < |bytes| ==> r == bytes[idx]
    ensures |bytes| <= idx ==> r == default
  {
    if |bytes| > idx then bytes[idx] else default
  }

  /** Entry `code` of `table`, or "UNKNOWN" when the code is past its end. */
  function Lookup(table: seq<string>, code: int): (text: string)
    requires 0 <= code
    ensures code < |table| ==> text == table[code]
    ensures |table| <= code ==> text == UnknownText
  {
    if code < |table| then table[code] else UnknownText
  }

  function CrowdLevelText(level: int): (text: string)
    requires 0 <= level
    ensures text in CrowdLevelNames + [UnknownText]
  {
    Lookup(CrowdLevelNames, level)
  }

  function EnvironmentText(envType: int): (text: string)
    requires 0 <= envType
    ensures text in EnvironmentNames
  {
    Lookup(EnvironmentNames, envType)
  }

  /** The advisory warnings for a payload of `len` bytes: at most one. */
  function Warnings(len: nat): (w: seq<string>)
    ensures |w| <= 1
    ensures w == [] <==> FullLength <= len
    ensures w == [TooShortWarning] <==> len < CoreLength
    ensures w == [ShortPayloadWarning] <==> CoreLength <= len < FullLength
  {
    if len < CoreLength then [TooShortWarning]
    else if len < FullLength then [ShortPayloadWarning]
    else []
  }

  /** Everything a decoded reading can be: each field in the range of its
      wire width, and each text field the table entry of its code. */
  predicate ValidReading(d: Reading)
  {
    && 0 <= d.bleCount < 65536
    && 0 <= d.wifiCount < 65536
    && 0 <= d.totalCount < 65536
    && 0 <= d.crowdLevel < 256
    && -128 <= d.beaconRssi < 128
    && 0 <= d.environmentType < 256
    && d.crowdLevelText == CrowdLevelText(d.crowdLevel)
    && d.environmentText == EnvironmentText(d.environmentType)
  }

  /** `decodeUplink`: total on every byte sequence, including the empty one. */
  function Decode(bytes: seq<byte>): (u: Uplink)
    ensures ValidReading(u.data)
    ensures |u.warnings| <= 1
  {
    var len := |bytes|;
    var crowdLevel := GetByte(bytes, 6, DefaultCrowdLevel);
    var environmentType := GetByte(bytes, 9, DefaultEnvironmentType);
    Uplink(
      Warnings(len),
      Reading(
        bleCount := U16At(bytes, 0),
        wifiCount := U16At(bytes, 2),
        totalCount := U16At(bytes, 4),
        crowdLevel := crowdLevel,
        crowdLevelText := CrowdLevelText(crowdLevel),
        beaconDetected := GetByte(bytes, 7, DefaultBeaconByte) == 1,
        beaconRssi := ToInt8(if len > 8 then Some(bytes[8]) else None, DefaultRssi),
        environmentType := environmentType,
        environmentText := EnvironmentText(environmentType)))
  }
}
