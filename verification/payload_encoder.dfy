/** The inverse of `decodeUplink`: the 10-byte payload a sensor would send for
    a given reading. The decoder has no encoding path of its own; this one
    exists so that the decoder's layout can be checked by round trips. */
module PayloadEncoder {
  import opened Bytes
  import opened PayloadFormatter

  /** Two's-complement byte of a signed 8-bit value. */
  function FromInt8(v: int): (b: byte)
    requires -128 <= v < 128
    ensures ToInt8(Some(b), DefaultRssi) == v
  {
    if v < 0 then v + 256 else v
  }

  /** Sign extension followed by re-encoding gives the byte back. */
  lemma FromInt8ToInt8(b: byte)
    ensures FromInt8(ToInt8(Some(b), DefaultRssi)) == b
  {
  }

  /** The full-length payload carrying reading `d`; the beacon flag is sent as
      1 or 0. */
  function Encode(d: Reading): (bytes: seq<byte>)
    requires ValidReading(d)
    ensures |bytes| == FullLength
  {
    [ d.bleCount / 256, d.bleCount % 256,
      d.wifiCount / 256, d.wifiCount % 256,
      d.totalCount / 256, d.totalCount % 256,
      d.crowdLevel,
      if d.beaconDetected then 1 else 0,
      FromInt8(d.beaconRssi),
      d.environmentType ]
  }

  /** Every reading the decoder can produce is recovered from its encoding,
      with no warnings. */
  lemma DecodeEncode(d: Reading)
    requires ValidReading(d)
    ensures Decode(Encode(d)) == Uplink([], d)
  {
  }

  /** A full-length payload whose beacon flag byte is 0 or 1 is exactly the
      encoding of what it decodes to. */
  lemma EncodeDecode(bytes: seq<byte>)
    requires |bytes| == FullLength
    requires bytes[7] <= 1
    ensures Encode(Decode(bytes).data) == bytes
  {
  }
}
