/** What `decodeUplink` promises about every payload, stated directly on the
    bytes: the field layout, the defaults for a truncated payload, the bounds
    of every field, the text tables, the warning policy and the fact that
    nothing past byte 9 is ever looked at. */
module DecodeProperties {
  import opened Bytes
  import opened PayloadFormatter

  /** A 16-bit count read at `idx`: the big-endian pair when both bytes are
      present, and 0 otherwise. */
  ghost predicate CountLayout(bytes: seq<byte>, idx: nat, count: int)
  {
    && (idx + 1 < |bytes| ==> count == (bytes[idx] as int) * 256 + bytes[idx + 1] as int)
    && (|bytes| <= idx + 1 ==> count == 0)
  }

  /** The three counts sit big-endian at offsets 0, 2 and 4; a pair that is
      not complete reads as 0, never as its first byte times 256. */
  lemma CountsLayout(bytes: seq<byte>)
    ensures CountLayout(bytes, 0, Decode(bytes).data.bleCount)
    ensures CountLayout(bytes, 2, Decode(bytes).data.wifiCount)
    ensures CountLayout(bytes, 4, Decode(bytes).data.totalCount)
  {
  }

  /** Each count is exactly the big-endian value of its two bytes, so the
      count determines both bytes (no two pairs decode alike). */
  lemma CountsDetermineBytes(bytes: seq<byte>, bytes': seq<byte>, idx: nat)
    requires idx in {0, 2, 4}
    requires idx + 1 < |bytes| && idx + 1 < |bytes'|
    requires U16At(bytes, idx) == U16At(bytes', idx)
    ensures bytes[idx] == bytes'[idx] && bytes[idx + 1] == bytes'[idx + 1]
  {
  }

  /** The RSSI byte at offset 8 is read as two's complement; it defaults to
      -128 when the payload has no byte 8. */
  lemma RssiLayout(bytes: seq<byte>)
    ensures var rssi := Decode(bytes).data.beaconRssi;
      && -128 <= rssi <= 127
      && (8 < |bytes| && bytes[8] <= 127 ==> rssi == bytes[8])
      && (8 < |bytes| && 127 < bytes[8] ==> rssi == (bytes[8] as int) - 256)
      && (|bytes| <= 8 ==> rssi == -128)
  {
  }

  /** Crowd level (offset 6, default 0) and environment type (offset 9,
      default 2) are passed through as read, even when their tables have no
      entry for them. */
  lemma CodesPassThrough(bytes: seq<byte>)
    ensures Decode(bytes).data.crowdLevel == (if 6 < |bytes| then bytes[6] else 0)
    ensures Decode(bytes).data.environmentType == (if 9 < |bytes| then bytes[9] else 2)
  {
  }

  /** The beacon is reported detected exactly when byte 7 is present and
      equals 1. */
  lemma BeaconDetectedIff(bytes: seq<byte>)
    ensures Decode(bytes).data.beaconDetected <==> 7 < |bytes| && bytes[7] == 1
  {
  }

  /** The crowd-level text names codes 0, 1 and 2 and nothing else. */
  lemma CrowdLevelTextTable(level: int)
    requires 0 <= level
    ensures CrowdLevelText(level) == "CALM" <==> level == 0
    ensures CrowdLevelText(level) == "MODERATE" <==> level == 1
    ensures CrowdLevelText(level) == "CROWDED" <==> level == 2
    ensures CrowdLevelText(level) == "UNKNOWN" <==> 3 <= level
  {
  }

  /** The environment text names codes 0 and 1; code 2 and every code past
      the table read as "UNKNOWN". */
  lemma EnvironmentTextTable(envType: int)
    requires 0 <= envType
    ensures EnvironmentText(envType) == "STATIC" <==> envType == 0
    ensures EnvironmentText(envType) == "MOBILE" <==> envType == 1
    ensures EnvironmentText(envType) == "UNKNOWN" <==> 2 <= envType
  {
  }

  /** The warnings depend only on the payload length and there is at most
      one; a complete payload gets none. */
  lemma WarningsPolicy(bytes: seq<byte>)
    ensures |bytes| < 7 ==> Decode(bytes).warnings == ["Payload too short: fewer than 7 bytes - unexpected payload"]
    ensures 7 <= |bytes| < 10 ==> Decode(bytes).warnings == ["Short payload detected (7 bytes) - extended fields defaulted"]
    ensures 10 <= |bytes| <==> Decode(bytes).warnings == []
  {
  }

  /** Two payloads that agree on their length up to 10 and on the bytes
      below that bound decode identically: only indices 0..9 are read, and
      each only when it lies inside the payload. */
  lemma DecodeReadsOnlyFirstTen(bytes: seq<byte>, bytes': seq<byte>)
    requires Min(|bytes|, FullLength) == Min(|bytes'|, FullLength)
    requires bytes[..Min(|bytes|, FullLength)] == bytes'[..Min(|bytes'|, FullLength)]
    ensures Decode(bytes) == Decode(bytes')
  {
  }

  /** Bytes past index 9 never influence the result. */
  lemma DecodeIgnoresTrailingBytes(bytes: seq<byte>)
    requires FullLength <= |bytes|
    ensures Decode(bytes) == Decode(bytes[..FullLength])
  {
    DecodeReadsOnlyFirstTen(bytes, bytes[..FullLength]);
  }

  function Min(a: int, b: int): int
  {
    if a < b then a else b
  }
}
