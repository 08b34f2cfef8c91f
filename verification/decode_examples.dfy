/** Concrete payloads and what they decode to: the empty payload, a single
    byte, the 7-byte core payload and the full 10-byte payload. */
module DecodeExamples {
  import opened Bytes
  import opened PayloadFormatter

  /** Every field at its default; the "fewer than 7 bytes" warning. */
  lemma EmptyPayload()
    ensures Decode([]) == Uplink(
      ["Payload too short: fewer than 7 bytes - unexpected payload"],
      Reading(0, 0, 0, 0, "CALM", false, -128, 2, "UNKNOWN"))
  {
  }

  /** A lone first byte does not make a count: the BLE count stays 0. */
  lemma OneBytePayload(b0: byte)
    ensures Decode([b0]).data.bleCount == 0
    ensures Decode([b0]).warnings == ["Payload too short: fewer than 7 bytes - unexpected payload"]
  {
  }

  /** The 7-byte core payload: counts and crowd level read, the rest defaulted. */
  lemma CorePayload()
    ensures Decode([0x00, 0x05, 0x00, 0x03, 0x00, 0x08, 0x01]) == Uplink(
      ["Short payload detected (7 bytes) - extended fields defaulted"],
      Reading(5, 3, 8, 1, "MODERATE", false, -128, 2, "UNKNOWN"))
  {
  }

  /** A complete payload: RSSI byte 0xFF reads as -1, no warnings. */
  lemma FullPayload()
    ensures Decode([0, 1, 0, 2, 0, 3, 2, 1, 0xFF, 1]) == Uplink(
      [],
      Reading(1, 2, 3, 2, "CROWDED", true, -1, 1, "MOBILE"))
  {
  }

  /** A crowd-level code past the table is kept as is and labelled UNKNOWN. */
  lemma OutOfTableCrowdLevel()
    ensures Decode([0, 0, 0, 0, 0, 0, 5]).data.crowdLevel == 5
    ensures Decode([0, 0, 0, 0, 0, 0, 5]).data.crowdLevelText == "UNKNOWN"
  {
  }
}
