# People-counter uplink decoder, modelled in Dafny

The sensor sends a fixed-layout binary uplink over LoRaWAN. The network
server's payload formatter, `decodeUplink`, turns it into a reading. The
reading has the BLE, WiFi and total device counts, a crowd level with its
text, the beacon-detected flag, the beacon RSSI, and an environment type with
its text. It also returns at most one advisory warning about truncation. The
decoder never fails: a field past the end of a short payload takes a fixed
default.

Layout (0-based offsets, big-endian):

| offset | field | rule | default when absent |
|---|---|---|---|
| 0-1, 2-3, 4-5 | BLE / WiFi / total count | `256*b[i] + b[i+1]` | 0 (also when only the first byte is present) |
| 6 | crowd level | raw byte | 0 |
| 7 | beacon detected | byte equals 1 | false |
| 8 | beacon RSSI | two's complement | -128 |
| 9 | environment type | raw byte | 2 |

Files:

- `bytes.dfy` (module `Bytes`): the `byte` type and an `Option` for reads past the end. It also holds `BigEndian`, a reference definition of unsigned big-endian integers, with its bound and injectivity lemmas.
- `payload_formatter.dfy` (module `PayloadFormatter`): the `Reading` and `Uplink` datatypes. It holds the helpers `U16At`, `ToInt8` and `GetByte`, the two text tables, the warning policy and `Decode` itself.
- `decode_properties.dfy` (module `DecodeProperties`): properties of `Decode` on every payload. They cover layout, defaults, bounds, tables, warnings, and locality (bytes past index 9 are never read).
- `payload_encoder.dfy` (module `PayloadEncoder`): `Encode`, an inverse of the decoder, with round-trip lemmas in both directions. The repository has no encoder; this one exists only as a partner for the decoder.
- `decode_examples.dfy` (module `DecodeExamples`): concrete payloads of length 0, 1, 7 and 10, and an out-of-table crowd level.

Payload bytes are `seq<byte>`, with `byte` the integers `0..255`. On such
values the source's `& 0xFF` masks and the final `>>> 0` are the identity. An
absent `input.bytes` becomes the empty sequence. Decoding is a Dafny
function, so it is deterministic by construction.

## Model

| member | source | states |
|---|---|---|
| PayloadFormatter.Decode | LoRaWAN/payload_formatter.js:1-51 | defined for every byte sequence, including the empty one; every count lies in 0..65535, crowd level and environment type in 0..255, RSSI in -128..127; each text is its code's table entry; at most one warning |
| PayloadFormatter.U16At | LoRaWAN/payload_formatter.js:6-11 | when both bytes of the pair are present, the result equals the independent big-endian reference value of those two bytes; otherwise it is 0; it always lies in 0..65535 |
| PayloadFormatter.ToInt8 | LoRaWAN/payload_formatter.js:14-18 | for a present byte, the result is the unique value in -128..127 congruent to the byte modulo 256; for an absent byte, it is the caller's default |
| PayloadFormatter.GetByte | LoRaWAN/payload_formatter.js:20 | a read inside the payload gives the byte; a read past the end gives the caller's default |
| PayloadFormatter.ByteAt | LoRaWAN/payload_formatter.js:27 | the RSSI operand is present exactly when the index lies inside the payload, and then it is that byte |
| PayloadFormatter.Lookup | LoRaWAN/payload_formatter.js:30-31 | a code inside the table gives its entry; a code past the end gives "UNKNOWN" |
| PayloadFormatter.CrowdLevelText | LoRaWAN/payload_formatter.js:30 | the text is one of CALM, MODERATE, CROWDED or UNKNOWN |
| PayloadFormatter.EnvironmentText | LoRaWAN/payload_formatter.js:31 | the text is one of STATIC, MOBILE or UNKNOWN |
| PayloadFormatter.Warnings | LoRaWAN/payload_formatter.js:33-35 | at most one warning. The "too short" message is given exactly when length < 7. The "Short payload detected (7 bytes)" message is given exactly when 7 <= length < 10, so also for 8 and 9 bytes. No warning is given exactly when length >= 10 |
| Bytes.BigEndianBound | LoRaWAN/payload_formatter.js:8 | an n-byte big-endian value is below 256^n |
| Bytes.BigEndianPair | LoRaWAN/payload_formatter.js:8 | the big-endian value of a byte pair is high*256 + low, below 65536 |
| Bytes.BigEndianPairInjective | LoRaWAN/payload_formatter.js:8 | two byte pairs with the same big-endian value are the same pair |
| DecodeProperties.CountsLayout | LoRaWAN/payload_formatter.js:6-11 | the BLE, WiFi and total counts are `256*b[i] + b[i+1]` for i = 0, 2, 4 when the payload is longer than i+1. Otherwise they are 0, never a partial value from the first byte alone |
| DecodeProperties.CountsDetermineBytes | LoRaWAN/payload_formatter.js:22-24 | equal decoded counts at the same offset imply equal byte pairs |
| DecodeProperties.RssiLayout | LoRaWAN/payload_formatter.js:27 | RSSI is b[8] when b[8] <= 127 and b[8] - 256 otherwise. It is -128 when the payload has at most 8 bytes. It always lies in -128..127 |
| DecodeProperties.CodesPassThrough | LoRaWAN/payload_formatter.js:25-28 | crowd level is b[6], or 0 when absent. Environment type is b[9], or 2 when absent. Both are kept unchanged even outside their tables |
| DecodeProperties.BeaconDetectedIff | LoRaWAN/payload_formatter.js:26 | the beacon is detected if and only if byte 7 is present and equals 1 |
| DecodeProperties.CrowdLevelTextTable | LoRaWAN/payload_formatter.js:30 | CALM, MODERATE and CROWDED each name exactly one of the codes 0, 1, 2. UNKNOWN is given exactly for codes >= 3 |
| DecodeProperties.EnvironmentTextTable | LoRaWAN/payload_formatter.js:31 | STATIC names exactly code 0 and MOBILE exactly code 1. UNKNOWN is given exactly for codes >= 2 |
| DecodeProperties.WarningsPolicy | LoRaWAN/payload_formatter.js:33-35 | the decoded warnings are the literal messages for lengths < 7 and 7..9. The list is empty if and only if the length is >= 10 |
| DecodeProperties.DecodeReadsOnlyFirstTen | LoRaWAN/payload_formatter.js:6-28 | two payloads that agree on min(length, 10) and on their bytes below it decode identically. So only indices 0..9 inside the payload are ever read |
| DecodeProperties.DecodeIgnoresTrailingBytes | LoRaWAN/payload_formatter.js:6-28 | for a payload of 10 or more bytes, decoding equals decoding its first 10 bytes |
| PayloadEncoder.FromInt8 | LoRaWAN/payload_formatter.js:14-18 | re-encoding a signed 8-bit value gives a byte that sign-extends back to it |
| PayloadEncoder.FromInt8ToInt8 | LoRaWAN/payload_formatter.js:14-18 | sign extension followed by re-encoding gives back the original byte |
| PayloadEncoder.Encode | LoRaWAN/payload_formatter.js:22-28 | every decodable reading has a full-length (10-byte) encoding |
| PayloadEncoder.DecodeEncode | LoRaWAN/payload_formatter.js:1-51 | decoding the encoding of any reading the decoder can produce gives back that reading, with no warnings |
| PayloadEncoder.EncodeDecode | LoRaWAN/payload_formatter.js:1-51 | a 10-byte payload whose flag byte is 0 or 1 equals the encoding of its decoded reading. So on such payloads the decoder loses no information |
| DecodeExamples.EmptyPayload | LoRaWAN/payload_formatter.js:1-51 | the empty payload decodes to all defaults (counts 0, CALM, not detected, -128, environment 2 UNKNOWN) with the "too short" warning |
| DecodeExamples.OneBytePayload | LoRaWAN/payload_formatter.js:7-10 | a single byte gives BLE count 0 and the "too short" warning |
| DecodeExamples.CorePayload | LoRaWAN/payload_formatter.js:1-51 | `00 05 00 03 00 08 01` decodes to 5, 3, 8, MODERATE, not detected, -128, environment 2 UNKNOWN, with the short-payload warning |
| DecodeExamples.FullPayload | LoRaWAN/payload_formatter.js:1-51 | `00 01 00 02 00 03 02 01 FF 01` decodes to 1, 2, 3, CROWDED, detected, RSSI -1, MOBILE, with no warnings |
| DecodeExamples.OutOfTableCrowdLevel | LoRaWAN/payload_formatter.js:25-30 | crowd-level byte 5 is reported as 5 with text UNKNOWN |

## Left out

- The network-server calling convention is not modelled. This covers the `input` object, `input.bytes` being absent (modelled as the empty payload), and metadata such as the port, which the decoder ignores. The result is the `Uplink` datatype instead of a JavaScript object.
- JavaScript coercion of array elements that are not bytes is not modelled. This covers values above 255 masked by `& 0xFF`, negative values, and non-integers. Payload elements are `byte` by type, so none arise.
- LoRaWAN/secrets_template.h and BLE_Beacon/beacon_secrets.h are not modelled. They only define compile-time credentials and identifiers for the device firmware, and they contain no logic.
- Narrower variants of the decoder, which omit the warnings and some derived fields, are not part of this model.
