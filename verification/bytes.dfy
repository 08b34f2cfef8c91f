/** Bytes as the uplink decoder sees them, and an independent reference for
    unsigned big-endian integers against which the decoder's 16-bit reads are
    checked. */
module Bytes {

  /** An unsigned 8-bit value. Every element of an uplink payload is one; the
      decoder's `& 0xFF` masks are the identity on this type. */
  type byte = x: int | 0 <= x < 256

  /** Optional value, used for a read past the end of the payload
      (JavaScript's `undefined`). */
  datatype Option<+T> = None | Some(value: T) {
    /** The carried value, or `default` when there is none. */
    function GetOr(default: T): (r: T)
      ensures Some? ==> r == value
      ensures None? ==> r == default
    {
      match this
      case Some(v) => v
      case None => default
    }
  }

  /** 256 to the power `n`: the number of distinct values of an `n`-byte field. */
  function Pow256(n: nat): (p: nat)
    ensures p >= 1
    ensures n > 0 ==> p >= 256
  {
    if n == 0 then 1 else 256 * Pow256(n - 1)
  }

  /** The unsigned integer whose big-endian encoding is `s`: the first byte is
      the most significant one. */
  function BigEndian(s: seq<byte>): nat
  {
    if |s| == 0 then 0 else BigEndian(s[..|s| - 1]) * 256 + s[|s| - 1]
  }

  /** An `n`-byte big-endian value fits in `n` bytes. */
  lemma {:induction false} BigEndianBound(s: seq<byte>)
    ensures BigEndian(s) < Pow256(|s|)
  {
    if |s| > 0 {
      var init := s[..|s| - 1];
      BigEndianBound(init);
      var hi := BigEndian(init);
      var p := Pow256(|init|);
      assert hi <= p - 1;
      assert hi * 256 <= (p - 1) * 256;
    }
  }

  /** A two-byte big-endian value: high byte times 256 plus low byte. */
  lemma BigEndianPair(hi: byte, lo: byte)
    ensures BigEndian([hi, lo]) == hi * 256 + lo
    ensures BigEndian([hi, lo]) < 65536
  {
    assert [hi, lo][..1] == [hi];
    assert [hi][..0] == [];
    assert BigEndian([hi]) == hi;
  }

  /** Two-byte big-endian encodings are injective: the value determines both
      bytes, the high one by division and the low one by remainder. */
  lemma BigEndianPairInjective(hi: byte, lo: byte, hi': byte, lo': byte)
    requires BigEndian([hi, lo]) == BigEndian([hi', lo'])
    ensures hi == hi' && lo == lo'
  {
  }
}
