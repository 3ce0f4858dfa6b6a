/** Machine integers and the little-endian encoding of a 32-bit word. */
module Bytes {
  type byte = x: int | 0 <= x < 256
  type u32 = x: int | 0 <= x < 0x1_0000_0000
  type Data = seq<byte>

  /** `u32::to_le_bytes`. */
  function Le32(x: u32): (r: Data)
    ensures |r| == 4
  {
    [x % 256, x / 256 % 256, x / 65536 % 256, x / 16777216]
  }

  /** `u32::from_le_bytes`. */
  function FromLe32(b: Data): u32
    requires |b| == 4
  {
    b[0] as int + 256 * b[1] as int + 65536 * b[2] as int + 16777216 * b[3] as int
  }

  /** The bytes spell the text in ASCII. */
  predicate Spells(b: Data, s: string) {
    |b| == |s| && forall i :: 0 <= i < |b| ==> b[i] as int == s[i] as int
  }

  lemma Le32RoundTrip(x: u32)
    ensures FromLe32(Le32(x)) == x
  {
    assert x / 65536 == x / 256 / 256 && x / 16777216 == x / 65536 / 256;
  }

  lemma LowByte(x: nat, low: byte, rest: nat)
    requires x == low + 256 * rest
    ensures x % 256 == low && x / 256 == rest
  {
  }

  lemma FromLe32RoundTrip(b: Data)
    requires |b| == 4
    ensures Le32(FromLe32(b)) == b
  {
    var x := FromLe32(b);
    var y := b[1] as int + 256 * b[2] as int + 65536 * b[3] as int;
    var z := b[2] as int + 256 * b[3] as int;
    LowByte(x, b[0], y);
    LowByte(y, b[1], z);
    LowByte(z, b[2], b[3]);
    assert x / 65536 == x / 256 / 256 && x / 16777216 == x / 65536 / 256;
  }
}
