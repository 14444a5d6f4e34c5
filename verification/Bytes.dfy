// Bytes, and 32-bit words stored little-endian in a byte buffer.
module Bytes {
  type byte = x: int | 0 <= x < 256
  type uint32 = x: int | 0 <= x < 0x1_0000_0000

  // The bytes that `*(uint32_t *)p = w` stores.
  function Store32(w: uint32): (b: seq<byte>)
    ensures |b| == 4
    ensures Load32(b) == w
  {
    var b0, r1 := w % 256, w / 256;
    var b1, r2 := r1 % 256, r1 / 256;
    [b0, b1, r2 % 256, r2 / 256]
  }

  // The word that `*(uint32_t *)p` loads.
  function Load32(b: seq<byte>): uint32
    requires |b| >= 4
  {
    (b[0] as int) + 256 * (b[1] as int) + 65536 * (b[2] as int) + 16777216 * (b[3] as int)
  }
}
