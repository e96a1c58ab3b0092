/** Bytes as numbers. The source's bit tests compare leading bits, so they read as ranges here. */
module Bytes {
  type byte = b: int | 0 <= b < 256
  type bytes = seq<byte>

  /** `(c & 0x80) == 0` */
  predicate Ascii(c: byte) {
    c < 0x80
  }

  /** `(c & 0xc0) == 0x80` */
  predicate Continuation(c: byte) {
    0x80 <= c < 0xc0
  }

  /** `(c & 0xe0) == 0xc0` */
  predicate Lead2(c: byte) {
    0xc0 <= c < 0xe0
  }

  /** `(c & 0xf0) == 0xe0` */
  predicate Lead3(c: byte) {
    0xe0 <= c < 0xf0
  }

  function And(c: byte, mask: bv8): bv8 {
    (c as bv8) & mask
  }

  /** The range tests above are the bit tests of the source. */
  lemma MasksAreRanges(c: byte)
    ensures (Ascii(c) <==> And(c, 0x80) == 0) && (Continuation(c) <==> And(c, 0xc0) == 0x80)
    ensures (Lead2(c) <==> And(c, 0xe0) == 0xc0) && (Lead3(c) <==> And(c, 0xf0) == 0xe0)
  {
    MasksOfBits(c as bv8);
  }

  lemma MasksOfBits(b: bv8)
    ensures (b & 0x80 == 0 <==> b < 0x80) && (b & 0xc0 == 0x80 <==> 0x80 <= b < 0xc0)
    ensures (b & 0xe0 == 0xc0 <==> 0xc0 <= b < 0xe0) && (b & 0xf0 == 0xe0 <==> 0xe0 <= b < 0xf0)
  {
  }
}
