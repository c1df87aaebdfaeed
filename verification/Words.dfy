/** Machine words of a little-endian host, and the loads and stores the driver performs on byte buffers.
    All words are integers in the range of their C type. */
module Words {
  type Byte = x: int | 0 <= x < 0x100
  type Word16 = x: int | 0 <= x < 0x1_0000
  type Word32 = x: int | 0 <= x < 0x1_0000_0000
  type Word48 = x: int | 0 <= x < 0x1_0000_0000_0000
  type Int16 = x: int | -0x8000 <= x < 0x8000

  function Join(lo: Byte, hi: Byte): Word16 {
    lo + 0x100 * hi
  }

  /** `(b & 0xD0) >> 4`; MaskControl ties it to the bit operations. */
  function ControlBits(b: Byte): Byte {
    var c := b / 0x10;
    if c in {0x2, 0x3, 0x6, 0x7, 0xA, 0xB, 0xE, 0xF} then c - 2 else c
  }

  /** `b & 0x0F`; MaskLowNibble ties it to the bit operation. */
  function LowNibble(b: Byte): Byte {
    b % 0x10
  }

  /** `ntohs` and `htons`. */
  function SwapBytes(w: Word16): Word16 {
    Join(w / 0x100, w % 0x100)
  }

  lemma MaskControl(b: bv8)
    ensures ((b & 0xD0) >> 4) as int == ControlBits(b as int)
  {
    var c := b / 0x10;
    assert (b & 0xD0) >> 4 == if c & 2 == 2 then c - 2 else c;
    assert c & 2 == 2 <==> c in {0x2, 0x3, 0x6, 0x7, 0xA, 0xB, 0xE, 0xF};
  }

  lemma MaskLowNibble(b: bv8)
    ensures (b & 0x0F) as int == LowNibble(b as int)
  {
  }

  lemma Div100(h: int, q: int, r: int)
    requires h == 0x100 * q + r && 0 <= r < 0x100
    ensures h % 0x100 == r && h / 0x100 == q
  {
  }

  function LoadU16(bytes: seq<Byte>, at: nat): Word16
    requires at + 2 <= |bytes|
  {
    Join(bytes[at], bytes[at + 1])
  }

  function LoadI16(bytes: seq<Byte>, at: nat): Int16
    requires at + 2 <= |bytes|
  {
    var u := LoadU16(bytes, at);
    if u < 0x8000 then u else u - 0x1_0000
  }

  function LoadU32(bytes: seq<Byte>, at: nat): Word32
    requires at + 4 <= |bytes|
  {
    LoadU16(bytes, at) + 0x1_0000 * LoadU16(bytes, at + 2)
  }

  function StoreU16(w: Word16): (bytes: seq<Byte>)
    ensures |bytes| == 2 && LoadU16(bytes, 0) == w
  {
    [w % 0x100, w / 0x100]
  }

  function StoreU32(w: Word32): (bytes: seq<Byte>)
    ensures |bytes| == 4 && LoadU32(bytes, 0) == w
  {
    StoreU16(w % 0x1_0000) + StoreU16(w / 0x1_0000)
  }

  function StoreI16(x: Int16): (bytes: seq<Byte>)
    ensures |bytes| == 2 && LoadI16(bytes, 0) == x
  {
    StoreU16(if x < 0 then x + 0x1_0000 else x)
  }
}
