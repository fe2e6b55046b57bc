/** The `buddy_flags` byte of a page descriptor: bit 7 is the free bit, bits 0 to 6 the order. */
module PageFlags {
  import opened Wrappers

  predicate IsFree(f: Byte) { f >= 128 }

  function Order(f: Byte): nat { f % 128 }

  function SetFree(f: Byte): Byte { if f >= 128 then f else f + 128 }

  function ClearFree(f: Byte): Byte { f % 128 }

  function SetOrder(f: Byte, k: nat): Byte
    requires k < 128
  {
    f - f % 128 + k
  }

  /** The functions above, which count in numbers, are the source's bit operations. */
  lemma FlagBits(b: bv8, k: bv8)
    requires k < 0x80
    ensures IsFree(b as Byte) <==> b & (1 << 7) != 0
    ensures Order(b as Byte) == (b & !(1 << 7)) as nat
    ensures SetFree(b as Byte) == (b | (1 << 7)) as Byte
    ensures ClearFree(b as Byte) == (b & !(1 << 7)) as Byte
    ensures SetOrder(b as Byte, k as nat) == ((b & (1 << 7)) | k) as Byte
  {
  }
}
