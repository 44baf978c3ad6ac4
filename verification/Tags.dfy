/** The 32-bit boundary tag: 24 bits of size (in 8-byte units), 7 of pid, 1 free bit. */
module Tags {
  import opened Memory

  function SizeOf(w: Word): int { w % 0x100_0000 * 8 }
  function PidOf(w: Word): int { w / 0x100_0000 % 128 }
  function FreeOf(w: Word): int { w / 0x8000_0000 }

  function WithSize(w: Word, size: int): (r: Word)
    requires 0 <= size
    ensures size % 8 == 0 && size < 0x800_0000 ==> SizeOf(r) == size
    ensures PidOf(r) == PidOf(w) && FreeOf(r) == FreeOf(w)
  {
    w - w % 0x100_0000 + size / 8 % 0x100_0000
  }

  function WithPid(w: Word, pid: int): (r: Word)
    ensures PidOf(r) == pid % 128
    ensures SizeOf(r) == SizeOf(w) && FreeOf(r) == FreeOf(w)
  {
    w + (pid % 128 - PidOf(w)) * 0x100_0000
  }

  function WithFree(w: Word, free: int): (r: Word)
    requires 0 <= free <= 1
    ensures FreeOf(r) == free
    ensures SizeOf(r) == SizeOf(w) && PidOf(r) == PidOf(w)
  {
    w + (free - FreeOf(w)) * 0x8000_0000
  }

  /** The three fields are the whole word, low to high. */
  lemma Fields(w: Word)
    ensures w == SizeOf(w) / 8 + 0x100_0000 * (PidOf(w) + 128 * FreeOf(w))
    ensures 0 <= SizeOf(w) < 0x800_0000 && 0 <= PidOf(w) < 128 && 0 <= FreeOf(w) <= 1
  {
  }
}
