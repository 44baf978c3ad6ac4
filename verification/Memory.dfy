/**
 * Byte-addressed 32-bit RAM, stored as little-endian words. A word is determined by its four
 * bytes, and the machine's stores of one, four and eight bytes are methods of `Ram`.
 */
module Memory {

  type Word = w: int | 0 <= w < 0x1_0000_0000

  /** RAM contents: each word-aligned address to its 32-bit word. */
  type Mem = map<int, Word>

  /** Address of the word that holds the byte at `a`. */
  function WordOf(a: int): int {
    a - a % 4
  }

  /** Weight of byte lane `k` inside a little-endian word. */
  function Lane(k: int): int {
    if k == 0 then 1 else if k == 1 then 0x100 else if k == 2 then 0x1_0000 else 0x100_0000
  }

  function ByteOf(w: Word, k: int): nat {
    (w / Lane(k)) % 256
  }

  /** The byte at address `a`. */
  function Byte(m: Mem, a: int): int
    requires WordOf(a) in m
  {
    ByteOf(m[WordOf(a)], a % 4)
  }

  /** The little-endian word with the given four bytes. */
  function Pack(b0: int, b1: int, b2: int, b3: int): (w: Word)
    requires 0 <= b0 < 256 && 0 <= b1 < 256 && 0 <= b2 < 256 && 0 <= b3 < 256
    ensures ByteOf(w, 0) == b0 && ByteOf(w, 1) == b1 && ByteOf(w, 2) == b2 && ByteOf(w, 3) == b3
  {
    var w := b0 + 0x100 * (b1 + 0x100 * (b2 + 0x100 * b3));
    assert w / 0x100 == b1 + 0x100 * (b2 + 0x100 * b3);
    assert w / 0x1_0000 == (w / 0x100) / 0x100 == b2 + 0x100 * b3;
    assert w / 0x100_0000 == (w / 0x1_0000) / 0x100 == b3;
    w
  }

  /** Replacing one byte lane leaves the other three lanes alone. */
  function PutByte(w: Word, k: int, v: int): (r: Word)
    requires 0 <= k < 4 && 0 <= v < 256
    ensures forall j :: 0 <= j < 4 ==> ByteOf(r, j) == if j == k then v else ByteOf(w, j)
  {
    Pack(if k == 0 then v else ByteOf(w, 0), if k == 1 then v else ByteOf(w, 1),
         if k == 2 then v else ByteOf(w, 2), if k == 3 then v else ByteOf(w, 3))
  }

  /** A word is determined by its four bytes. */
  lemma WordIsItsBytes(w: Word)
    ensures w == ByteOf(w, 0) + 0x100 * ByteOf(w, 1) + 0x1_0000 * ByteOf(w, 2) + 0x100_0000 * ByteOf(w, 3)
  {
    var w1 := w / 0x100;
    var w2 := w / 0x1_0000;
    assert w2 == w1 / 0x100;
    assert w / 0x100_0000 == w2 / 0x100;
  }

  lemma SameBytesSameWord(v: Word, w: Word)
    requires forall j :: 0 <= j < 4 ==> ByteOf(v, j) == ByteOf(w, j)
    ensures v == w
  {
    WordIsItsBytes(v);
    WordIsItsBytes(w);
  }

  /** The 32-bit pattern made of four copies of one byte. */
  function Repeat32(v: int): (r: Word)
    requires 0 <= v < 256
    ensures forall j :: 0 <= j < 4 ==> ByteOf(r, j) == v
  {
    assert 0xffff_ffff / 255 * v == Pack(v, v, v, v);
    0xffff_ffff / 255 * v
  }

  /** The RAM of the machine: words change in place, the address range does not. */
  class Ram {
    var mem: Mem

    constructor (m: Mem)
      ensures mem == m
    {
      mem := m;
    }

    method Load8(a: int) returns (v: int)
      requires WordOf(a) in mem
      ensures v == Byte(mem, a) && 0 <= v < 256
    {
      v := (mem[WordOf(a)] / Lane(a % 4)) % 256;
    }

    method Store8(a: int, v: int)
      requires WordOf(a) in mem && 0 <= v < 256
      modifies this
      ensures mem.Keys == old(mem.Keys)
      ensures mem == old(mem)[WordOf(a) := PutByte(old(mem)[WordOf(a)], a % 4, v)]
      ensures forall b :: WordOf(b) in mem ==> Byte(mem, b) == if b == a then v else Byte(old(mem), b)
    {
      mem := mem[WordOf(a) := PutByte(mem[WordOf(a)], a % 4, v)];
    }

    /** A 4-byte store; the address must be aligned. */
    method Store32(a: int, v: Word)
      requires a % 4 == 0 && a in mem
      modifies this
      ensures mem.Keys == old(mem.Keys)
      ensures mem == old(mem)[a := v]
    {
      mem := mem[a := v];
    }

    /** An 8-byte store of two equal words; the address must be 8-aligned. */
    method Store64(a: int, lo: Word, hi: Word)
      requires a % 8 == 0 && a in mem && a + 4 in mem
      modifies this
      ensures mem.Keys == old(mem.Keys)
      ensures mem == old(mem)[a := lo][a + 4 := hi]
    {
      mem := mem[a := lo][a + 4 := hi];
    }
  }
}
