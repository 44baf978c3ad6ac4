/**
 * kmemset (section 7.21.6.1 of C99): a byte-exact fill built from overlapping stores. Bytes,
 * then words from both ends, then double words between; what was stored so far is two stretches and
 * an island between them.
 */
module Memset {
  import opened Memory

  /**
   * The bytes stored so far in the block from `d` up to `e`: a head up to `h`,
   * a tail from `t`, and an island from `i` up to `j` while the tail is extended.
   */
  datatype Done = Done(d: int, h: int, i: int, j: int, t: int, e: int) {
    predicate Has(b: int) {
      d <= b < h || i <= b < j || t <= b < e
    }
  }

  /** `k` bytes at each end of the `n` bytes from `s`. */
  function Ends(s: int, n: int, k: int): Done {
    Done(s, s + k, s, s, s + n - k, s + n)
  }

  /** The bytes in `f` are `v`; every other byte is as in `m0`. */
  ghost predicate Filled(m0: Mem, m: Mem, v: int, f: Done) {
    && m.Keys == m0.Keys
    && forall b :: WordOf(b) in m ==> Byte(m, b) == if f.Has(b) then v else Byte(m0, b)
  }

  /** The block from `d` up to `e` is `v`, byte for byte, and nothing else changed. */
  ghost predicate IsFill(m0: Mem, m: Mem, v: int, d: int, e: int) {
    && m.Keys == m0.Keys
    && (forall b :: WordOf(b) in m ==> Byte(m, b) == if d <= b < e then v else Byte(m0, b))
    && (forall a :: a in m && (a + 4 <= d || e <= a) ==> m[a] == m0[a])
  }

  ghost predicate InRam(m: Mem, d: int, e: int) {
    forall b :: d <= b < e ==> WordOf(b) in m
  }

  ghost predicate Aligned(m: Mem) {
    forall a :: a in m ==> a % 4 == 0
  }

  /** `g` is `f` with the bytes from `a` up to `a + k`. */
  ghost predicate Grows(f: Done, g: Done, a: int, k: int) {
    forall b :: g.Has(b) <==> f.Has(b) || a <= b < a + k
  }

  lemma InWord(a: int, b: int)
    requires a % 4 == 0
    ensures WordOf(b) == a <==> a <= b < a + 4
  {
  }

  /** An aligned word of fill adds exactly its four bytes. */
  lemma WordFilled(m0: Mem, m: Mem, v: int, f: Done, g: Done, a: int)
    requires 0 <= v < 256 && Filled(m0, m, v, f)
    requires a % 4 == 0 && a in m && Grows(f, g, a, 4)
    ensures Filled(m0, m[a := Repeat32(v)], v, g)
  {
    hide ByteOf, Repeat32;
    var m' := m[a := Repeat32(v)];
    forall b | WordOf(b) in m'
      ensures Byte(m', b) == if g.Has(b) then v else Byte(m0, b)
    {
      InWord(a, b);
      assert Byte(m, b) == if f.Has(b) then v else Byte(m0, b);
    }
  }

  /** A filled block is its bytes: words outside it are unchanged. */
  lemma WholeBlock(m0: Mem, m: Mem, v: int, f: Done, d: int, e: int)
    requires Filled(m0, m, v, f) && Aligned(m0)
    requires forall b :: f.Has(b) <==> d <= b < e
    ensures IsFill(m0, m, v, d, e)
  {
    forall a | a in m && (a + 4 <= d || e <= a)
      ensures m[a] == m0[a]
    {
      forall j | 0 <= j < 4
        ensures ByteOf(m[a], j) == ByteOf(m0[a], j)
      {
        assert WordOf(a + j) == a;
        assert Byte(m, a + j) == Byte(m0, a + j);
      }
      SameBytesSameWord(m[a], m0[a]);
    }
  }

  lemma FilledKeys(m0: Mem, m: Mem, v: int, f: Done)
    requires Filled(m0, m, v, f)
    ensures m.Keys == m0.Keys
  {
  }

  lemma NothingFilled(m0: Mem, v: int, s: int, n: int)
    ensures Filled(m0, m0, v, Ends(s, n, 0))
  {
  }

  lemma EndsMeet(m0: Mem, m: Mem, v: int, s: int, n: int, k: int)
    requires Filled(m0, m, v, Ends(s, n, k)) && Aligned(m0) && 0 <= k <= n <= 2 * k
    ensures IsFill(m0, m, v, s, s + n)
  {
    WholeBlock(m0, m, v, Ends(s, n, k), s, s + n);
  }

  /** One byte of fill stored at `a`. */
  method Fill8(ram: Ram, v: int, a: int, ghost m0: Mem, ghost f: Done, ghost g: Done)
    requires 0 <= v < 256 && f.d <= a < f.e && InRam(m0, f.d, f.e)
    requires Filled(m0, ram.mem, v, f) && Grows(f, g, a, 1)
    modifies ram
    ensures Filled(m0, ram.mem, v, g)
  {
    hide Byte;
    ram.Store8(a, v);
  }

  /** One byte of fill at each end, `i` bytes in: the far end first. */
  method FillEnds(ram: Ram, v: int, s: int, n: int, i: int, ghost m0: Mem)
    requires 0 <= v < 256 && 0 <= i < n && InRam(m0, s, s + n)
    requires Filled(m0, ram.mem, v, Ends(s, n, i))
    modifies ram
    ensures Filled(m0, ram.mem, v, Ends(s, n, i + 1))
  {
    hide Filled, InRam;
    ghost var f := Ends(s, n, i);
    Fill8(ram, v, s + n - 1 - i, m0, f, f.(t := f.t - 1));
    Fill8(ram, v, s + i, m0, f.(t := f.t - 1), Ends(s, n, i + 1));
  }

  /** A word of fill stored at the aligned address `a`. */
  method Fill32(ram: Ram, v: int, a: int, ghost m0: Mem, ghost f: Done, ghost g: Done)
    requires 0 <= v < 256 && a % 4 == 0 && f.d <= a && a + 4 <= f.e && InRam(m0, f.d, f.e)
    requires Filled(m0, ram.mem, v, f) && Grows(f, g, a, 4)
    modifies ram
    ensures Filled(m0, ram.mem, v, g)
  {
    assert WordOf(a) == a;
    WordFilled(m0, ram.mem, v, f, g, a);
    ram.Store32(a, Repeat32(v));
  }

  /** A double word of fill stored at the 8-aligned address `a`, extending the head. */
  method Fill64(ram: Ram, v: int, a: int, ghost m0: Mem, ghost f: Done)
    requires 0 <= v < 256 && a % 8 == 0 && f.d <= a <= f.h <= a + 4 && a + 8 <= f.e && InRam(m0, f.d, f.e)
    requires Filled(m0, ram.mem, v, f)
    modifies ram
    ensures Filled(m0, ram.mem, v, f.(h := a + 8))
    ensures ram.mem.Keys == old(ram.mem.Keys)
  {
    hide Filled, Repeat32, ByteOf;
    assert WordOf(a) == a && WordOf(a + 4) == a + 4;
    ghost var m := ram.mem;
    FilledKeys(m0, m, v, f);
    WordFilled(m0, m, v, f, f.(h := a + 4), a);
    WordFilled(m0, m[a := Repeat32(v)], v, f.(h := a + 4), f.(h := a + 8), a + 4);
    ram.Store64(a, Repeat32(v), Repeat32(v));
  }

  /**
   * Fills the `n` bytes from `dest` with the low byte of `c`: single bytes from
   * both ends first, enough to absorb what alignment cuts off; then words.
   */
  method Kmemset(ram: Ram, dest: int, c: int, n: int)
    requires 0 <= n && InRam(ram.mem, dest, dest + n) && Aligned(ram.mem)
    modifies ram
    ensures IsFill(old(ram.mem), ram.mem, c % 256, dest, dest + n)
  {
    hide Byte, WordOf, Filled, IsFill, Ends;
    ghost var m0 := ram.mem;
    var v := c % 256;

    NothingFilled(m0, v, dest, n);
    if n == 0 { EndsMeet(m0, ram.mem, v, dest, n, 0); return; }
    FillEnds(ram, v, dest, n, 0, m0);
    if n <= 2 { EndsMeet(m0, ram.mem, v, dest, n, 1); return; }
    FillEnds(ram, v, dest, n, 1, m0);
    FillEnds(ram, v, dest, n, 2, m0);
    if n <= 6 { EndsMeet(m0, ram.mem, v, dest, n, 3); return; }
    FillEnds(ram, v, dest, n, 3, m0);
    if n <= 8 { EndsMeet(m0, ram.mem, v, dest, n, 4); return; }

    var k := (-dest) % 4;
    ghost var f := FillAligned(ram, v, dest + k, (n - k) - (n - k) % 4, m0, dest, n);
    WholeBlock(m0, ram.mem, v, f, dest, dest + n);
  }

  lemma WordSteps(s: int, n: int)
    requires s % 4 == 0 && n % 4 == 0
    ensures (s + 4) % 4 == 0 && (s + 8) % 4 == 0 && (s + n - 4) % 4 == 0 && (s + n - 8) % 4 == 0 && (s + n - 12) % 4 == 0
  {
    assert s == 4 * (s / 4) && n == 4 * (n / 4);
  }

  lemma MoreWordSteps(s: int, n: int)
    requires s % 4 == 0 && n % 4 == 0
    ensures (s + 12) % 4 == 0 && (s + 16) % 4 == 0 && (s + 20) % 4 == 0 && (s + 24) % 4 == 0 && (s + n - 28) % 4 == 0
  {
    assert s == 4 * (s / 4) && n == 4 * (n / 4);
  }

  /** The first double word after the head, and what is left from there. */
  lemma DoubleStart(s: int, n: int)
    requires s % 4 == 0 && n % 4 == 0
    ensures var k := 24 + s % 8; (s + k) % 8 == 0 && (n - k) % 4 == 0 && 24 <= k <= 28
  {
    assert s % 8 == 0 || s % 8 == 4;
    assert s == 8 * (s / 8) + s % 8 && n == 4 * (n / 4);
  }

  lemma DoubleStep(s: int, n: int)
    requires s % 8 == 0 && n % 4 == 0
    ensures (s + 32) % 8 == 0 && (n - 32) % 4 == 0 && (n < 32 ==> n <= 28)
    ensures (s + 8) % 8 == 0 && (s + 16) % 8 == 0 && (s + 24) % 8 == 0
  {
    assert s == 8 * (s / 8) && n == 4 * (n / 4);
  }

  /**
   * The word-aligned middle of the block: up to 28 bytes of words from each end,
   * then the rest 32 bytes at a time from an 8-byte boundary.
   */
  method FillAligned(ram: Ram, v: int, s: int, n: int, ghost m0: Mem, ghost dest: int, ghost size: int)
    returns (ghost f: Done)
    requires 0 <= v < 256 && s % 4 == 0 && n % 4 == 0 && 4 <= n
    requires dest <= s <= dest + 3 && s + n <= dest + size <= s + n + 3
    requires InRam(m0, dest, dest + size) && Filled(m0, ram.mem, v, Ends(dest, size, 4))
    modifies ram
    ensures Filled(m0, ram.mem, v, f)
    ensures forall b :: f.Has(b) <==> dest <= b < dest + size
  {
    hide Filled, InRam;
    WordSteps(s, n);
    ghost var e := dest + size;
    f := Ends(dest, size, 4);
    Fill32(ram, v, s, m0, f, Done(dest, s + 4, s, s, e - 4, e));
    f := Done(dest, s + 4, s, s, s + n - 4, e);
    Fill32(ram, v, s + n - 4, m0, Done(dest, s + 4, s, s, e - 4, e), f);
    if n <= 8 { return; }

    Fill32(ram, v, s + 4, m0, f, f.(h := s + 8));
    Fill32(ram, v, s + 8, m0, f.(h := s + 8), f.(h := s + 12));
    f := f.(h := s + 12);
    ghost var q := s + n - 12;
    Fill32(ram, v, s + n - 12, m0, f, f.(i := q, j := q + 4));
    Fill32(ram, v, s + n - 8, m0, f.(i := q, j := q + 4), f.(t := q));
    f := f.(t := q);
    if n <= 24 { return; }

    FillSixteen(ram, v, s, n, m0, f);
    f := FillDoubles(ram, v, s, n, m0, f.(h := s + 28, t := s + n - 28));
  }

  /** Four more words at each end. */
  method FillSixteen(ram: Ram, v: int, s: int, n: int, ghost m0: Mem, ghost f: Done)
    requires 0 <= v < 256 && s % 4 == 0 && n % 4 == 0 && 28 <= n
    requires f.d <= s && s + n <= f.e && f.i == f.j && f.h == s + 12 && f.t == s + n - 12
    requires InRam(m0, f.d, f.e) && Filled(m0, ram.mem, v, f)
    modifies ram
    ensures Filled(m0, ram.mem, v, f.(h := s + 28, t := s + n - 28))
  {
    hide Filled, InRam;
    MoreWordSteps(s, n);
    Fill32(ram, v, s + 12, m0, f, f.(h := s + 16));
    Fill32(ram, v, s + 16, m0, f.(h := s + 16), f.(h := s + 20));
    Fill32(ram, v, s + 20, m0, f.(h := s + 20), f.(h := s + 24));
    Fill32(ram, v, s + 24, m0, f.(h := s + 24), f.(h := s + 28));
    FillSixteenTail(ram, v, s + n - 28, m0, f.(h := s + 28));
  }

  method FillSixteenTail(ram: Ram, v: int, q: int, ghost m0: Mem, ghost g: Done)
    requires 0 <= v < 256 && q % 4 == 0 && g.d <= q && q + 16 == g.t <= g.e && g.i == g.j
    requires InRam(m0, g.d, g.e) && Filled(m0, ram.mem, v, g)
    modifies ram
    ensures Filled(m0, ram.mem, v, g.(t := q))
  {
    hide Filled, InRam;
    Fill32(ram, v, q, m0, g, g.(i := q, j := q + 4));
    Fill32(ram, v, q + 4, m0, g.(i := q, j := q + 4), g.(i := q, j := q + 8));
    Fill32(ram, v, q + 8, m0, g.(i := q, j := q + 8), g.(i := q, j := q + 12));
    Fill32(ram, v, q + 12, m0, g.(i := q, j := q + 12), g.(t := q));
  }

  /** The 32-byte loop; what it leaves at the end is inside the tail already filled. */
  method FillDoubles(ram: Ram, v: int, s0: int, n0: int, ghost m0: Mem, ghost f0: Done) returns (ghost f: Done)
    requires 0 <= v < 256 && s0 % 4 == 0 && n0 % 4 == 0 && 28 <= n0
    requires f0.d <= s0 && s0 + n0 <= f0.e && f0.i == f0.j
    requires f0.h == s0 + 28 && f0.t == s0 + n0 - 28
    requires InRam(m0, f0.d, f0.e) && Filled(m0, ram.mem, v, f0)
    modifies ram
    ensures Filled(m0, ram.mem, v, f)
    ensures forall b :: f.Has(b) <==> f0.d <= b < f0.e
  {
    hide Filled, InRam;
    DoubleStart(s0, n0);
    var k := 24 + s0 % 8;
    var s, n := s0 + k, n0 - k;
    f := f0;
    while n >= 32
      invariant s % 8 == 0 && n % 4 == 0 && s + n == s0 + n0 && f0.d <= s
      invariant f == f0.(h := f.h) && s <= f.h && f.h <= s + 4 && f.h <= f0.e
      invariant Filled(m0, ram.mem, v, f)
    {
      DoubleStep(s, n);
      Fill32s(ram, v, s, m0, f);
      f := f.(h := s + 32);
      n := n - 32;
      s := s + 32;
    }
    DoubleStep(s, n);
  }

  /** Four aligned 8-byte stores. */
  method Fill32s(ram: Ram, v: int, s: int, ghost m0: Mem, ghost f: Done)
    requires 0 <= v < 256 && s % 8 == 0 && f.d <= s <= f.h <= s + 4 && s + 32 <= f.e
    requires InRam(m0, f.d, f.e) && Filled(m0, ram.mem, v, f)
    modifies ram
    ensures Filled(m0, ram.mem, v, f.(h := s + 32))
  {
    hide Filled, InRam;
    DoubleStep(s, 0);
    Fill64(ram, v, s, m0, f);
    Fill64(ram, v, s + 8, m0, f.(h := s + 8));
    Fill64(ram, v, s + 16, m0, f.(h := s + 16));
    Fill64(ram, v, s + 24, m0, f.(h := s + 24));
  }
}
