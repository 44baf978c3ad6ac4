/** Single bits of a byte, by weight: bit 0 is the least significant. */
module Bits {

  predicate Bit(b: nat, k: nat) {
    if k == 0 then b % 2 == 1 else Bit(b / 2, k - 1)
  }

  /** The byte `b | (1 << k)`. */
  function SetBit(b: nat, k: nat): (r: nat)
    ensures forall j: nat :: Bit(r, j) <==> j == k || Bit(b, j)
  {
    if k == 0 then b - b % 2 + 1
    else
      var r := SetBit(b / 2, k - 1) * 2 + b % 2;
      assert forall j: nat :: j > 0 ==> Bit(r, j) == Bit(SetBit(b / 2, k - 1), j - 1);
      r
  }

  /** The byte `b & ~(1 << k)`. */
  function ClearBit(b: nat, k: nat): (r: nat)
    ensures forall j: nat :: Bit(r, j) <==> j != k && Bit(b, j)
    ensures r <= b
  {
    if k == 0 then b - b % 2
    else
      var r := ClearBit(b / 2, k - 1) * 2 + b % 2;
      assert forall j: nat :: j > 0 ==> Bit(r, j) == Bit(ClearBit(b / 2, k - 1), j - 1);
      r
  }

  lemma Halved(b: nat, p: nat)
    requires b < 2 * p
    ensures b / 2 < p && b == 2 * (b / 2) + b % 2 && 0 <= b % 2 <= 1
  {
  }

  /** A byte stays a byte: no bit above the seventh is touched. */
  lemma {:induction false} SetBitFits(b: nat, k: nat, n: nat)
    requires k < n && b < Pow2(n)
    ensures SetBit(b, k) < Pow2(n)
  {
    hide Bit;
    var half, p := b / 2, Pow2(n - 1);
    Halved(b, p);
    if k > 0 {
      SetBitFits(half, k - 1, n - 1);
    }
  }

  lemma SetBitInByte(b: nat, k: nat)
    requires k < 8 && b < 256
    ensures SetBit(b, k) < 256
  {
    assert Pow2(8) == 2 * Pow2(7) == 4 * Pow2(6) == 8 * Pow2(5) == 16 * Pow2(4) == 32 * Pow2(3) == 64 * Pow2(2) == 256;
    SetBitFits(b, k, 8);
  }

  function Pow2(n: nat): nat {
    if n == 0 then 1 else 2 * Pow2(n - 1)
  }

  lemma NoBitsInZero(k: nat)
    ensures !Bit(0, k)
  {
  }
}
