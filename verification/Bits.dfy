/** The bits of a byte. */
module Bits {
  predicate BitOf(b: bv8, k: nat)
    requires k < 8
  {
    (b >> k) & 1 == 1
  }

  lemma OrLow(x: bv8, y: bv8)
    ensures (x | y) & 1 == 1 <==> x & 1 == 1 || y & 1 == 1
  {
  }

  lemma OrShift(a: bv8, b: bv8, k: nat)
    requires k < 8
    ensures (a | b) >> k == (a >> k) | (b >> k)
  {
  }

  lemma OneBit(i: nat, j: nat)
    requires i < 8 && j < 8
    ensures BitOf((1 as bv8) << i, j) <==> i == j
  {
  }

  lemma OrBit(b: bv8, i: nat, j: nat)
    requires i < 8 && j < 8
    ensures BitOf(b | ((1 as bv8) << i), j) <==> BitOf(b, j) || i == j
  {
    var one := (1 as bv8) << i;
    OrShift(b, one, j);
    OrLow(b >> j, one >> j);
    OneBit(i, j);
  }

  lemma XorLow(x: bv8, y: bv8)
    ensures (x ^ y) & 1 == 1 <==> (x & 1 == 1) != (y & 1 == 1)
  {
  }

  lemma XorShift(a: bv8, b: bv8, k: nat)
    requires k < 8
    ensures (a ^ b) >> k == (a >> k) ^ (b >> k)
  {
  }

  lemma XorBit(a: bv8, b: bv8, k: nat)
    requires k < 8
    ensures BitOf(a ^ b, k) <==> BitOf(a, k) != BitOf(b, k)
  {
    XorShift(a, b, k);
    XorLow(a >> k, b >> k);
  }

  /** A byte is its bits. */
  lemma SameBits(a: bv8, b: bv8)
    requires forall k :: 0 <= k < 8 ==> BitOf(a, k) == BitOf(b, k)
    ensures a == b
  {
    assert BitOf(a, 0) == BitOf(b, 0) && BitOf(a, 1) == BitOf(b, 1);
    assert BitOf(a, 2) == BitOf(b, 2) && BitOf(a, 3) == BitOf(b, 3);
    assert BitOf(a, 4) == BitOf(b, 4) && BitOf(a, 5) == BitOf(b, 5);
    assert BitOf(a, 6) == BitOf(b, 6) && BitOf(a, 7) == BitOf(b, 7);
  }
}
