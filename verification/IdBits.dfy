/** Bit ranges of 32-byte ids (utils/ids/bits.go, utils/ids/id.go).  Bit 0 is the
    least significant bit of byte 0. */
module IdBits {
  import opened Options
  import opened Bits

  const NUM_BITS := 256

  type ID = s: seq<bv8> | |s| == 32 witness seq(32, _ => 0)

  /** ID.Bit. */
  function Bit(id: ID, i: nat): int
    requires i < NUM_BITS
  {
    if BitOf(id[i / 8], i % 8) then 1 else 0
  }

  // ------------------------------------------------------------------- masks

  /** Ones from bit k up, in Go's 64-bit int. */
  function StartMask(k: nat): bv64
    requires k <= 8
  {
    if k == 8 then 0 else 0xFFFF_FFFF_FFFF_FFFF << k
  }

  /** The byte in which a range starts: Go's division truncates toward zero. */
  function StartIndex(start: int): int {
    if start >= 0 then start / 8 else -(-start / 8)
  }

  /** The bit of that byte, 8 if none: Go shifts by the remainder as an unsigned number, so
      a negative one shifts all ones out. */
  function StartBit(start: int): nat {
    if start >= 0 then start % 8 else if -start % 8 == 0 then 0 else 8
  }

  /** The first bit that is looked at. */
  function First(start: int): int {
    8 * StartIndex(start) + StartBit(start)
  }

  /** Ones up to and including bit k. */
  function StopMask(k: nat): bv64
    requires k < 8
  {
    ((1 as bv64) << (k + 1)) - 1
  }

  /** The masked difference of two bytes, cut down to a byte as TrailingZeros8 sees it. */
  function Difference(m: bv64, a: bv8, b: bv8): bv8 {
    (((m & (a as bv64)) ^ (m & (b as bv64))) & 0xFF) as bv8
  }

  predicate MaskBit(m: bv64, k: nat)
    requires k < 8
  {
    (m >> k) & 1 == 1
  }

  /** The mask lets exactly the bits s to e of a byte through. */
  ghost predicate MaskIs(m: bv64, s: nat, e: nat) {
    forall k :: 0 <= k < 8 ==> (MaskBit(m, k) <==> s <= k <= e)
  }

  lemma MaskBits(s: nat, e: nat, k: nat)
    requires s <= 8 && e < 8 && k < 8
    ensures MaskBit(StartMask(s), k) <==> s <= k
    ensures MaskBit(StopMask(e), k) <==> k <= e
    ensures MaskBit(StartMask(s) & StopMask(e), k) <==> s <= k <= e
  {
  }

  lemma DifferenceBits(m: bv64, a: bv8, b: bv8, k: nat)
    requires k < 8
    ensures BitOf(Difference(m, a, b), k) <==> MaskBit(m, k) && BitOf(a, k) != BitOf(b, k)
  {
    if k == 0 {} else if k == 1 {} else if k == 2 {} else if k == 3 {}
    else if k == 4 {} else if k == 5 {} else if k == 6 {} else {}
  }

  predicate MaskedEqual(m: bv64, a: bv8, b: bv8) {
    m & (a as bv64) == m & (b as bv64)
  }

  lemma MaskedEqualIff(m: bv64, a: bv8, b: bv8)
    ensures MaskedEqual(m, a, b) <==> Difference(m, a, b) == 0
  {
  }

  /** bits.TrailingZeros8. */
  function TrailingZeros8(x: bv8): (n: nat)
    ensures n <= 8
    ensures x == 0 <==> n == 8
    ensures n < 8 ==> BitOf(x, n) && forall k :: 0 <= k < n ==> !BitOf(x, k)
  {
    if x & 1 != 0 then 0 else if x & 2 != 0 then 1 else if x & 4 != 0 then 2 else if x & 8 != 0 then 3
    else if x & 16 != 0 then 4 else if x & 32 != 0 then 5 else if x & 64 != 0 then 6 else if x & 128 != 0 then 7 else 8
  }

  // ------------------------------------------------------------------ subsets

  /** The ids agree on the bits [from, to). */
  ghost predicate Agree(a: ID, b: ID, from: nat, to: nat)
    requires to <= NUM_BITS
  {
    forall i :: from <= i < to ==> Bit(a, i) == Bit(b, i)
  }

  lemma BitInByte(id: ID, byte: nat, k: nat)
    requires byte < 32 && k < 8
    ensures (8 * byte + k) / 8 == byte && (8 * byte + k) % 8 == k
    ensures Bit(id, 8 * byte + k) == 1 <==> BitOf(id[byte], k)
  {
  }

  /** Bit k of the masked difference of byte n, in terms of the ids. */
  lemma DifferenceInId(a: ID, b: ID, n: nat, m: bv64, s: nat, e: nat, k: nat)
    requires n < 32 && s <= 8 && e < 8 && MaskIs(m, s, e) && k < 8
    ensures BitOf(Difference(m, a[n], b[n]), k) <==> s <= k <= e && Bit(a, 8 * n + k) != Bit(b, 8 * n + k)
  {
    DifferenceBits(m, a[n], b[n], k);
    BitInByte(a, n, k);
    BitInByte(b, n, k);
  }

  /** Where the masked difference has no bit below z, the ids agree. */
  lemma AgreeBelow(a: ID, b: ID, n: nat, m: bv64, s: nat, e: nat, z: nat)
    requires n < 32 && s <= 8 && e < 8 && MaskIs(m, s, e) && z <= e + 1
    requires forall k :: 0 <= k < z ==> !BitOf(Difference(m, a[n], b[n]), k)
    ensures Agree(a, b, 8 * n + s, 8 * n + z)
  {
    forall i | 8 * n + s <= i < 8 * n + z ensures Bit(a, i) == Bit(b, i) {
      DifferenceInId(a, b, n, m, s, e, i - 8 * n);
    }
  }

  /** The masked difference of byte n vanishes exactly when the ids agree on the bits
      the mask lets through, which are s to e of that byte. */
  lemma ByteAgrees(a: ID, b: ID, n: nat, m: bv64, s: nat, e: nat)
    requires n < 32 && s <= 8 && e < 8
    requires MaskIs(m, s, e)
    ensures Difference(m, a[n], b[n]) == 0 <==> Agree(a, b, 8 * n + s, 8 * n + e + 1)
    ensures Difference(m, a[n], b[n]) != 0 ==>
              var i := TrailingZeros8(Difference(m, a[n], b[n])) + 8 * n;
              && 8 * n + s <= i <= 8 * n + e && Bit(a, i) != Bit(b, i) && Agree(a, b, 8 * n + s, i)
  {
    var d := Difference(m, a[n], b[n]);
    var z := TrailingZeros8(d);
    if z == 8 {
      NoBits(d);
      AgreeBelow(a, b, n, m, s, e, e + 1);
    } else {
      DifferenceInId(a, b, n, m, s, e, z);
      AgreeBelow(a, b, n, m, s, e, z);
    }
  }

  lemma NoBits(d: bv8)
    requires d == 0
    ensures forall k :: 0 <= k < 8 ==> !BitOf(d, k)
  {
  }

  lemma Masks(s: nat, e: nat)
    requires s <= 8 && e < 8
    ensures MaskIs(StartMask(s), s, 7) && MaskIs(StopMask(e), 0, e)
    ensures MaskIs(StartMask(s) & StopMask(e), s, e) && MaskIs(0xFF, 0, 7)
  {
    forall k | 0 <= k < 8
      ensures MaskBit(StartMask(s), k) <==> s <= k
      ensures MaskBit(StopMask(e), k) <==> k <= e
      ensures MaskBit(StartMask(s) & StopMask(e), k) <==> s <= k <= e
      ensures MaskBit(0xFF, k)
    {
      MaskBits(s, e, k);
      FullMask(k);
    }
  }

  lemma FullMask(k: nat)
    requires k < 8
    ensures MaskBit(0xFF, k)
  {
  }

  /** The bytes between two bytes are equal, and so are those two under their masks. */
  function EqualBytes(n: nat, m: nat, startMask: bv64, stopMask: bv64, a: ID, b: ID): bool
    requires n <= m < 32
  {
    if n + 1 < m && a[n + 1..m] != b[n + 1..m] then false
    else if n == m then MaskedEqual(startMask & stopMask, a[n], b[n])
    else MaskedEqual(startMask, a[n], b[n]) && MaskedEqual(stopMask, a[m], b[m])
  }

  /** None stands for a slice or index out of range, which makes Go panic. */
  function EqualSubset(start: int, stop: int, a: ID, b: ID): Option<bool> {
    var last := stop - 1;
    if start > last || last < 0 then Some(true)
    else if last >= NUM_BITS then Some(false)
    else
      var startIndex, stopIndex := StartIndex(start), last / 8;
      if startIndex >= 0 then
        Some(EqualBytes(startIndex, stopIndex, StartMask(StartBit(start)), StopMask(last % 8), a, b))
      else if startIndex + 1 == 0 && 0 < stopIndex && a[..stopIndex] != b[..stopIndex] then Some(false)
      else None
  }

  /** Whole bytes are equal exactly when the ids agree on all their bits. */
  lemma BytesAgree(a: ID, b: ID, lo: nat, hi: nat)
    requires lo <= hi <= 32
    ensures a[lo..hi] == b[lo..hi] <==> Agree(a, b, 8 * lo, 8 * hi)
  {
    if a[lo..hi] == b[lo..hi] {
      forall i | 8 * lo <= i < 8 * hi ensures Bit(a, i) == Bit(b, i) {
        assert a[i / 8] == a[lo..hi][i / 8 - lo] == b[i / 8];
      }
    }
    if Agree(a, b, 8 * lo, 8 * hi) {
      forall n | lo <= n < hi ensures a[n] == b[n] {
        forall k | 0 <= k < 8 ensures BitOf(a[n], k) == BitOf(b[n], k) {
          BitInByte(a, n, k);
          BitInByte(b, n, k);
        }
        SameBits(a[n], b[n]);
      }
    }
  }

  lemma MaskedByteAgrees(a: ID, b: ID, n: nat, m: bv64, s: nat, e: nat)
    requires n < 32 && s <= 8 && e < 8 && MaskIs(m, s, e)
    ensures MaskedEqual(m, a[n], b[n]) <==> Agree(a, b, 8 * n + s, 8 * n + e + 1)
  {
    MaskedEqualIff(m, a[n], b[n]);
    ByteAgrees(a, b, n, m, s, e);
  }

  /** A start above -8 has its bits in the id; a negative one skips the first byte. */
  lemma FirstBit(start: int)
    requires start > -8
    ensures StartIndex(start) >= 0 && First(start) == if start >= 0 then start else 8
  {
  }

  /** Inside the id, EqualSubset is agreement bit by bit; a range that reaches beyond it is
      refused, and an empty one accepted.  A negative start skips the whole first byte. */
  lemma EqualSubsetIff(start: int, stop: int, a: ID, b: ID)
    requires start > -8
    ensures EqualSubset(start, stop, a, b) ==
              Some(start >= stop || stop <= 0 || (stop <= 256 && Agree(a, b, First(start), stop)))
  {
    var last := stop - 1;
    if start <= last && 0 <= last < NUM_BITS {
      var s, e := StartBit(start), last % 8;
      Masks(s, e);
      EqualBytesIff(a, b, StartIndex(start), last / 8, s, e, StartMask(s), StopMask(e));
    }
  }

  lemma EqualBytesIff(a: ID, b: ID, n: nat, m: nat, s: nat, e: nat, startMask: bv64, stopMask: bv64)
    requires n <= m < 32 && s <= 8 && e < 8
    requires MaskIs(startMask, s, 7) && MaskIs(stopMask, 0, e) && MaskIs(startMask & stopMask, s, e)
    ensures EqualBytes(n, m, startMask, stopMask, a, b) <==> Agree(a, b, 8 * n + s, 8 * m + e + 1)
  {
    if n == m {
      MaskedByteAgrees(a, b, n, startMask & stopMask, s, e);
    } else {
      BytesAgree(a, b, n + 1, m);
      MaskedByteAgrees(a, b, n, startMask, s, 7);
      MaskedByteAgrees(a, b, m, stopMask, 0, e);
      AgreeSplit(a, b, 8 * n + s, 8 * n + 8, 8 * m, 8 * m + e + 1);
    }
  }

  /** With a start of -8 or less a range that is not empty and ends inside the id makes
      EqualSubset panic, unless the start is above -16 and the bytes before that of the
      last bit differ. */
  lemma EqualSubsetPanicsIff(start: int, stop: int, a: ID, b: ID)
    requires start <= -8
    ensures EqualSubset(start, stop, a, b) ==
              if stop <= 0 then Some(true)
              else if stop > 256 || (start > -16 && !Agree(a, b, 0, 8 * ((stop - 1) / 8))) then Some(false)
              else None
  {
    if 0 < stop <= NUM_BITS {
      BytesAgree(a, b, 0, (stop - 1) / 8);
      assert start > -16 <==> StartIndex(start) == -1;
    }
  }

  lemma AgreeSplit(a: ID, b: ID, i: nat, j: nat, k: nat, l: nat)
    requires i <= j <= k <= l <= NUM_BITS
    ensures Agree(a, b, i, l) <==> Agree(a, b, i, j) && Agree(a, b, j, k) && Agree(a, b, k, l)
  {
  }

  /** The least differing bit of the range, as index and found flag; nothing is found
      when the ids agree there, or when the range reaches beyond the id.  A negative start
      skips the first byte, and one of -8 or less makes Go panic (ok is false) unless the
      range is empty or reaches beyond the id. */
  method FirstDifferenceSubset(start: int, stop: int, a: ID, b: ID) returns (index: nat, found: bool, ok: bool)
    ensures ok <==> start > -8 || stop <= 0 || stop > 256
    ensures start <= -8 ==> !found
    ensures start > -8 ==> (found <==> start < stop && 0 < stop <= 256 && !Agree(a, b, First(start), stop))
    ensures found ==> start > -8 && First(start) <= index < stop <= 256
    ensures found ==> Bit(a, index) != Bit(b, index) && Agree(a, b, First(start), index)
    ensures !found ==> index == 0
  {
    var last := stop - 1;
    if start > last || last < 0 || last >= NUM_BITS {
      return 0, false, true;
    }
    if start <= -8 {
      return 0, false, false;
    }
    ok := true;
    var startMask, stopMask := StartMask(StartBit(start)), StopMask(last % 8);
    Masks(StartBit(start), last % 8);
    index, found := Scan(StartIndex(start), last / 8, startMask, stopMask, a, b, StartBit(start), last % 8);
  }

  /** The first difference from bit s of one byte to bit e of another. */
  method Scan(startIndex: nat, stopIndex: nat, startMask: bv64, stopMask: bv64, a: ID, b: ID, ghost s: nat, ghost e: nat)
      returns (index: nat, found: bool)
    requires startIndex <= stopIndex < 32 && s <= 8 && e < 8
    requires MaskIs(startMask, s, 7) && MaskIs(stopMask, 0, e) && MaskIs(startMask & stopMask, s, e)
    ensures found <==> !Agree(a, b, 8 * startIndex + s, 8 * stopIndex + e + 1)
    ensures found ==> 8 * startIndex + s <= index <= 8 * stopIndex + e
    ensures found ==> Bit(a, index) != Bit(b, index) && Agree(a, b, 8 * startIndex + s, index)
    ensures !found ==> index == 0
  {
    if startIndex == stopIndex {
      index, found := DifferenceIn(startMask & stopMask, startIndex, a, b, s, e);
      return;
    }
    index, found := DifferenceIn(startMask, startIndex, a, b, s, 7);
    if found {
      return;
    }
    var i := startIndex + 1;
    while i < stopIndex
      invariant startIndex < i <= stopIndex
      invariant Agree(a, b, 8 * startIndex + s, 8 * i)
    {
      FullByte();
      index, found := DifferenceIn(0xFF, i, a, b, 0, 7);
      if found {
        return;
      }
      i := i + 1;
    }
    index, found := DifferenceIn(stopMask, stopIndex, a, b, 0, e);
  }

  lemma FullByte()
    ensures MaskIs(0xFF, 0, 7)
  {
    Masks(0, 7);
  }

  /** The comparison of one masked byte and, if it differs, the index of the first
      differing bit. */
  method DifferenceIn(mask: bv64, n: nat, a: ID, b: ID, ghost s: nat, ghost e: nat) returns (index: nat, found: bool)
    requires n < 32 && s <= 8 && e < 8
    requires MaskIs(mask, s, e)
    ensures found <==> !Agree(a, b, 8 * n + s, 8 * n + e + 1)
    ensures found ==> 8 * n + s <= index <= 8 * n + e && Bit(a, index) != Bit(b, index) && Agree(a, b, 8 * n + s, index)
    ensures !found ==> index == 0
  {
    ByteAgrees(a, b, n, mask, s, e);
    MaskedEqualIff(mask, a[n], b[n]);
    if MaskedEqual(mask, a[n], b[n]) {
      return 0, false;
    }
    return TrailingZeros8(Difference(mask, a[n], b[n])) + n * 8, true;
  }

  /** ID.XOR, which updates its copy byte by byte: its set bits are the differences. */
  method Xor(a: ID, b: ID) returns (x: ID)
    ensures forall i :: 0 <= i < 256 ==> (Bit(x, i) == 1 <==> Bit(a, i) != Bit(b, i))
  {
    x := a;
    for i := 0 to 32
      invariant forall n :: 0 <= n < i ==> x[n] == a[n] ^ b[n]
      invariant forall n :: i <= n < 32 ==> x[n] == a[n]
    {
      x := x[i := x[i] ^ b[i]];
    }
    forall i | 0 <= i < NUM_BITS ensures Bit(x, i) == 1 <==> Bit(a, i) != Bit(b, i) {
      XorAt(a, b, x, i);
    }
  }

  lemma XorAt(a: ID, b: ID, x: ID, i: nat)
    requires i < NUM_BITS && x[i / 8] == a[i / 8] ^ b[i / 8]
    ensures Bit(x, i) == 1 <==> Bit(a, i) != Bit(b, i)
  {
    XorBit(a[i / 8], b[i / 8], i % 8);
  }

  /** With a start above -8, the two functions say the same about every range that stays
      inside the id, and about every empty one; on a range that reaches beyond,
      EqualSubset says the ids differ and FirstDifferenceSubset finds nothing.  What is
      found is the first set bit of the ids' XOR from the first bit looked at.  With any
      other start, the second panics on every range that is neither empty nor too long. */
  method CompareBoth(start: int, stop: int, a: ID, b: ID)
      returns (equal: Option<bool>, index: nat, found: bool, ok: bool, x: ID)
    ensures start > -8 ==> ok && equal.Some? && (equal == Some(!found) <==> start >= stop || stop <= 256)
    ensures start <= -8 ==> !found && (ok <==> stop <= 0 || stop > 256) && (ok ==> equal == Some(stop <= 0))
    ensures found ==>
              && start > -8 && First(start) <= index < stop <= 256 && Bit(x, index) == 1
              && forall i :: First(start) <= i < index ==> Bit(x, i) == 0
    ensures start > -8 && !found && stop <= 256 ==> forall i :: First(start) <= i < stop ==> Bit(x, i) == 0
  {
    if start > -8 {
      FirstBit(start);
      EqualSubsetIff(start, stop, a, b);
    } else {
      EqualSubsetPanicsIff(start, stop, a, b);
    }
    equal := EqualSubset(start, stop, a, b);
    index, found, ok := FirstDifferenceSubset(start, stop, a, b);
    x := Xor(a, b);
  }
}
