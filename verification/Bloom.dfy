/** The bloom filter (utils/bloom/filter.go) and its read-only form with the wire
    format (utils/bloom/read_filter.go). */
module Bloom {
  import opened Bits

  type Bytes = seq<bv8>

  const MIN_HASHES := 1
  const MAX_HASHES := 16
  const MIN_ENTRIES := 1

  datatype Error = ErrInvalidNumHashes | ErrTooFewHashes | ErrTooManyHashes | ErrTooFewEntries
  datatype Result<+T> = Ok(value: T) | Err(error: Error)

  // ------------------------------------------------------------------- probes

  /** One round of the hash: rotate left by 17 and mix in a seed. */
  function Mix(hash: bv64, seed: bv64): bv64 {
    hash.RotateLeft(17) ^ seed
  }

  /** The hash after the first n rounds. */
  function Rounds(seeds: seq<bv64>, hash: bv64, n: nat): bv64
    requires n <= |seeds|
  {
    if n == 0 then hash else Mix(Rounds(seeds, hash, n - 1), seeds[n - 1])
  }

  /** The bit that round n probes. */
  function Probe(seeds: seq<bv64>, hash: bv64, n: nat, numBits: nat): nat
    requires n < |seeds| && 0 < numBits
  {
    (Rounds(seeds, hash, n + 1) as nat) % numBits
  }

  ghost predicate Hits(seeds: seq<bv64>, hash: bv64, numBits: nat, j: nat)
    requires 0 < numBits
  {
    exists n :: 0 <= n < |seeds| && Probe(seeds, hash, n, numBits) == j
  }

  /** Some added hash has a probe at bit j. */
  ghost predicate Covered(seeds: seq<bv64>, added: seq<bv64>, numBits: nat, j: nat)
    requires 0 < numBits
  {
    exists a :: a in added && Hits(seeds, a, numBits, j)
  }

  predicate BitSet(entries: Bytes, j: nat)
    requires j < 8 * |entries|
  {
    BitOf(entries[j / 8], j % 8)
  }

  /** What Contains answers. */
  ghost predicate AllSet(seeds: seq<bv64>, entries: Bytes, hash: bv64)
    requires 0 < |entries|
  {
    forall n :: 0 <= n < |seeds| ==> BitSet(entries, Probe(seeds, hash, n, 8 * |entries|))
  }

  /** The bits set are exactly those that the added hashes probe. */
  ghost predicate Represents(seeds: seq<bv64>, entries: Bytes, added: seq<bv64>) {
    && 0 < |entries|
    && forall j :: 0 <= j < 8 * |entries| ==> (BitSet(entries, j) <==> Covered(seeds, added, 8 * |entries|, j))
  }

  /** A filter contains a hash exactly when the probes of the added hashes cover its. */
  lemma ContainsIff(seeds: seq<bv64>, entries: Bytes, added: seq<bv64>, hash: bv64)
    requires Represents(seeds, entries, added)
    ensures AllSet(seeds, entries, hash) <==>
              forall n :: 0 <= n < |seeds| ==> Covered(seeds, added, 8 * |entries|, Probe(seeds, hash, n, 8 * |entries|))
  {
  }

  lemma NoFalseNegatives(seeds: seq<bv64>, entries: Bytes, added: seq<bv64>, hash: bv64)
    requires Represents(seeds, entries, added) && hash in added
    ensures AllSet(seeds, entries, hash)
  {
    forall n | 0 <= n < |seeds| ensures BitSet(entries, Probe(seeds, hash, n, 8 * |entries|)) {
      assert Hits(seeds, hash, 8 * |entries|, Probe(seeds, hash, n, 8 * |entries|));
    }
  }

  /** Later additions never lose a positive. */
  lemma PositivesAreKept(seeds: seq<bv64>, before: Bytes, after: Bytes, added: seq<bv64>, more: seq<bv64>, hash: bv64)
    requires Represents(seeds, before, added) && Represents(seeds, after, added + more) && |before| == |after|
    requires AllSet(seeds, before, hash)
    ensures AllSet(seeds, after, hash)
  {
    forall n | 0 <= n < |seeds| ensures BitSet(after, Probe(seeds, hash, n, 8 * |after|)) {
      var j := Probe(seeds, hash, n, 8 * |before|);
      var a :| a in added && Hits(seeds, a, 8 * |before|, j);
      assert a in added + more;
    }
  }

  /** The bytes depend only on which hashes were added, not on order or repetition. */
  lemma SameHashesSameBytes(seeds: seq<bv64>, e: Bytes, f: Bytes, added: seq<bv64>, other: seq<bv64>)
    requires Represents(seeds, e, added) && Represents(seeds, f, other) && |e| == |f|
    requires forall h :: h in added <==> h in other
    ensures e == f
  {
    forall n | 0 <= n < |e| ensures e[n] == f[n] {
      forall k | 0 <= k < 8 ensures BitOf(e[n], k) == BitOf(f[n], k) {
        assert (8 * n + k) / 8 == n && (8 * n + k) % 8 == k;
        assert BitSet(e, 8 * n + k) == BitSet(f, 8 * n + k);
      }
      SameBits(e[n], f[n]);
    }
  }

  // --------------------------------------------------------- what a probe is

  /** A bit of a word; positions wrap around at 64. */
  predicate Bit(x: bv64, i: bv6) {
    x & ((1 as bv64) << i) != 0
  }

  /** One round takes bit i of the hash 17 places up, around the end of the word, and
      flips it where the seed has a bit. */
  lemma MixBit(hash: bv64, seed: bv64, i: bv6)
    ensures Bit(Mix(hash, seed), i + 17) <==> Bit(hash, i) != Bit(seed, i + 17)
  {
    RotateBit(hash, i);
    XorWordBit(hash.RotateLeft(17), seed, i + 17);
  }

  lemma RotateBit(x: bv64, i: bv6)
    ensures Bit(x.RotateLeft(17), i + 17) <==> Bit(x, i)
  {
  }

  lemma XorWordBit(x: bv64, y: bv64, i: bv6)
    ensures Bit(x ^ y, i) <==> Bit(x, i) != Bit(y, i)
  {
  }

  lemma MixInjective(h: bv64, g: bv64, seed: bv64)
    requires Mix(h, seed) == Mix(g, seed)
    ensures h == g
  {
  }

  /** No round forgets anything of the hash. */
  lemma {:induction false} RoundsInjective(seeds: seq<bv64>, h: bv64, g: bv64, n: nat)
    requires n <= |seeds| && Rounds(seeds, h, n) == Rounds(seeds, g, n)
    ensures h == g
  {
    if n > 0 {
      MixInjective(Rounds(seeds, h, n - 1), Rounds(seeds, g, n - 1), seeds[n - 1]);
      RoundsInjective(seeds, h, g, n - 1);
    }
  }

  /** Some probes worked out: seeds are used in their order, each on what the one before
      it left. */
  lemma ProbesOfSome()
    ensures Probe([0], 1, 0, 64) == 0 && Probe([0], 0x8000_0000_0000, 0, 64) == 1
    ensures Probe([1, 2], 0, 0, 72) == 1 && Probe([1, 2], 0, 1, 72) == 34
  {
    assert Rounds([0], 1, 1) == Mix(Rounds([0], 1, 0), 0) == 0x2_0000;
    assert Rounds([0], 0x8000_0000_0000, 1) == Mix(Rounds([0], 0x8000_0000_0000, 0), 0) == 1;
    assert Rounds([1, 2], 0, 1) == Mix(Rounds([1, 2], 0, 0), 1) == 1;
    assert Rounds([1, 2], 0, 2) == Mix(1, 2) == 0x2_0002;
  }

  /** A filter with one zero seed and 64 bits that was given the hash 1 has just bit 0 set,
      and does not contain 2 to the 47, whose probe is bit 1. */
  lemma OneIsNotTheOther(entries: Bytes)
    requires |entries| == 8 && Represents([0], entries, [1])
    ensures BitSet(entries, 0) && !BitSet(entries, 1)
    ensures AllSet([0], entries, 1) && !AllSet([0], entries, 0x8000_0000_0000)
  {
    ProbesOfSome();
    assert Hits([0], 1, 64, 0) && !Hits([0], 1, 64, 1);
    assert 1 in [1 as bv64];
  }

  // ------------------------------------------------------------------- filter

  /** contains: the accumulator is one as long as every bit probed was set. */
  method Contains(seeds: seq<bv64>, entries: Bytes, hash: bv64) returns (r: bool)
    requires 0 < |entries|
    ensures r <==> AllSet(seeds, entries, hash)
  {
    var numBits := 8 * |entries|;
    var accumulator: bv8 := 1;
    var h := hash;
    var n := 0;
    while n < |seeds| && accumulator != 0
      invariant 0 <= n <= |seeds| && h == Rounds(seeds, hash, n)
      invariant accumulator == 0 || accumulator == 1
      invariant accumulator == 1 <==> forall m :: 0 <= m < n ==> BitSet(entries, Probe(seeds, hash, m, numBits))
    {
      h := Mix(h, seeds[n]);
      var index := (h as nat) % numBits;
      assert index == Probe(seeds, hash, n, numBits);
      AndBit(accumulator, entries[index / 8], index % 8);
      accumulator := accumulator & (entries[index / 8] >> (index % 8));
      n := n + 1;
    }
    r := accumulator != 0;
  }

  lemma AndBit(accumulator: bv8, b: bv8, k: nat)
    requires (accumulator == 0 || accumulator == 1) && k < 8
    ensures accumulator & (b >> k) == if accumulator == 1 && BitOf(b, k) then 1 else 0
  {
  }

  class Filter {
    const numBits: nat
    const hashSeeds: seq<bv64>
    const entries: array<bv8>
    var count: nat
    ghost var added: seq<bv64>

    ghost predicate Valid()
      reads this, entries
    {
      && numBits == 8 * entries.Length && MIN_ENTRIES <= entries.Length
      && MIN_HASHES <= |hashSeeds| <= MAX_HASHES
      && count == |added|
      && Represents(hashSeeds, entries[..], added)
    }

    constructor (hashSeeds: seq<bv64>, numEntries: nat)
      requires MIN_HASHES <= |hashSeeds| <= MAX_HASHES && MIN_ENTRIES <= numEntries
      ensures Valid() && added == [] && this.hashSeeds == hashSeeds && entries.Length == numEntries
      ensures fresh(entries)
    {
      this.hashSeeds := hashSeeds;
      numBits := numEntries * 8;
      entries := new bv8[numEntries](_ => 0);
      count, added := 0, [];
      new;
      forall j | 0 <= j < 8 * |entries[..]| ensures !BitSet(entries[..], j) {
        ZeroBits(j % 8);
      }
    }

    /** The random source of the seeds is a parameter. */
    static method New(numHashes: int, numEntries: int, random: nat -> bv64) returns (r: Result<Filter>)
      ensures r.Ok? <==> 1 <= numEntries && 1 <= numHashes <= 16
      ensures r.Ok? ==>
                && fresh(r.value) && r.value.Valid() && r.value.added == []
                && |r.value.hashSeeds| == numHashes && r.value.entries.Length == numEntries
                && forall i :: 0 <= i < numHashes ==> r.value.hashSeeds[i] == random(i)
      ensures r.Err? ==> r.error == if numEntries < 1 then ErrTooFewEntries
                                    else if numHashes < 1 then ErrTooFewHashes else ErrTooManyHashes
    {
      if numEntries < MIN_ENTRIES {
        return Err(ErrTooFewEntries);
      }
      if numHashes < MIN_HASHES {
        return Err(ErrTooFewHashes);
      }
      if numHashes > MAX_HASHES {
        return Err(ErrTooManyHashes);
      }
      var f := new Filter(seq(numHashes, i requires 0 <= i < numHashes => random(i)), numEntries);
      r := Ok(f);
    }

    method Add(hash: bv64)
      requires Valid()
      modifies this`count, this`added, entries
      ensures Valid() && added == old(added) + [hash] && count == old(count) + 1
    {
      ghost var before := entries[..];
      var h := hash;
      for n := 0 to |hashSeeds|
        modifies entries
        invariant h == Rounds(hashSeeds, hash, n)
        invariant forall j :: 0 <= j < numBits ==>
                    (BitSet(entries[..], j) <==>
                     BitSet(before, j) || exists m :: 0 <= m < n && Probe(hashSeeds, hash, m, numBits) == j)
      {
        h := Mix(h, hashSeeds[n]);
        var index := (h as nat) % numBits;
        assert index == Probe(hashSeeds, hash, n, numBits);
        SetBit(index);
      }
      CoverOneMore(hashSeeds, before, entries[..], added, hash);
      count := count + 1;
      added := added + [hash];
    }

    /** Filter.Contains: yes exactly when the probes of the added hashes cover those of
        the hash asked for, so always for an added one. */
    method Has(hash: bv64) returns (r: bool)
      requires Valid()
      ensures r <==> forall n :: 0 <= n < |hashSeeds| ==>
                       Covered(hashSeeds, added, numBits, Probe(hashSeeds, hash, n, numBits))
      ensures hash in added ==> r
    {
      r := Contains(hashSeeds, entries[..], hash);
      ContainsIff(hashSeeds, entries[..], added, hash);
      if hash in added {
        NoFalseNegatives(hashSeeds, entries[..], added, hash);
      }
    }

    /** entries[index / 8] |= 1 << (index % 8). */
    method SetBit(index: nat)
      requires index < 8 * entries.Length
      modifies entries
      ensures entries[..] == old(entries[..])[index / 8 := old(entries[index / 8]) | ((1 as bv8) << (index % 8))]
      ensures forall j :: 0 <= j < 8 * entries.Length ==>
                (BitSet(entries[..], j) <==> BitSet(old(entries[..]), j) || j == index)
    {
      ghost var before := entries[..];
      entries[index / 8] := entries[index / 8] | ((1 as bv8) << (index % 8));
      forall j | 0 <= j < 8 * entries.Length ensures BitSet(entries[..], j) <==> BitSet(before, j) || j == index {
        if j / 8 == index / 8 {
          OrBit(before[index / 8], index % 8, j % 8);
        }
      }
    }
  }

  lemma ZeroBits(k: nat)
    requires k < 8
    ensures !BitOf(0, k)
  {
  }

  lemma CoverOneMore(seeds: seq<bv64>, before: Bytes, after: Bytes, added: seq<bv64>, hash: bv64)
    requires Represents(seeds, before, added) && |before| == |after|
    requires forall j :: 0 <= j < 8 * |before| ==> (BitSet(after, j) <==> BitSet(before, j) || Hits(seeds, hash, 8 * |before|, j))
    ensures Represents(seeds, after, added + [hash])
  {
    forall j | 0 <= j < 8 * |after|
      ensures BitSet(after, j) <==> Covered(seeds, added + [hash], 8 * |after|, j)
    {
      if Hits(seeds, hash, 8 * |after|, j) {
        assert hash in added + [hash];
      } else if Covered(seeds, added, 8 * |after|, j) {
        var a :| a in added && Hits(seeds, a, 8 * |after|, j);
        assert a in added + [hash];
      }
    }
  }

  // -------------------------------------------------------------- wire format

  /** binary.BigEndian.PutUint64. */
  function PutUint64(x: bv64): (b: Bytes)
    ensures |b| == 8
  {
    [((x >> 56) & 0xFF) as bv8, ((x >> 48) & 0xFF) as bv8, ((x >> 40) & 0xFF) as bv8, ((x >> 32) & 0xFF) as bv8,
     ((x >> 24) & 0xFF) as bv8, ((x >> 16) & 0xFF) as bv8, ((x >> 8) & 0xFF) as bv8, (x & 0xFF) as bv8]
  }

  /** binary.BigEndian.Uint64. */
  function Uint64(b: Bytes): bv64
    requires |b| == 8
  {
    (b[0] as bv64 << 56) | (b[1] as bv64 << 48) | (b[2] as bv64 << 40) | (b[3] as bv64 << 32) |
    (b[4] as bv64 << 24) | (b[5] as bv64 << 16) | (b[6] as bv64 << 8) | (b[7] as bv64)
  }

  lemma Uint64RoundTrip(x: bv64)
    ensures Uint64(PutUint64(x)) == x
  {
  }

  lemma PutUint64RoundTrip(b: Bytes)
    requires |b| == 8
    ensures PutUint64(Uint64(b)) == b
  {
  }

  /** The most significant byte comes first: a number times 256 plus a byte has the bytes
      of the number, moved one to the front, and then that byte. */
  lemma BigEndian(x: bv64, b: bv8)
    ensures PutUint64((x << 8) | (b as bv64)) == PutUint64(x)[1..] + [b]
  {
    var y := (x << 8) | (b as bv64);
    assert PutUint64(y)[7] == b && PutUint64(y)[6] == PutUint64(x)[7];
    assert PutUint64(y)[5] == PutUint64(x)[6] && PutUint64(y)[4] == PutUint64(x)[5];
    assert PutUint64(y)[3] == PutUint64(x)[4] && PutUint64(y)[2] == PutUint64(x)[3];
    assert PutUint64(y)[1] == PutUint64(x)[2] && PutUint64(y)[0] == PutUint64(x)[1];
  }

  function EncodeSeeds(seeds: seq<bv64>): (b: Bytes)
    ensures |b| == 8 * |seeds|
  {
    if seeds == [] then [] else EncodeSeeds(seeds[..|seeds| - 1]) + PutUint64(seeds[|seeds| - 1])
  }

  /** byte(n): counting up to n in eight bits, wrapping around. */
  function ByteOf(n: nat): bv8 {
    if n == 0 then 0 else ByteOf(n - 1) + 1
  }

  lemma {:induction false} ByteOfValue(n: nat)
    requires n < 256
    ensures ByteOf(n) as nat == n
  {
    if n > 0 {
      ByteOfValue(n - 1);
      NextByte(ByteOf(n - 1));
    }
  }

  lemma NextByte(b: bv8)
    requires b as nat < 255
    ensures (b + 1) as nat == b as nat + 1
  {
  }

  lemma ByteOfBack(b: bv8)
    ensures ByteOf(b as nat) == b
  {
    ByteOfValue(b as nat);
    SameValue(ByteOf(b as nat), b);
  }

  lemma SameValue(a: bv8, b: bv8)
    requires a as nat == b as nat
    ensures a == b
  {
  }

  /** The wire format: the number of seeds in one byte, the seeds, the entries. */
  function Wire(seeds: seq<bv64>, entries: Bytes): Bytes {
    [ByteOf(|seeds|)] + EncodeSeeds(seeds) + entries
  }

  datatype ReadFilter = ReadFilter(hashSeeds: seq<bv64>, entries: Bytes)

  lemma {:induction false} EncodeInjective(a: seq<bv64>, b: seq<bv64>)
    requires |a| == |b| && EncodeSeeds(a) == EncodeSeeds(b)
    ensures a == b
  {
    if a != [] {
      var n := |a| - 1;
      var x, y := EncodeSeeds(a[..n]), EncodeSeeds(b[..n]);
      assert x == EncodeSeeds(a)[..8 * n] == EncodeSeeds(b)[..8 * n] == y;
      assert PutUint64(a[n]) == EncodeSeeds(a)[8 * n..] == EncodeSeeds(b)[8 * n..] == PutUint64(b[n]);
      EncodeInjective(a[..n], b[..n]);
      Uint64RoundTrip(a[n]);
      Uint64RoundTrip(b[n]);
    }
  }

  /** Filters with equally many seeds and the same bytes are the same. */
  lemma WireInjective(f: ReadFilter, g: ReadFilter)
    requires |f.hashSeeds| == |g.hashSeeds| && Wire(f.hashSeeds, f.entries) == Wire(g.hashSeeds, g.entries)
    ensures f == g
  {
    var w, n := Wire(f.hashSeeds, f.entries), 1 + 8 * |f.hashSeeds|;
    assert EncodeSeeds(f.hashSeeds) == w[1..n] == EncodeSeeds(g.hashSeeds);
    assert f.entries == w[n..] == g.entries;
    EncodeInjective(f.hashSeeds, g.hashSeeds);
  }

  /** Eight bytes of a buffer overwritten with a number. */
  method PutAt(buf: array<bv8>, off: nat, x: bv64)
    requires off + 8 <= buf.Length
    modifies buf
    ensures buf[..off + 8] == old(buf[..off]) + PutUint64(x)
    ensures buf[off + 8..] == old(buf[off + 8..])
  {
    var b := PutUint64(x);
    for i := 0 to 8
      invariant buf[..off + i] == old(buf[..off]) + b[..i]
      invariant buf[off + 8..] == old(buf[off + 8..])
    {
      buf[off + i] := b[i];
    }
  }

  method PutSeeds(buf: array<bv8>, seeds: seq<bv64>)
    requires 1 + 8 * |seeds| <= buf.Length
    modifies buf
    ensures buf[..1 + 8 * |seeds|] == old(buf[..1]) + EncodeSeeds(seeds)
  {
    for i := 0 to |seeds|
      invariant buf[..1 + 8 * i] == old(buf[..1]) + EncodeSeeds(seeds[..i])
    {
      PutAt(buf, 1 + 8 * i, seeds[i]);
      EncodeSnoc(seeds, i);
    }
    assert seeds[..|seeds|] == seeds;
  }

  lemma EncodeSnoc(seeds: seq<bv64>, i: nat)
    requires i < |seeds|
    ensures EncodeSeeds(seeds[..i + 1]) == EncodeSeeds(seeds[..i]) + PutUint64(seeds[i])
  {
    assert seeds[..i + 1][..i] == seeds[..i];
  }

  method Copy(buf: array<bv8>, offset: nat, entries: Bytes)
    requires offset + |entries| == buf.Length
    modifies buf
    ensures buf[..] == old(buf[..offset]) + entries
  {
    for i := 0 to |entries|
      invariant buf[..offset + i] == old(buf[..offset]) + entries[..i]
    {
      buf[offset + i] := entries[i];
    }
    assert buf[..] == buf[..offset + |entries|];
  }

  lemma {:induction false} EncodedAt(seeds: seq<bv64>, i: nat)
    requires i < |seeds|
    ensures EncodeSeeds(seeds)[8 * i..8 * i + 8] == PutUint64(seeds[i])
  {
    var n := |seeds| - 1;
    if i < n {
      EncodedAt(seeds[..n], i);
      assert EncodeSeeds(seeds)[8 * i..8 * i + 8] == EncodeSeeds(seeds[..n])[8 * i..8 * i + 8];
    }
  }

  /** One byte for the number of seeds, the seeds with eight bytes each, the entries. */
  method Marshal(seeds: seq<bv64>, entries: Bytes) returns (w: Bytes)
    ensures w == Wire(seeds, entries)
    ensures |w| == 1 + 8 * |seeds| + |entries| && w[1 + 8 * |seeds|..] == entries
    ensures |seeds| < 256 ==> w[0] as nat == |seeds|
    ensures forall i :: 0 <= i < |seeds| ==> w[1 + 8 * i..9 + 8 * i] == PutUint64(seeds[i])
  {
    var offset := 1 + |seeds| * 8;
    var bytes := new bv8[offset + |entries|](_ => 0);
    bytes[0] := ByteOf(|seeds|);
    assert bytes[..1] == [ByteOf(|seeds|)];
    PutSeeds(bytes, seeds);
    assert bytes[..offset] == [ByteOf(|seeds|)] + EncodeSeeds(seeds);
    Copy(bytes, offset, entries);
    w := bytes[..];
    WireLayout(seeds, entries);
  }

  lemma WireLayout(seeds: seq<bv64>, entries: Bytes)
    ensures var w := Wire(seeds, entries);
            && |w| == 1 + 8 * |seeds| + |entries| && w[1 + 8 * |seeds|..] == entries
            && (|seeds| < 256 ==> w[0] as nat == |seeds|)
            && forall i :: 0 <= i < |seeds| ==> w[1 + 8 * i..9 + 8 * i] == PutUint64(seeds[i])
  {
    var w := Wire(seeds, entries);
    if |seeds| < 256 { ByteOfValue(|seeds|); }
    forall i | 0 <= i < |seeds| ensures w[1 + 8 * i..9 + 8 * i] == PutUint64(seeds[i]) {
      EncodedAt(seeds, i);
      assert w[1 + 8 * i..9 + 8 * i] == EncodeSeeds(seeds)[8 * i..8 * i + 8];
    }
  }

  /** What is accepted marshals back to the very bytes that were parsed. */
  method Parse(bytes: Bytes) returns (r: Result<ReadFilter>)
    ensures r.Ok? <==> 0 < |bytes| && 1 <= bytes[0] as nat <= 16 && |bytes| >= 2 + 8 * (bytes[0] as nat)
    ensures r.Ok? ==> |r.value.hashSeeds| == bytes[0] as nat && Wire(r.value.hashSeeds, r.value.entries) == bytes
    ensures r.Err? ==> r.error == if bytes == [] then ErrInvalidNumHashes
                                  else if bytes[0] as nat < 1 then ErrTooFewHashes
                                  else if bytes[0] as nat > 16 then ErrTooManyHashes else ErrTooFewEntries
  {
    if |bytes| == 0 {
      return Err(ErrInvalidNumHashes);
    }
    var numHashes := bytes[0] as nat;
    var offset := 1 + numHashes * 8;
    if numHashes < MIN_HASHES {
      return Err(ErrTooFewHashes);
    }
    if numHashes > MAX_HASHES {
      return Err(ErrTooManyHashes);
    }
    if |bytes| < offset + MIN_ENTRIES {
      return Err(ErrTooFewEntries);
    }
    var seeds := DecodeSeeds(bytes, numHashes);
    ByteOfBack(bytes[0]);
    assert bytes == [bytes[0]] + bytes[1..offset] + bytes[offset..];
    r := Ok(ReadFilter(seeds, bytes[offset..]));
  }

  method DecodeSeeds(bytes: Bytes, n: nat) returns (seeds: seq<bv64>)
    requires 1 + 8 * n <= |bytes|
    ensures |seeds| == n && EncodeSeeds(seeds) == bytes[1..1 + 8 * n]
  {
    var buf := new bv64[n](_ => 0);
    for i := 0 to n
      invariant EncodeSeeds(buf[..i]) == bytes[1..1 + 8 * i]
    {
      ghost var done, next := bytes[1..1 + 8 * i], bytes[1 + 8 * i..9 + 8 * i];
      buf[i] := Uint64(bytes[1 + 8 * i..9 + 8 * i]);
      PutUint64RoundTrip(next);
      assert buf[..i + 1][..i] == buf[..i];
      assert EncodeSeeds(buf[..i + 1]) == done + next == bytes[1..1 + 8 * (i + 1)];
    }
    assert buf[..n] == buf[..];
    seeds := buf[..];
  }

  /** Up to 255 seeds, the bytes of a filter say how many there are. */
  lemma WireCounts(f: ReadFilter)
    requires |f.hashSeeds| < 256
    ensures Wire(f.hashSeeds, f.entries)[0] as nat == |f.hashSeeds|
  {
    ByteOfValue(|f.hashSeeds|);
  }

  /** A filter parsed back from its own bytes is itself exactly when it has 1 to 16
      seeds and at least one entry byte. */
  method MarshalThenParse(f: ReadFilter) returns (r: Result<ReadFilter>)
    ensures r == Ok(f) <==> 1 <= |f.hashSeeds| <= 16 && 1 <= |f.entries|
  {
    var w := Marshal(f.hashSeeds, f.entries);
    r := Parse(w);
    if |f.hashSeeds| <= MAX_HASHES {
      WireCounts(f);
      if r.Ok? {
        WireInjective(f, r.value);
      }
    }
  }

  /** A parsed filter answers as the filter that was marshalled does. */
  method ParsedAnswersAlike(f: Filter, hash: bv64) returns (here: bool, there: bool)
    requires f.Valid()
    ensures here == there
    ensures hash in f.added ==> here
  {
    here := Contains(f.hashSeeds, f.entries[..], hash);
    if hash in f.added {
      NoFalseNegatives(f.hashSeeds, f.entries[..], f.added, hash);
    }
    var r := MarshalThenParse(ReadFilter(f.hashSeeds, f.entries[..]));
    there := Contains(r.value.hashSeeds, r.value.entries, hash);
  }

  const EMPTY_FILTER := ReadFilter([0], [0])
  const FULL_FILTER := ReadFilter([0], [0xFF])

  /** EmptyFilter contains nothing and FullFilter everything. */
  lemma EmptyAndFull(hash: bv64)
    ensures !AllSet(EMPTY_FILTER.hashSeeds, EMPTY_FILTER.entries, hash)
    ensures AllSet(FULL_FILTER.hashSeeds, FULL_FILTER.entries, hash)
  {
    var j := Probe([0], hash, 0, 8);
    ZeroBits(j);
    OneBits(j);
    assert !BitSet([0], j) && BitSet([0xFF], j);
    assert EMPTY_FILTER.hashSeeds == [0] && |EMPTY_FILTER.entries| == 1;
  }

  lemma OneBits(k: nat)
    requires k < 8
    ensures BitOf(0xFF, k)
  {
  }
}
