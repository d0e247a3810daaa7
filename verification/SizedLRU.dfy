/** The LRU cache bounded by the total size of its entries
    (utils/cache/lru_sized_cache.go). */
module SizedLRU {
  import opened Options
  import opened AssocList
  import opened LinkedHashmap
  import LRU
  import LinkedRuns = LinkedHashmapRuns

  // ------------------------------------------------------------ specification

  ghost predicate NonNegative<K(!new), V(!new)>(sz: (K, V) -> int) {
    forall k, v :: sz(k, v) >= 0
  }

  function Total<K, V>(sz: (K, V) -> int, s: seq<(K, V)>): int {
    if s == [] then 0 else sz(s[0].0, s[0].1) + Total(sz, s[1..])
  }

  /** How many of the oldest pairs the eviction loop drops to get from a recorded
      size of cur down to room. */
  function Drops<K, V>(sz: (K, V) -> int, s: seq<(K, V)>, cur: int, room: int): (n: nat)
    ensures n <= |s|
  {
    if cur <= room || s == [] then 0 else 1 + Drops(sz, s[1..], cur - sz(s[0].0, s[0].1), room)
  }

  /** A cache value: what currentSize says, and the pairs, oldest first. */
  datatype Sized<K, V> = Sized(current: int, elems: seq<(K, V)>)

  function Recorded<K(==), V>(sz: (K, V) -> int, s: seq<(K, V)>, k: K): int {
    if Find(s, k).Some? then sz(k, Find(s, k).value) else 0
  }

  /** The cache after the eviction loop. */
  function Trim<K, V>(sz: (K, V) -> int, c: Sized<K, V>, room: int): Sized<K, V> {
    var n := Drops(sz, c.elems, c.current, room);
    Sized(c.current - Total(sz, c.elems[..n]), c.elems[n..])
  }

  function Insert<K(==), V>(sz: (K, V) -> int, max: int, c: Sized<K, V>, k: K, v: V): Sized<K, V> {
    var entry := sz(k, v);
    if entry > max then Sized(0, [])
    else
      var t := Trim(sz, c.(current := c.current - Recorded(sz, c.elems, k)), max - entry);
      Sized(t.current + entry, Renew(t.elems, k, v))
  }

  function Remove<K(==), V>(sz: (K, V) -> int, c: Sized<K, V>, k: K): Sized<K, V> {
    Sized(c.current - Recorded(sz, c.elems, k), Without(c.elems, k))
  }

  /** What every state of every run satisfies. */
  ghost predicate Sound<K, V>(sz: (K, V) -> int, c: Sized<K, V>) {
    Unique(c.elems) && c.current <= Total(sz, c.elems)
  }

  ghost predicate Exact<K, V>(sz: (K, V) -> int, c: Sized<K, V>) {
    c.current == Total(sz, c.elems)
  }

  lemma {:induction false} TotalSplit<K, V>(sz: (K, V) -> int, s: seq<(K, V)>, i: nat)
    requires i <= |s|
    ensures Total(sz, s) == Total(sz, s[..i]) + Total(sz, s[i..])
  {
    if i > 0 {
      TotalSplit(sz, s[1..], i - 1);
      assert s[1..][..i - 1] == s[..i][1..] && s[1..][i - 1..] == s[i..];
    }
  }

  lemma TotalConcat<K, V>(sz: (K, V) -> int, a: seq<(K, V)>, b: seq<(K, V)>)
    ensures Total(sz, a + b) == Total(sz, a) + Total(sz, b)
  {
    TotalSplit(sz, a + b, |a|);
    assert (a + b)[..|a|] == a && (a + b)[|a|..] == b;
  }

  lemma {:induction false} TotalNonNegative<K(!new), V(!new)>(sz: (K, V) -> int, s: seq<(K, V)>)
    requires NonNegative(sz)
    ensures Total(sz, s) >= 0
  {
    if s != [] {
      TotalNonNegative(sz, s[1..]);
    }
  }

  /** Removing a key takes its recorded size out of the total. */
  lemma TotalWithout<K, V>(sz: (K, V) -> int, s: seq<(K, V)>, k: K)
    requires Unique(s)
    ensures Total(sz, Without(s, k)) == Total(sz, s) - Recorded(sz, s, k)
  {
    FindIff(s, k);
    if HasKey(s, k) {
      var i :| 0 <= i < |s| && s[i].0 == k;
      FindAt(s, i);
      WithoutAt(s, i);
      TotalConcat(sz, s[..i], s[i + 1..]);
      TotalSplit(sz, s, i);
      assert s[i..][1..] == s[i + 1..];
    } else {
      WithoutAbsent(s, k);
    }
  }

  /** The loop goes past index i exactly when the recorded size is still too large
      after dropping everything before i. */
  lemma {:induction false} DropsPast<K(!new), V(!new)>(sz: (K, V) -> int, s: seq<(K, V)>, cur: int, room: int, i: nat)
    requires NonNegative(sz) && i < |s|
    ensures Drops(sz, s, cur, room) > i <==> cur - Total(sz, s[..i]) > room
  {
    if i == 0 {
    } else {
      assert s[..i][1..] == s[1..][..i - 1];
      TotalNonNegative(sz, s[1..][..i - 1]);
      DropsPast(sz, s[1..], cur - sz(s[0].0, s[0].1), room, i - 1);
    }
  }

  /** The loop ends because the recorded size fits, never because the list ran out. */
  lemma {:induction false} DropsSuffice<K, V>(sz: (K, V) -> int, s: seq<(K, V)>, cur: int, room: int)
    requires cur <= Total(sz, s) && 0 <= room
    ensures cur - Total(sz, s[..Drops(sz, s, cur, room)]) <= room
  {
    if cur > room && s != [] {
      var n := Drops(sz, s, cur, room);
      DropsSuffice(sz, s[1..], cur - sz(s[0].0, s[0].1), room);
      assert s[..n][1..] == s[1..][..n - 1];
    }
  }

  lemma TrimStep<K, V>(sz: (K, V) -> int, c: Sized<K, V>, room: int)
    requires 0 <= room < c.current <= Total(sz, c.elems)
    ensures c.elems != []
    ensures Trim(sz, Sized(c.current - sz(c.elems[0].0, c.elems[0].1), c.elems[1..]), room) == Trim(sz, c, room)
  {
    var n := Drops(sz, c.elems, c.current, room);
    assert c.elems[..n][1..] == c.elems[1..][..n - 1] && c.elems[1..][n - 1..] == c.elems[n..];
  }

  /** Insert keeps currentSize at or below the true total, and within the maximum. */
  lemma InsertSound<K(!new), V(!new)>(sz: (K, V) -> int, max: int, c: Sized<K, V>, k: K, v: V)
    requires NonNegative(sz) && Sound(sz, c)
    ensures Sound(sz, Insert(sz, max, c, k, v))
    ensures sz(k, v) <= max ==> Insert(sz, max, c, k, v).current <= max
  {
    if sz(k, v) <= max {
      var cur := c.current - Recorded(sz, c.elems, k);
      var n := Drops(sz, c.elems, cur, max - sz(k, v));
      var rest := c.elems[n..];
      DropsSuffice(sz, c.elems, cur, max - sz(k, v));
      TotalSplit(sz, c.elems, n);
      RenewUnique(rest, k, v);
      TotalWithout(sz, rest, k);
      TotalConcat(sz, Without(rest, k), [(k, v)]);
      RecordedInRest(sz, c.elems, n, k);
    }
  }

  /** A suffix records a key with the same size, or not at all. */
  lemma RecordedInRest<K, V>(sz: (K, V) -> int, s: seq<(K, V)>, n: nat, k: K)
    requires Unique(s) && n <= |s|
    ensures HasKey(s[n..], k) ==> Recorded(sz, s[n..], k) == Recorded(sz, s, k)
    ensures !HasKey(s[n..], k) ==> Recorded(sz, s[n..], k) == 0
  {
    FindIff(s[n..], k);
    if HasKey(s[n..], k) {
      LRU.SuffixFind(s[n..], s, k);
    }
  }

  /** The loop will evict the very key being put, although its size has already been
      taken out: the entry fits by itself, the key is present with a positive size,
      and the pairs newer than it leave no room for the entry. */
  ghost predicate Drifts<K, V>(sz: (K, V) -> int, max: int, s: seq<(K, V)>, k: K, v: V) {
    && sz(k, v) <= max
    && HasKey(s, k) && Recorded(sz, s, k) > 0
    && Total(sz, From(s, k)) - Recorded(sz, s, k) + sz(k, v) > max
  }

  lemma RenewTotal<K, V>(sz: (K, V) -> int, s: seq<(K, V)>, k: K, v: V)
    requires Unique(s)
    ensures Total(sz, Renew(s, k, v)) == Total(sz, s) - Recorded(sz, s, k) + sz(k, v)
  {
    TotalWithout(sz, s, k);
    TotalConcat(sz, Without(s, k), [(k, v)]);
    assert Total(sz, [(k, v)]) == sz(k, v) by { assert [(k, v)][1..] == []; }
  }

  /** The loop takes the same out of the recorded and of the true size. */
  lemma TrimTotals<K, V>(sz: (K, V) -> int, c: Sized<K, V>, room: int)
    ensures var t := Trim(sz, c, room); c.current - t.current == Total(sz, c.elems) - Total(sz, t.elems)
  {
    TotalSplit(sz, c.elems, Drops(sz, c.elems, c.current, room));
  }

  /** How a put moves the true total: the key's old entry counts only if the loop
      left it in place. */
  lemma InsertTotals<K, V>(sz: (K, V) -> int, max: int, c: Sized<K, V>, k: K, v: V)
    requires Unique(c.elems) && sz(k, v) <= max
    ensures var t := Trim(sz, c.(current := c.current - Recorded(sz, c.elems, k)), max - sz(k, v));
            && Total(sz, Insert(sz, max, c, k, v).elems) == Total(sz, t.elems) - Recorded(sz, t.elems, k) + sz(k, v)
            && t.current == c.current - Recorded(sz, c.elems, k) - (Total(sz, c.elems) - Total(sz, t.elems))
            && Recorded(sz, t.elems, k) == if HasKey(t.elems, k) then Recorded(sz, c.elems, k) else 0
  {
    var b := c.(current := c.current - Recorded(sz, c.elems, k));
    var n := Drops(sz, b.elems, b.current, max - sz(k, v));
    TrimTotals(sz, b, max - sz(k, v));
    SuffixUnique(c.elems, n);
    RenewTotal(sz, c.elems[n..], k, v);
    RecordedInRest(sz, c.elems, n, k);
  }

  lemma SuffixUnique<K, V>(s: seq<(K, V)>, n: nat)
    requires Unique(s) && n <= |s|
    ensures Unique(s[n..])
  {
  }

  /** The loop evicts the key being put exactly when the recorded size, with everything
      older than the key gone, is still too large. */
  lemma KeyIsEvictedIff<K(!new), V(!new)>(sz: (K, V) -> int, s: seq<(K, V)>, k: K, cur: int, room: int)
    requires NonNegative(sz) && Unique(s) && HasKey(s, k)
    ensures var older := Total(sz, s) - Total(sz, From(s, k));
            HasKey(s[Drops(sz, s, cur, room)..], k) <==> cur - older <= room
  {
    var i :| 0 <= i < |s| && s[i].0 == k;
    FromAt(s, i);
    TotalSplit(sz, s, i);
    DropsPast(sz, s, cur, room, i);
    var n := Drops(sz, s, cur, room);
    if n <= i {
      assert s[n..][i - n].0 == k;
    }
  }

  /** Exact accounting survives a put exactly when the put does not drift; otherwise
      currentSize falls short by the old entry's size. */
  lemma InsertExactIff<K(!new), V(!new)>(sz: (K, V) -> int, max: int, c: Sized<K, V>, k: K, v: V)
    requires NonNegative(sz) && Unique(c.elems) && Exact(sz, c)
    ensures Exact(sz, Insert(sz, max, c, k, v)) <==> !Drifts(sz, max, c.elems, k, v)
    ensures Drifts(sz, max, c.elems, k, v) ==>
              var d := Insert(sz, max, c, k, v);
              d.current == Total(sz, d.elems) - Recorded(sz, c.elems, k)
  {
    if sz(k, v) <= max {
      InsertTotals(sz, max, c, k, v);
      FindIff(c.elems, k);
      if HasKey(c.elems, k) {
        KeyIsEvictedIff(sz, c.elems, k, c.current - Recorded(sz, c.elems, k), max - sz(k, v));
      }
    }
  }

  /** A put that does not grow an entry never drifts. */
  lemma ShrinkingPutIsExact<K(!new), V(!new)>(sz: (K, V) -> int, max: int, c: Sized<K, V>, k: K, v: V)
    requires NonNegative(sz) && Unique(c.elems) && Exact(sz, c) && c.current <= max
    requires HasKey(c.elems, k) ==> sz(k, v) <= Recorded(sz, c.elems, k)
    ensures !Drifts(sz, max, c.elems, k, v)
  {
    if HasKey(c.elems, k) {
      var i :| 0 <= i < |c.elems| && c.elems[i].0 == k;
      FromAt(c.elems, i);
      TotalSplit(sz, c.elems, i);
      TotalNonNegative(sz, c.elems[..i]);
    }
  }

  /** A drifting put: growing an old entry leaves a cache of maximum 10 holding 11. */
  lemma DriftOverfills()
    ensures var sz := (k: int, v: int) => if v < 0 then 0 else v;
            var c := Sized(10, [(1, 4), (2, 6)]);
            var d := Insert(sz, 10, c, 1, 5);
            && Exact(sz, c) && Drifts(sz, 10, c.elems, 1, 5)
            && d.current == 7 && Total(sz, d.elems) == 11
  {
    var sz := (k: int, v: int) => if v < 0 then 0 else v;
    var s := [(1, 4), (2, 6)];
    assert s[1..] == [(2, 6)];
    FindAt(s, 0);
    assert HasKey(s, 1) by { assert s[0].0 == 1; }
    InsertExactIff(sz, 10, Sized(10, s), 1, 5);
    assert Drops(sz, s, 6, 5) == 1;
    assert s[..1] == [(1, 4)] && [(2, 6)][1..] == [];
  }

  // -------------------------------------------------------------- whole runs

  datatype Op<K, V> = Put(key: K, value: V) | Get(key: K) | Evict(key: K) | Flush

  function Step<K(==), V>(sz: (K, V) -> int, max: int, c: Sized<K, V>, op: Op<K, V>): Sized<K, V> {
    match op
    case Put(k, v) => Insert(sz, max, c, k, v)
    case Get(k) => c.(elems := LRU.Touch(c.elems, k))
    case Evict(k) => Remove(sz, c, k)
    case Flush => Sized(0, [])
  }

  function Exec<K(==), V>(sz: (K, V) -> int, max: int, ops: seq<Op<K, V>>): Sized<K, V> {
    if ops == [] then Sized(0, []) else Step(sz, max, Exec(sz, max, ops[..|ops| - 1]), ops[|ops| - 1])
  }

  lemma TouchTotal<K, V>(sz: (K, V) -> int, s: seq<(K, V)>, k: K)
    requires Unique(s)
    ensures Unique(LRU.Touch(s, k)) && Total(sz, LRU.Touch(s, k)) == Total(sz, s)
  {
    if Find(s, k).Some? {
      RenewUnique(s, k, Find(s, k).value);
      TotalWithout(sz, s, k);
      TotalConcat(sz, Without(s, k), [(k, Find(s, k).value)]);
    }
  }

  lemma StepSound<K(!new), V(!new)>(sz: (K, V) -> int, max: int, c: Sized<K, V>, op: Op<K, V>)
    requires NonNegative(sz) && Sound(sz, c)
    ensures Sound(sz, Step(sz, max, c, op))
  {
    match op
    case Put(k, v) => InsertSound(sz, max, c, k, v);
    case Get(k) => TouchTotal(sz, c.elems, k);
    case Evict(k) =>
      WithoutUnique(c.elems, k);
      TotalWithout(sz, c.elems, k);
    case Flush =>
  }

  /** In every run currentSize is at most the true total, so the eviction loop always
      stops with a pair still to spare or nothing left to drop. */
  lemma {:induction false} RunSound<K(!new), V(!new)>(sz: (K, V) -> int, max: int, ops: seq<Op<K, V>>)
    requires NonNegative(sz)
    ensures Sound(sz, Exec(sz, max, ops))
  {
    if ops != [] {
      RunSound(sz, max, ops[..|ops| - 1]);
      StepSound(sz, max, Exec(sz, max, ops[..|ops| - 1]), ops[|ops| - 1]);
    }
  }

  /** No put of the run drifts in the state where it happens. */
  ghost predicate Steady<K, V>(sz: (K, V) -> int, max: int, ops: seq<Op<K, V>>) {
    ops != [] ==>
      var before, op := ops[..|ops| - 1], ops[|ops| - 1];
      Steady(sz, max, before) && (op.Put? ==> !Drifts(sz, max, Exec(sz, max, before).elems, op.key, op.value))
  }

  /** No put of the run grows a key that is present. */
  ghost predicate NeverGrows<K, V>(sz: (K, V) -> int, max: int, ops: seq<Op<K, V>>) {
    ops != [] ==>
      var before, op := ops[..|ops| - 1], ops[|ops| - 1];
      && NeverGrows(sz, max, before)
      && (op.Put? && HasKey(Exec(sz, max, before).elems, op.key) ==>
            sz(op.key, op.value) <= Recorded(sz, Exec(sz, max, before).elems, op.key))
  }

  /** In every run without a drifting put, currentSize is the true total of the sizes,
      and that total is within the maximum. */
  lemma {:induction false} RunExact<K(!new), V(!new)>(sz: (K, V) -> int, max: int, ops: seq<Op<K, V>>)
    requires NonNegative(sz) && 0 <= max && Steady(sz, max, ops)
    ensures var c := Exec(sz, max, ops); Unique(c.elems) && Exact(sz, c) && c.current <= max
  {
    if ops != [] {
      var before, op := ops[..|ops| - 1], ops[|ops| - 1];
      RunExact(sz, max, before);
      var c := Exec(sz, max, before);
      StepSound(sz, max, c, op);
      match op
      case Put(k, v) =>
        InsertExactIff(sz, max, c, k, v);
        InsertSound(sz, max, c, k, v);
      case Get(k) => TouchTotal(sz, c.elems, k);
      case Evict(k) =>
        TotalWithout(sz, c.elems, k);
        RecordedNonNegative(sz, c.elems, k);
      case Flush =>
    }
  }

  lemma RecordedNonNegative<K(!new), V(!new)>(sz: (K, V) -> int, s: seq<(K, V)>, k: K)
    requires NonNegative(sz)
    ensures Recorded(sz, s, k) >= 0
  {
  }

  /** Runs that never grow a present key are among them. */
  lemma {:induction false} NeverGrowsIsSteady<K(!new), V(!new)>(sz: (K, V) -> int, max: int, ops: seq<Op<K, V>>)
    requires NonNegative(sz) && 0 <= max && NeverGrows(sz, max, ops)
    ensures Steady(sz, max, ops)
  {
    if ops != [] {
      var before, op := ops[..|ops| - 1], ops[|ops| - 1];
      NeverGrowsIsSteady(sz, max, before);
      RunExact(sz, max, before);
      if op.Put? {
        ShrinkingPutIsExact(sz, max, Exec(sz, max, before), op.key, op.value);
      }
    }
  }

  /** What a put takes out of the recorded size once too often: the old size of its key,
      if the loop evicts that key. */
  ghost function Slip<K, V>(sz: (K, V) -> int, max: int, c: Sized<K, V>, k: K, v: V): int {
    var size := Recorded(sz, c.elems, k);
    var older := Total(sz, c.elems) - Total(sz, From(c.elems, k));
    if HasKey(c.elems, k) && c.current - size - older > max - sz(k, v) then size else 0
  }

  /** The shortfall of a run: what its puts since the last flush took out too often.  A put
      of an entry larger than the maximum is a flush. */
  ghost function Lag<K, V>(sz: (K, V) -> int, max: int, ops: seq<Op<K, V>>): int {
    if ops == [] then 0
    else
      var before, op := ops[..|ops| - 1], ops[|ops| - 1];
      if op.Flush? || (op.Put? && sz(op.key, op.value) > max) then 0
      else if op.Put? then Lag(sz, max, before) + Slip(sz, max, Exec(sz, max, before), op.key, op.value)
      else Lag(sz, max, before)
  }

  /** A put widens the gap between true and recorded size by exactly its slip. */
  lemma InsertSlips<K(!new), V(!new)>(sz: (K, V) -> int, max: int, c: Sized<K, V>, k: K, v: V)
    requires NonNegative(sz) && Unique(c.elems) && sz(k, v) <= max
    ensures var d := Insert(sz, max, c, k, v);
            Total(sz, d.elems) - d.current == Total(sz, c.elems) - c.current + Slip(sz, max, c, k, v)
  {
    InsertTotals(sz, max, c, k, v);
    FindIff(c.elems, k);
    if HasKey(c.elems, k) {
      KeyIsEvictedIff(sz, c.elems, k, c.current - Recorded(sz, c.elems, k), max - sz(k, v));
    } else {
      NoKeyInRest(c.elems, Drops(sz, c.elems, c.current, max - sz(k, v)), k);
    }
  }

  lemma NoKeyInRest<K, V>(s: seq<(K, V)>, n: nat, k: K)
    requires n <= |s| && !HasKey(s, k)
    ensures !HasKey(s[n..], k)
  {
    forall i | 0 <= i < |s[n..]| ensures s[n..][i].0 != k {
      assert s[n..][i] == s[n + i];
    }
  }

  /** In every run the recorded size falls short of the true total by exactly the lag, and
      is within the maximum: the cache overfills by at most the lag. */
  lemma {:induction false} RunLags<K(!new), V(!new)>(sz: (K, V) -> int, max: int, ops: seq<Op<K, V>>)
    requires NonNegative(sz)
    ensures var c := Exec(sz, max, ops);
            && Total(sz, c.elems) - c.current == Lag(sz, max, ops)
            && (0 <= max ==> c.current <= max && Total(sz, c.elems) <= max + Lag(sz, max, ops))
  {
    if ops != [] {
      var before, op := ops[..|ops| - 1], ops[|ops| - 1];
      var c := Exec(sz, max, before);
      RunLags(sz, max, before);
      RunSound(sz, max, before);
      match op
      case Put(k, v) =>
        if sz(k, v) <= max {
          InsertSlips(sz, max, c, k, v);
          InsertSound(sz, max, c, k, v);
        }
      case Get(k) => TouchTotal(sz, c.elems, k);
      case Evict(k) =>
        TotalWithout(sz, c.elems, k);
        RecordedNonNegative(sz, c.elems, k);
      case Flush =>
    }
  }

  /** A run leaves the accounting exact if and only if its lag is 0. */
  lemma RunExactIff<K(!new), V(!new)>(sz: (K, V) -> int, max: int, ops: seq<Op<K, V>>)
    requires NonNegative(sz)
    ensures Exact(sz, Exec(sz, max, ops)) <==> Lag(sz, max, ops) == 0
  {
    RunLags(sz, max, ops);
  }

  // Entries of whole numbers, each as large as its value.
  function Worth(k: int, v: int): int {
    if v < 0 then 0 else v
  }

  /** A cache of maximum 2 that records 2 and holds entries of size 1 only. */
  ghost predicate Level(c: Sized<int, int>, keys: nat) {
    && c.current == 2 && |c.elems| >= 2 && Unique(c.elems)
    && forall i :: 0 <= i < |c.elems| ==> c.elems[i].1 == 1 && 0 <= c.elems[i].0 < keys
  }

  lemma GrowOldest(c: Sized<int, int>, keys: nat)
    requires Level(c, keys)
    ensures Insert(Worth, 2, c, c.elems[0].0, 2) == Sized(2, c.elems[1..] + [(c.elems[0].0, 2)])
  {
    var s, k := c.elems, c.elems[0].0;
    FindAt(s, 0);
    assert Drops(Worth, s[1..], 0, 0) == 0;
    assert Drops(Worth, s, 1, 0) == 1;
    assert s[..1] == [s[0]] && Total(Worth, s[..1]) == 1 by { assert s[..1][1..] == []; }
    assert !HasKey(s[1..], k);
    WithoutAbsent(s[1..], k);
  }

  lemma ShrunkAgain(rest: seq<(int, int)>, k: int)
    requires !HasKey(rest, k)
    ensures Insert(Worth, 2, Sized(2, rest + [(k, 2)]), k, 1) == Sized(1, rest + [(k, 1)])
  {
    var s := rest + [(k, 2)];
    WithoutConcat(rest, [(k, 2)], k);
    WithoutAbsent(rest, k);
    FindIff(rest, k);
    LinkedRuns.FindSnoc(rest, (k, 2), k);
    assert Drops(Worth, s, 0, 1) == 0 && s[..0] == [] && s[0..] == s;
    assert Without([(k, 2)], k) == [];
  }

  lemma Joined(s: seq<(int, int)>, f: int)
    requires !HasKey(s, f)
    ensures Insert(Worth, 2, Sized(1, s), f, 1) == Sized(2, s + [(f, 1)])
  {
    FindIff(s, f);
    WithoutAbsent(s, f);
    assert Drops(Worth, s, 1, 1) == 0 && s[..0] == [] && s[0..] == s;
  }

  /** Growing the oldest entry and shrinking it again gains room for a new one. */
  lemma GainOne(c: Sized<int, int>, keys: nat)
    requires Level(c, keys)
    ensures var k := c.elems[0].0;
            var d := Insert(Worth, 2, Insert(Worth, 2, Insert(Worth, 2, c, k, 2), k, 1), keys, 1);
            Level(d, keys + 1) && |d.elems| == |c.elems| + 1
  {
    var rest, k := c.elems[1..], c.elems[0].0;
    assert !HasKey(rest, k) && !HasKey(rest + [(k, 1)], keys);
    GrowOldest(c, keys);
    ShrunkAgain(rest, k);
    Joined(rest + [(k, 1)], keys);
    forall i, j | 0 <= i < j < |rest + [(k, 1), (keys, 1)]|
      ensures (rest + [(k, 1), (keys, 1)])[i].0 != (rest + [(k, 1), (keys, 1)])[j].0
    {
      assert i < |rest| ==> rest[i] == c.elems[i + 1];
      assert j < |rest| ==> rest[j] == c.elems[j + 1];
    }
    assert rest + [(k, 1)] + [(keys, 1)] == rest + [(k, 1), (keys, 1)];
  }

  lemma {:induction false} OnesTotal(s: seq<(int, int)>)
    requires forall i :: 0 <= i < |s| ==> s[i].1 == 1
    ensures Total(Worth, s) == |s|
  {
    if s != [] {
      OnesTotal(s[1..]);
    }
  }

  lemma LevelStart() returns (ops: seq<Op<int, int>>)
    ensures Level(Exec(Worth, 2, ops), 2) && |Exec(Worth, 2, ops).elems| == 2
  {
    ops := [] + [Put(0, 1)] + [Put(1, 1)];
    ExecSnoc([], Put(0, 1));
    ExecSnoc([] + [Put(0, 1)], Put(1, 1));
    assert [] + [Put(0, 1)] == [Put(0, 1)];
    Joined([(0, 1)], 1);
  }

  lemma LevelGain(before: seq<Op<int, int>>, keys: nat) returns (ops: seq<Op<int, int>>)
    requires Level(Exec(Worth, 2, before), keys)
    ensures Level(Exec(Worth, 2, ops), keys + 1) && |Exec(Worth, 2, ops).elems| == |Exec(Worth, 2, before).elems| + 1
  {
    var k := Exec(Worth, 2, before).elems[0].0;
    var grown := before + [Put(k, 2)];
    var again := grown + [Put(k, 1)];
    ops := again + [Put(keys, 1)];
    ExecSnoc(before, Put(k, 2));
    ExecSnoc(grown, Put(k, 1));
    ExecSnoc(again, Put(keys, 1));
    GainOne(Exec(Worth, 2, before), keys);
  }

  /** There is no bound to the overfill: for every n some run leaves a cache of maximum 2
      holding n more than that. */
  lemma {:induction false} OverfillIsUnbounded(n: nat) returns (ops: seq<Op<int, int>>)
    ensures var c := Exec(Worth, 2, ops);
            Level(c, n + 2) && |c.elems| == n + 2 && Total(Worth, c.elems) == 2 + n
  {
    if n == 0 {
      ops := LevelStart();
    } else {
      var before := OverfillIsUnbounded(n - 1);
      ops := LevelGain(before, n + 1);
    }
    OnesTotal(Exec(Worth, 2, ops).elems);
  }

  lemma ExecSnoc(ops: seq<Op<int, int>>, op: Op<int, int>)
    ensures Exec(Worth, 2, ops + [op]) == Step(Worth, 2, Exec(Worth, 2, ops), op)
  {
    assert (ops + [op])[..|ops|] == ops;
  }

  /** A cache loses entries but never invents or keeps an outdated one: after a put,
      a key is bound as the put says or as it was before. */
  lemma InsertIsLossy<K, V>(sz: (K, V) -> int, max: int, c: Sized<K, V>, k: K, v: V, x: K)
    requires Unique(c.elems)
    ensures var f := Find(Insert(sz, max, c, k, v).elems, x);
            f.Some? ==> f == if x == k then Some(v) else Find(c.elems, x)
  {
    if sz(k, v) <= max {
      var n := Drops(sz, c.elems, c.current - Recorded(sz, c.elems, k), max - sz(k, v));
      var rest := c.elems[n..];
      FindWithout(rest, k, x);
      LRU.FindRenewed(rest, k, v, x);
      if Find(rest, x).Some? {
        LRU.SuffixFind(rest, c.elems, x);
      }
    }
  }

  /** The put itself is kept, as the newest pair, if and only if the entry is not larger
      than the whole cache; if it is, nothing at all is kept. */
  lemma PutIsKeptIff<K, V>(sz: (K, V) -> int, max: int, c: Sized<K, V>, k: K, v: V)
    ensures Find(Insert(sz, max, c, k, v).elems, k) == if sz(k, v) <= max then Some(v) else None
    ensures sz(k, v) > max ==> Insert(sz, max, c, k, v) == Sized(0, [])
    ensures sz(k, v) <= max ==>
              var s := Insert(sz, max, c, k, v).elems;
              s != [] && s[|s| - 1] == (k, v)
  {
    if sz(k, v) <= max {
      var n := Drops(sz, c.elems, c.current - Recorded(sz, c.elems, k), max - sz(k, v));
      LRU.FindRenewed(c.elems[n..], k, v, k);
    }
  }

  /** A put keeps another pair exactly when the recorded size, without the key's old entry
      and without everything older than the pair, leaves room for the new entry. */
  lemma PutKeepsIff<K(!new), V(!new)>(sz: (K, V) -> int, max: int, c: Sized<K, V>, k: K, v: V, i: nat)
    requires NonNegative(sz) && Unique(c.elems) && sz(k, v) <= max && i < |c.elems| && c.elems[i].0 != k
    ensures var d := Insert(sz, max, c, k, v);
            var freed := if Find(c.elems, k).Some? then sz(k, Find(c.elems, k).value) else 0;
            && (HasKey(d.elems, c.elems[i].0) <==> c.current - freed - Total(sz, c.elems[..i]) + sz(k, v) <= max)
            && (HasKey(d.elems, c.elems[i].0) ==> Find(d.elems, c.elems[i].0) == Some(c.elems[i].1))
  {
    var s := c.elems;
    var cur := c.current - Recorded(sz, s, k);
    var n := Drops(sz, s, cur, max - sz(k, v));
    DropsPast(sz, s, cur, max - sz(k, v), i);
    KeptInRest(s, n, k, v, i);
  }

  lemma KeptInRest<K, V>(s: seq<(K, V)>, n: nat, k: K, v: V, i: nat)
    requires Unique(s) && n <= |s| && i < |s| && s[i].0 != k
    ensures HasKey(Renew(s[n..], k, v), s[i].0) <==> n <= i
    ensures n <= i ==> Find(Renew(s[n..], k, v), s[i].0) == Some(s[i].1)
  {
    LRU.FindRenewed(s[n..], k, v, s[i].0);
    FindIff(Renew(s[n..], k, v), s[i].0);
    FindIff(s[n..], s[i].0);
    if n <= i {
      assert s[n..][i - n] == s[i];
      FindAt(s[n..], i - n);
    }
  }

  /** What was used since the cache was last flushed: puts, hits (as puts of the value
      found) and evictions.  A put of an entry larger than the maximum is a flush. */
  ghost function Uses<K, V>(sz: (K, V) -> int, max: int, ops: seq<Op<K, V>>): seq<LinkedRuns.Op<K, V>> {
    if ops == [] then []
    else
      var before, op := ops[..|ops| - 1], ops[|ops| - 1];
      var log, hit := Uses(sz, max, before), if op.Get? then Find(Exec(sz, max, before).elems, op.key) else None;
      match op
      case Put(k, v) => if sz(k, v) <= max then log + [LinkedRuns.Put(k, v)] else []
      case Get(k) => if hit.Some? then log + [LinkedRuns.Put(k, hit.value)] else log
      case Evict(k) => log + [LinkedRuns.Delete(k)]
      case Flush => []
  }

  lemma InsertKeepsSuffix<K, V>(sz: (K, V) -> int, max: int, c: Sized<K, V>, ref: seq<(K, V)>, k: K, v: V)
    requires LRU.Suffix(c.elems, ref) && sz(k, v) <= max
    ensures LRU.Suffix(Insert(sz, max, c, k, v).elems, Renew(ref, k, v))
  {
    var n := Drops(sz, c.elems, c.current - Recorded(sz, c.elems, k), max - sz(k, v));
    assert LRU.Suffix(c.elems[n..], ref);
    LRU.SuffixRenew(c.elems[n..], ref, k, v);
  }

  /** In every run the cache holds the most recently used pairs: a suffix of the replay of
      what was used. */
  lemma {:induction false} CacheIsSuffix<K, V>(sz: (K, V) -> int, max: int, ops: seq<Op<K, V>>)
    ensures var log := Uses(sz, max, ops);
            && LRU.Suffix(Exec(sz, max, ops).elems, LinkedRuns.Replay(log))
            && Unique(LinkedRuns.Replay(log)) && LinkedRuns.ByLastOp(log, LinkedRuns.Replay(log))
  {
    LinkedRuns.ReplayOrder(Uses(sz, max, ops));
    if ops != [] {
      var before, op := ops[..|ops| - 1], ops[|ops| - 1];
      var c, log := Exec(sz, max, before), Uses(sz, max, before);
      CacheIsSuffix(sz, max, before);
      match op
      case Put(k, v) =>
        if sz(k, v) <= max {
          InsertKeepsSuffix(sz, max, c, LinkedRuns.Replay(log), k, v);
          LRU.ReplaySnoc(log, LinkedRuns.Put(k, v));
        }
      case Get(k) =>
        if Find(c.elems, k).Some? {
          LRU.TouchKeepsSuffix(c.elems, LinkedRuns.Replay(log), k);
          LRU.ReplaySnoc(log, LinkedRuns.Put(k, Find(c.elems, k).value));
        }
      case Evict(k) =>
        LRU.SuffixWithout(c.elems, LinkedRuns.Replay(log), k);
        LRU.ReplaySnoc(log, LinkedRuns.Delete(k));
      case Flush =>
    }
  }

  /** The value of the last Put of a key, unless it was evicted or flushed since. */
  ghost function Latest<K, V>(sz: (K, V) -> int, max: int, ops: seq<Op<K, V>>, k: K): Option<V> {
    if ops == [] then None
    else
      var op := ops[|ops| - 1];
      if op.Flush? || (op.Put? && sz(op.key, op.value) > max) || (op.Evict? && op.key == k) then None
      else if op.Put? && op.key == k then Some(op.value)
      else Latest(sz, max, ops[..|ops| - 1], k)
  }

  lemma StepFresh<K, V>(sz: (K, V) -> int, max: int, c: Sized<K, V>, op: Op<K, V>, k: K)
    requires Unique(c.elems)
    ensures var f := Find(Step(sz, max, c, op).elems, k);
            f.Some? ==>
              && !op.Flush? && !(op.Evict? && op.key == k)
              && f == if op.Put? && op.key == k then Some(op.value) else Find(c.elems, k)
  {
    match op
    case Put(x, v) => InsertIsLossy(sz, max, c, x, v, k);
    case Get(x) => if Find(c.elems, x).Some? { LRU.FindRenewed(c.elems, x, Find(c.elems, x).value, k); }
    case Evict(x) => FindWithout(c.elems, x, k);
    case Flush =>
  }

  /** A hit never returns a stale value: what the cache holds for a key is the value of the
      last Put of that key, which has not been evicted or flushed since. */
  lemma {:induction false} CacheIsFresh<K, V>(sz: (K, V) -> int, max: int, ops: seq<Op<K, V>>, k: K)
    ensures var f := Find(Exec(sz, max, ops).elems, k); f.Some? ==> f == Latest(sz, max, ops, k)
  {
    if ops != [] {
      var before, op := ops[..|ops| - 1], ops[|ops| - 1];
      var c := Exec(sz, max, before);
      CacheIsFresh(sz, max, before, k);
      CacheIsSuffix(sz, max, before);
      StepFresh(sz, max, c, op, k);
    }
  }

  /** d is c after an eviction: the key is gone, every other key is bound as it was and in
      its old order, and the recorded size is less by the size of the value that left. */
  ghost predicate Evicted<K(!new), V>(sz: (K, V) -> int, c: Sized<K, V>, k: K, d: Sized<K, V>) {
    && Find(d.elems, k).None?
    && (forall x :: x != k ==> Find(d.elems, x) == Find(c.elems, x))
    && (forall i :: 0 <= i < |c.elems| && c.elems[i].0 == k ==>
          d.elems == c.elems[..i] + c.elems[i + 1..] && d.current == c.current - sz(k, c.elems[i].1))
    && (!HasKey(c.elems, k) ==> d == c)
  }

  lemma RemoveEvicts<K(!new), V>(sz: (K, V) -> int, c: Sized<K, V>, k: K)
    requires Unique(c.elems)
    ensures Evicted(sz, c, k, Remove(sz, c, k))
  {
    forall x ensures Find(Without(c.elems, k), x) == if x == k then None else Find(c.elems, x) {
      FindWithout(c.elems, k, x);
    }
    FindIff(c.elems, k);
    if HasKey(c.elems, k) {
      forall i | 0 <= i < |c.elems| && c.elems[i].0 == k
        ensures Without(c.elems, k) == c.elems[..i] + c.elems[i + 1..] && Find(c.elems, k) == Some(c.elems[i].1)
      {
        WithoutAt(c.elems, i);
        FindAt(c.elems, i);
      }
    } else {
      WithoutAbsent(c.elems, k);
    }
  }

  // ------------------------------------------------------------------- cache

  /** The eviction loop of put: it terminates and always finds a pair to drop. */
  method MakeRoom<K, V>(h: Hashmap<K, V>, sz: (K, V) -> int, current: int, room: int) returns (now: int)
    requires h.Valid() && 0 <= room && current <= Total(sz, h.Contents())
    modifies h.Repr()
    ensures h.Valid() && h.Repr() <= old(h.Repr())
    ensures Sized(now, h.Contents()) == Trim(sz, Sized(current, old(h.Contents())), room)
  {
    now := current;
    ghost var goal := Trim(sz, Sized(current, h.Contents()), room);
    while now > room
      invariant h.Valid() && h.Repr() <= old(h.Repr())
      invariant now <= Total(sz, h.Contents())
      invariant Trim(sz, Sized(now, h.Contents()), room) == goal
      decreases |h.Contents()|
    {
      TrimStep(sz, Sized(now, h.Contents()), room);
      var kv := LRU.DropOldest(h);
      now := now - sz(kv.0, kv.1);
    }
  }

  /** The start of put: the size of the value being replaced is taken out. */
  method Uncharge<K(==), V>(h: Hashmap<K, V>, sz: (K, V) -> int, current: int, key: K) returns (now: int)
    requires h.Valid()
    ensures now == current - Recorded(sz, h.Contents(), key)
  {
    now := current;
    var oldValue := h.Get(key);
    if oldValue.Some? {
      now := now - sz(key, oldValue.value);
    }
  }

  /** The first half of put: room for an entry of the given size.  t is the cache it is to
      arrive at. */
  method FitIn<K(==, !new), V(!new)>(h: Hashmap<K, V>, sz: (K, V) -> int, max: int, current: int, key: K, entry: int,
                                     ghost t: Sized<K, V>)
      returns (now: int)
    requires h.Valid() && NonNegative(sz) && entry <= max && current <= Total(sz, h.Contents())
    requires t == Trim(sz, Sized(current - Recorded(sz, h.Contents(), key), h.Contents()), max - entry)
    modifies h.Repr()
    ensures h.Valid() && h.Repr() <= old(h.Repr())
    ensures now == t.current && h.Contents() == t.elems
  {
    RecordedNonNegative(sz, h.Contents(), key);
    var uncharged := Uncharge(h, sz, current, key);
    now := MakeRoom(h, sz, uncharged, max - entry);
  }

  /** Put of an entry that fits by itself.  d is the cache it is to arrive at. */
  method Store<K(==, !new), V(!new)>(h: Hashmap<K, V>, sz: (K, V) -> int, max: int, current: int, key: K, value: V,
                                     ghost d: Sized<K, V>)
      returns (now: int)
    requires h.Valid() && NonNegative(sz) && sz(key, value) <= max && current <= Total(sz, h.Contents())
    requires d == Insert(sz, max, Sized(current, h.Contents()), key, value)
    modifies h.Repr()
    ensures h.Valid() && fresh(h.Repr() - old(h.Repr()))
    ensures now == d.current && h.Contents() == d.elems
  {
    ghost var t := InsertTrims(sz, max, Sized(current, h.Contents()), key, value);
    now := Replace(h, sz, max, current, key, value, t, d);
  }

  lemma InsertTrims<K, V>(sz: (K, V) -> int, max: int, c: Sized<K, V>, k: K, v: V) returns (t: Sized<K, V>)
    requires sz(k, v) <= max
    ensures t == Trim(sz, Sized(c.current - Recorded(sz, c.elems, k), c.elems), max - sz(k, v))
    ensures Insert(sz, max, c, k, v) == Sized(t.current + sz(k, v), Renew(t.elems, k, v))
  {
    t := Trim(sz, Sized(c.current - Recorded(sz, c.elems, k), c.elems), max - sz(k, v));
  }

  /** Take out the size of the value being replaced, make room, store the new one, and add
      its size: the cache arrives first at t, then at d. */
  method Replace<K(==, !new), V(!new)>(h: Hashmap<K, V>, sz: (K, V) -> int, max: int, current: int, key: K, value: V,
                                       ghost t: Sized<K, V>, ghost d: Sized<K, V>)
      returns (now: int)
    requires h.Valid() && NonNegative(sz) && sz(key, value) <= max && current <= Total(sz, h.Contents())
    requires t == Trim(sz, Sized(current - Recorded(sz, h.Contents(), key), h.Contents()), max - sz(key, value))
    requires d == Sized(t.current + sz(key, value), Renew(t.elems, key, value))
    modifies h.Repr()
    ensures h.Valid() && fresh(h.Repr() - old(h.Repr()))
    ensures now == d.current && h.Contents() == d.elems
  {
    var rest := FitIn(h, sz, max, current, key, sz(key, value), t);
    h.Put(key, value);
    now := rest + sz(key, value);
  }

  /** Evict: a present key leaves, and its size with it.  d is the cache it is to arrive
      at. */
  method Expel<K(==), V>(h: Hashmap<K, V>, sz: (K, V) -> int, current: int, key: K, ghost d: Sized<K, V>) returns (now: int)
    requires h.Valid() && d == Remove(sz, Sized(current, h.Contents()), key)
    modifies h.Repr()
    ensures h.Valid() && h.Repr() <= old(h.Repr())
    ensures now == d.current && h.Contents() == d.elems
  {
    now := current;
    var value := h.Get(key);
    if value.Some? {
      var _ := h.Delete(key);
      now := now - sz(key, value.value);
    } else {
      FindIff(h.Contents(), key);
      WithoutAbsent(h.Contents(), key);
    }
  }

  class SizedLRU<K(==, !new), V(!new)> {
    var elements: Hashmap<K, V>
    const maxSize: int
    var currentSize: int
    const size: (K, V) -> int

    ghost predicate Valid()
      reads this, elements, elements.entryList, elements.entryList.nodes
    {
      && elements.Valid() && this !in elements.Repr()
      && NonNegative(size) && currentSize <= Total(size, elements.Contents())
    }

    ghost function Contents(): Sized<K, V>
      reads this, elements, elements.entryList, elements.entryList.nodes
    {
      Sized(currentSize, elements.Contents())
    }

    constructor (maxSize: int, size: (K, V) -> int)
      requires NonNegative(size)
      ensures Valid() && Contents() == Sized(0, []) && this.maxSize == maxSize && this.size == size
      ensures fresh(elements.Repr())
    {
      elements := new Hashmap<K, V>();
      this.maxSize, this.size, currentSize := maxSize, size, 0;
    }

    method Put(key: K, value: V)
      requires Valid()
      modifies this, elements.Repr()
      ensures Valid() && fresh(elements.Repr() - old(elements.Repr()))
      ensures Contents() == Insert(size, maxSize, old(Contents()), key, value)
    {
      if size(key, value) > maxSize {
        Flush();
      } else {
        ghost var d := Insert(size, maxSize, Contents(), key, value);
        assert d.current <= Total(size, d.elems) by {
          elements.ContentsUnique();
          InsertSound(size, maxSize, Contents(), key, value);
        }
        var now := Store(elements, size, maxSize, currentSize, key, value, d);
        assert this !in elements.Repr();
        currentSize := now;
        assert elements.Contents() == d.elems;
      }
    }

    method Get(key: K) returns (value: Option<V>)
      requires Valid()
      modifies elements.Repr()
      ensures Valid() && fresh(elements.Repr() - old(elements.Repr()))
      ensures value == Find(old(elements.Contents()), key)
      ensures Contents() == old(Contents()).(elems := LRU.Touch(old(elements.Contents()), key))
      ensures value.Some? ==>
                elements.Contents() != [] && elements.Contents()[|elements.Contents()| - 1] == (key, value.value)
    {
      elements.ContentsUnique();
      TouchTotal(size, elements.Contents(), key);
      value := elements.Get(key);
      if value.Some? {
        elements.Put(key, value.value);
      }
    }

    method Evict(key: K)
      requires Valid()
      modifies this`currentSize, elements.Repr()
      ensures Valid() && elements.Repr() <= old(elements.Repr())
      ensures Contents() == Remove(size, old(Contents()), key)
      ensures Evicted(size, old(Contents()), key, Contents())
    {
      ghost var before, d := Contents(), Remove(size, Contents(), key);
      assert Evicted(size, before, key, d) && d.current <= Total(size, d.elems) by {
        elements.ContentsUnique();
        RemoveEvicts(size, before, key);
        TotalWithout(size, before.elems, key);
      }
      currentSize := Expel(elements, size, currentSize, key, d);
      assert Contents() == d;
    }

    method Flush()
      requires Valid()
      modifies this`elements, this`currentSize
      ensures Valid() && fresh(elements.Repr())
      ensures Contents() == Sized(0, [])
    {
      elements := new Hashmap<K, V>();
      currentSize := 0;
    }
  }

  /** One call on the class is one Step. */
  method Perform<K(==, !new), V(!new)>(c: SizedLRU<K, V>, op: Op<K, V>)
    requires c.Valid()
    modifies c, c.elements.Repr()
    ensures c.Valid() && fresh(c.elements.Repr() - old(c.elements.Repr()))
    ensures c.Contents() == Step(c.size, c.maxSize, old(c.Contents()), op)
  {
    match op
    case Put(k, v) => c.Put(k, v);
    case Get(k) => var _ := c.Get(k);
    case Evict(k) => c.Evict(k);
    case Flush => c.Flush();
  }

  /** The class runs as Exec says: its recorded size is within the maximum, and falls short
      of the true total by exactly the run's lag. */
  method RunCache<K(==, !new), V(!new)>(maxSize: int, size: (K, V) -> int, ops: seq<Op<K, V>>) returns (c: SizedLRU<K, V>)
    requires NonNegative(size)
    ensures fresh(c) && fresh(c.elements.Repr()) && c.Valid() && c.size == size && c.maxSize == maxSize
    ensures c.Contents() == Exec(size, maxSize, ops)
    ensures c.currentSize <= Total(size, c.elements.Contents())
    ensures Total(size, c.elements.Contents()) - c.currentSize == Lag(size, maxSize, ops)
    ensures 0 <= maxSize ==> c.currentSize <= maxSize
  {
    if ops == [] {
      c := new SizedLRU<K, V>(maxSize, size);
    } else {
      c := RunCache(maxSize, size, ops[..|ops| - 1]);
      Perform(c, ops[|ops| - 1]);
    }
    RunSound(size, maxSize, ops);
    RunLags(size, maxSize, ops);
  }
}
