/** The deduplicating LRU cache that tells objects when they are evicted
    (utils/cache/unique_cache.go).

    The source keeps its own map into a linked list, the structure of the linked hash
    map, which is used for it here.  An object is a pair of its stable key and the
    object itself; the calls of the Evict callback are recorded, in order, in the
    field evictions. */
module EvictableLRU {
  import opened Options
  import opened AssocList
  import opened LinkedHashmap
  import opened LinkedList
  import LRU
  import LinkedRuns = LinkedHashmapRuns

  // ------------------------------------------------------------ specification

  /** The Size field, the cached objects, oldest first, and the callbacks made. */
  datatype Dedup<K, V> = Dedup(size: int, elems: seq<(K, V)>, evictions: seq<(K, V)>)

  /** The oldest objects are evicted, in order, until at most n are left. */
  function Shrunk<K, V>(c: Dedup<K, V>, n: nat): Dedup<K, V> {
    c.(elems := LRU.Newest(c.elems, n), evictions := c.evictions + Excess(c.elems, n))
  }

  /** All but the n newest. */
  function Excess<T>(s: seq<T>, n: nat): seq<T> {
    if |s| <= n then [] else s[..|s| - n]
  }

  /** The cache as deduplicate finds it after init and resize. */
  function Ready<K, V>(c: Dedup<K, V>): Dedup<K, V> {
    Shrunk(c.(size := LRU.Effective(c.size)), LRU.Effective(c.size))
  }

  /** What deduplicate does then: a known key becomes the newest; a new object goes in,
      in a full cache at the cost of the oldest. */
  function Admit<K(==), V>(c: Dedup<K, V>, k: K, v: V): Dedup<K, V> {
    if Find(c.elems, k).Some? then c.(elems := Renew(c.elems, k, Find(c.elems, k).value))
    else if |c.elems| >= c.size && c.elems != [] then
      c.(elems := c.elems[1..] + [(k, v)], evictions := c.evictions + [c.elems[0]])
    else c.(elems := c.elems + [(k, v)])
  }

  /** Callbacks are only ever added behind those made before. */
  lemma AdmitAppends<K, V>(c: Dedup<K, V>, k: K, v: V)
    ensures var d := Admit(c.(evictions := []), k, v);
            Admit(c, k, v) == Dedup(c.size, d.elems, c.evictions + d.evictions)
  {
  }

  function Flushed<K, V>(c: Dedup<K, V>): Dedup<K, V> {
    Shrunk(c.(size := LRU.Effective(c.size)), 0)
  }

  // ------------------------------------------------------------------- cache

  /** The loop of resize: each oldest object leaves list and map and is evicted. */
  method EvictDown<K, V>(h: Hashmap<K, V>, size: nat) returns (evicted: seq<(K, V)>)
    requires h.Valid()
    modifies h.Repr()
    ensures h.Valid() && h.Repr() <= old(h.Repr())
    ensures h.Contents() == LRU.Newest(old(h.Contents()), size) && evicted == Excess(old(h.Contents()), size)
  {
    ghost var s := h.Contents();
    evicted := [];
    var n := h.Len();
    while n > size
      invariant h.Valid() && h.Repr() <= old(h.Repr()) && n == |h.Contents()|
      invariant Shrinking(evicted, h.Contents(), s, size)
    {
      ShrinkOne(evicted, h.Contents(), s, size);
      var kv := LRU.DropOldest(h);
      evicted := evicted + [kv];
      n := h.Len();
    }
  }

  /** Part of s is evicted, the rest still has to give up its excess. */
  ghost predicate Shrinking<K, V>(evicted: seq<(K, V)>, rest: seq<(K, V)>, s: seq<(K, V)>, n: nat) {
    LRU.Newest(rest, n) == LRU.Newest(s, n) && evicted + Excess(rest, n) == Excess(s, n)
  }

  lemma ShrinkOne<K, V>(evicted: seq<(K, V)>, rest: seq<(K, V)>, s: seq<(K, V)>, n: nat)
    requires Shrinking(evicted, rest, s, n) && |rest| > n
    ensures Shrinking(evicted + [rest[0]], rest[1..], s, n)
  {
    LRU.NewestDrop(rest, n);
    ExcessDrop(rest, n);
    assert evicted + [rest[0]] + Excess(rest[1..], n) == evicted + ([rest[0]] + Excess(rest[1..], n));
  }

  lemma ExcessDrop<T>(s: seq<T>, n: nat)
    requires |s| > n
    ensures Excess(s, n) == [s[0]] + Excess(s[1..], n)
  {
  }

  /** A full cache reuses the oldest node: it moves to the back, its object is evicted,
      and the new object takes its place under the new key. */
  method Recycle<K(==), V>(h: Hashmap<K, V>, k: K, v: V) returns (evicted: (K, V))
    requires h.Valid() && h.Contents() != [] && Find(h.Contents(), k).None?
    modifies h.Repr()
    ensures h.Valid() && h.Repr() <= old(h.Repr())
    ensures evicted == old(h.Contents())[0] && h.Contents() == old(h.Contents())[1..] + [(k, v)]
  {
    h.ContentsUnique();
    FindIff(h.Contents(), k);
    var e, others := FreeOldest(h);
    evicted := e.value;
    Overwrite(h, e, k, v, others);
  }

  /** The oldest node moves to the back and its key is forgotten. */
  method FreeOldest<K(==), V>(h: Hashmap<K, V>) returns (e: Element<(K, V)>, ghost others: seq<Element<(K, V)>>)
    requires h.Valid() && h.Contents() != []
    modifies h`entryMap, h.entryList, h.entryList.nodes`next, h.entryList.nodes`prev
    ensures h.entryList.Valid() && h.Repr() <= old(h.Repr())
    ensures h.entryList.nodes == others + [e] && e !in others
    ensures Values(others) == old(h.Contents())[1..] && e.value == old(h.Contents())[0]
    ensures Indexed(h.entryMap, others) && h.entryMap == old(h.entryMap) - {e.value.0}
  {
    e, others := RotateOldest(h);
    h.entryMap := h.entryMap - {e.value.0};
  }

  method RotateOldest<K(==), V>(h: Hashmap<K, V>) returns (e: Element<(K, V)>, ghost others: seq<Element<(K, V)>>)
    requires h.Valid() && h.Contents() != []
    modifies h.entryList, h.entryList.nodes`next, h.entryList.nodes`prev
    ensures h.entryList.Valid() && h.Repr() <= old(h.Repr())
    ensures h.entryList.nodes == others + [e] && e !in others
    ensures Values(others) == old(h.Contents())[1..] && e.value == old(h.Contents())[0]
    ensures Indexed(h.entryMap - {e.value.0}, others)
  {
    h.ContentsUnique();
    WithoutFirst(h.Contents());
    h.OldestIsFirst();
    e := h.entryList.front;
    others := h.Refresh(e.value.0);
    IndexedWithout(h.entryMap, h.entryList.nodes, e.value.0, others);
  }

  /** A node that no longer counts gets a new pair. */
  method Relabel<K(==), V>(e: Element<(K, V)>, k: K, v: V, ghost m: map<K, Element<(K, V)>>, ghost others: seq<Element<(K, V)>>)
    requires e !in others && Indexed(m, others)
    modifies e`value
    ensures e.value == (k, v) && Values(others) == old(Values(others)) && Indexed(m, others)
  {
    e.value := (k, v);
  }

  method Overwrite<K(==), V>(h: Hashmap<K, V>, e: Element<(K, V)>, k: K, v: V, ghost others: seq<Element<(K, V)>>)
    requires h.entryList.Valid() && h.entryList.nodes == others + [e] && e !in others
    requires Indexed(h.entryMap, others) && k !in h.entryMap
    modifies h`entryMap, e`value
    ensures h.Valid() && h.Contents() == old(Values(others)) + [(k, v)]
  {
    Relabel(e, k, v, h.entryMap, others);
    Reindex(h, e, others);
  }

  method Reindex<K(==), V>(h: Hashmap<K, V>, e: Element<(K, V)>, ghost others: seq<Element<(K, V)>>)
    requires h.entryList.Valid() && h.entryList.nodes == others + [e]
    requires Indexed(h.entryMap, others) && e.value.0 !in h.entryMap
    modifies h`entryMap
    ensures h.Valid() && h.Contents() == Values(others) + [e.value]
  {
    ValuesSnoc(others, e);
    IndexedSnoc(h.entryMap, others, e);
    h.entryMap := h.entryMap[e.value.0 := e];
  }

  /** The body of deduplicate, after init and resize. */
  method Lodge<K(==), V>(h: Hashmap<K, V>, size: int, k: K, v: V) returns (r: V, evicted: seq<(K, V)>)
    requires h.Valid() && 0 < size
    modifies h.Repr()
    ensures h.Valid() && fresh(h.Repr() - old(h.Repr()))
    ensures Dedup(size, h.Contents(), evicted) == Admit(Dedup(size, old(h.Contents()), []), k, v)
    ensures r == if Find(old(h.Contents()), k).Some? then Find(old(h.Contents()), k).value else v
  {
    h.ContentsUnique();
    FindIff(h.Contents(), k);
    var known := h.Get(k);
    evicted := [];
    if known.None? {
      var n := h.Len();
      if n >= size {
        var oldest := Recycle(h, k, v);
        evicted := [oldest];
      } else {
        h.Insert(k, v);
      }
      r := v;
    } else {
      h.MakeNewest(k);
      r := known.value;
    }
  }

  class EvictableLRU<K(==), V> {
    const key: V -> K
    const table: Hashmap<K, V>
    var Size: int
    var evictions: seq<(K, V)>

    ghost predicate Valid()
      reads this, table, table.entryList, table.entryList.nodes
    {
      table.Valid() && this !in table.Repr()
    }

    ghost function Contents(): Dedup<K, V>
      reads this, table, table.entryList, table.entryList.nodes
    {
      Dedup(Size, table.Contents(), evictions)
    }

    /** The zero value of the source's struct, with a Size. */
    constructor (key: V -> K, size: int)
      ensures Valid() && this.key == key && Contents() == Dedup(size, [], []) && fresh(table.Repr())
    {
      this.key := key;
      Size, evictions := size, [];
      table := new Hashmap<K, V>();
    }

    method Init()
      requires Valid()
      modifies this`Size
      ensures Valid() && Contents() == old(Contents()).(size := LRU.Effective(old(Size)))
      ensures Size == if old(Size) <= 0 then 1 else old(Size)
    {
      if Size <= 0 {
        Size := 1;
      }
    }

    method Resize()
      requires Valid() && Size >= 0
      modifies this`evictions, table.Repr()
      ensures Valid() && table.Repr() <= old(table.Repr())
      ensures Contents() == Shrunk(old(Contents()), Size)
    {
      ghost var c := Contents();
      var evicted := EvictDown(table, Size);
      assert this !in table.Repr();
      evictions := evictions + evicted;
      assert table.Contents() == LRU.Newest(c.elems, Size);
    }

    /** Returns the cached object with the same key, or the object itself, which is
        then cached. */
    method Deduplicate(value: V) returns (r: V)
      requires Valid()
      modifies this, table.Repr()
      ensures Valid() && fresh(table.Repr() - old(table.Repr()))
      ensures Contents() == Admit(Ready(old(Contents())), key(value), value)
      ensures var known := Find(Ready(old(Contents())).elems, key(value));
              r == if known.Some? then known.value else value
      ensures table.Contents() != [] && table.Contents()[|table.Contents()| - 1] == (key(value), r)
    {
      ghost var c := Ready(Contents());
      Prepare();
      r := LookUp(value, c);
    }

    /** What Deduplicate does then; c is the cache it finds. */
    method LookUp(value: V, ghost c: Dedup<K, V>) returns (r: V)
      requires Valid() && Size > 0 && c == Contents()
      modifies this`evictions, table.Repr()
      ensures Valid() && fresh(table.Repr() - old(table.Repr()))
      ensures Contents() == Admit(c, key(value), value)
      ensures r == if Find(c.elems, key(value)).Some? then Find(c.elems, key(value)).value else value
      ensures table.Contents() != [] && table.Contents()[|table.Contents()| - 1] == (key(value), r)
    {
      AdmitAppends(c, key(value), value);
      var evicted;
      r, evicted := Lodge(table, Size, key(value), value);
      ghost var elems := table.Contents();
      assert this !in table.Repr();
      evictions := evictions + evicted;
      assert table.Contents() == elems;
    }

    /** What Deduplicate does before it looks the object up. */
    method Prepare()
      requires Valid()
      modifies this, table.Repr()
      ensures Valid() && table.Repr() <= old(table.Repr())
      ensures Contents() == Ready(old(Contents())) && Size > 0
    {
      Init();
      Resize();
    }

    /** Size is set to 0 for the resize that empties the cache, and then restored. */
    method Flush()
      requires Valid()
      modifies this, table.Repr()
      ensures Valid() && table.Repr() <= old(table.Repr())
      ensures Contents() == Flushed(old(Contents()))
    {
      Init();
      var size := Size;
      Size := 0;
      Resize();
      Size := size;
    }
  }

  // -------------------------------------------------------------- whole runs

  datatype Op<V> = Deduplicate(value: V) | Flush | SetSize(size: int)

  /** A cache next to the log of every object that went into it. */
  datatype Run<K, V> = Run(cache: Dedup<K, V>, inserted: seq<(K, V)>)

  function Step<K(==), V>(key: V -> K, r: Run<K, V>, op: Op<V>): Run<K, V> {
    match op
    case Deduplicate(v) =>
      var c := Ready(r.cache);
      Run(Admit(c, key(v), v), if Find(c.elems, key(v)).Some? then r.inserted else r.inserted + [(key(v), v)])
    case Flush => r.(cache := Flushed(r.cache))
    case SetSize(n) => r.(cache := r.cache.(size := n))
  }

  function Exec<K(==), V>(key: V -> K, size: int, ops: seq<Op<V>>): Run<K, V> {
    if ops == [] then Run(Dedup(size, [], []), [])
    else Step(key, Exec(key, size, ops[..|ops| - 1]), ops[|ops| - 1])
  }

  /** Each insertion is accounted for once: the object is cached, or its Evict was
      called.  No two cached objects share a key, and keys are the objects' own. */
  ghost predicate Conserved<K, V>(key: V -> K, r: Run<K, V>) {
    && multiset(r.inserted) == multiset(r.cache.elems) + multiset(r.cache.evictions)
    && Unique(r.cache.elems)
    && (forall i :: 0 <= i < |r.cache.elems| ==> r.cache.elems[i].0 == key(r.cache.elems[i].1))
  }

  /** What resize evicts is what came before the objects it leaves, and it leaves as many as
      fit. */
  lemma ShrunkConserves<K, V>(c: Dedup<K, V>, n: nat)
    ensures Shrunk(c, n).evictions + Shrunk(c, n).elems == c.evictions + c.elems
    ensures |Shrunk(c, n).elems| == if |c.elems| <= n then |c.elems| else n
    ensures multiset(Shrunk(c, n).elems) + multiset(Shrunk(c, n).evictions) == multiset(c.elems) + multiset(c.evictions)
  {
    if |c.elems| > n {
      var i := |c.elems| - n;
      assert c.elems == c.elems[..i] + c.elems[i..];
    }
  }

  lemma RenewPermutes<K, V>(s: seq<(K, V)>, k: K)
    requires Unique(s) && Find(s, k).Some?
    ensures multiset(Renew(s, k, Find(s, k).value)) == multiset(s)
  {
    FindIff(s, k);
    var i :| 0 <= i < |s| && s[i].0 == k;
    FindAt(s, i);
    WithoutAt(s, i);
    assert s == s[..i] + [s[i]] + s[i + 1..];
    MovedToBack(s[..i], s[i], s[i + 1..]);
  }

  lemma MovedToBack<T>(a: seq<T>, x: T, b: seq<T>)
    ensures multiset(a + b + [x]) == multiset(a + [x] + b)
  {
  }

  /** What goes in comes from the new object or was there; nothing else is lost. */
  lemma AdmitConserves<K, V>(c: Dedup<K, V>, k: K, v: V)
    requires Unique(c.elems)
    ensures var d := Admit(c, k, v);
            multiset(d.elems) + multiset(d.evictions)
            == multiset(c.elems) + multiset(c.evictions) + if Find(c.elems, k).Some? then multiset{} else multiset{(k, v)}
  {
    if Find(c.elems, k).Some? {
      RenewPermutes(c.elems, k);
    } else if |c.elems| >= c.size && c.elems != [] {
      assert c.elems == [c.elems[0]] + c.elems[1..];
    }
  }

  lemma AdmitKeys<K, V>(key: V -> K, c: Dedup<K, V>, v: V)
    requires Unique(c.elems) && forall i :: 0 <= i < |c.elems| ==> c.elems[i].0 == key(c.elems[i].1)
    ensures var s := Admit(c, key(v), v).elems;
            Unique(s) && forall i :: 0 <= i < |s| ==> s[i].0 == key(s[i].1)
  {
    FindIff(c.elems, key(v));
    if Find(c.elems, key(v)).Some? {
      RenewUnique(c.elems, key(v), Find(c.elems, key(v)).value);
      RenewStable(key, c.elems, key(v));
    }
  }

  lemma RenewStable<K, V>(key: V -> K, s: seq<(K, V)>, k: K)
    requires Unique(s) && Find(s, k).Some? && forall i :: 0 <= i < |s| ==> s[i].0 == key(s[i].1)
    ensures var t := Renew(s, k, Find(s, k).value); forall i :: 0 <= i < |t| ==> t[i].0 == key(t[i].1)
  {
    FindIff(s, k);
    var i :| 0 <= i < |s| && s[i].0 == k;
    FindAt(s, i);
    WithoutAt(s, i);
  }

  lemma ShrunkKeeps<K, V>(key: V -> K, r: Run<K, V>, size: int, n: nat)
    requires Conserved(key, r)
    ensures Conserved(key, r.(cache := Shrunk(r.cache.(size := size), n)))
  {
    ShrunkConserves(r.cache.(size := size), n);
  }

  /** In every run each inserted object is still cached or has been evicted, once for
      each time it went in, never both; after a Deduplicate the cache is within its
      size. */
  lemma {:induction false} RunConserves<K, V>(key: V -> K, size: int, ops: seq<Op<V>>)
    ensures Conserved(key, Exec(key, size, ops))
    ensures ops != [] && ops[|ops| - 1].Deduplicate? ==>
              |Exec(key, size, ops).cache.elems| <= Exec(key, size, ops).cache.size
  {
    if ops != [] {
      var b, op := Exec(key, size, ops[..|ops| - 1]), ops[|ops| - 1];
      RunConserves(key, size, ops[..|ops| - 1]);
      var eff := LRU.Effective(b.cache.size);
      match op
      case Deduplicate(v) =>
        ShrunkKeeps(key, b, eff, eff);
        AdmitConserves(Ready(b.cache), key(v), v);
        AdmitKeys(key, Ready(b.cache), v);
        AdmitFits(Ready(b.cache), key(v), v);
      case Flush => ShrunkKeeps(key, b, eff, 0);
      case SetSize(_) =>
    }
  }

  /** An object is evicted exactly if its key is unknown and the cache full, and then it is
      the oldest; no other object leaves. */
  lemma AdmitEvictsIff<K, V>(c: Dedup<K, V>, k: K, v: V)
    requires Unique(c.elems) && 0 < c.size
    ensures var d := Admit(c, k, v);
            && (d.evictions == c.evictions <==> HasKey(c.elems, k) || |c.elems| < c.size)
            && (d.evictions != c.evictions ==> d.evictions == c.evictions + [c.elems[0]])
            && (forall i :: 0 <= i < |c.elems| ==>
                  (c.elems[i] in d.elems <==> HasKey(c.elems, k) || |c.elems| < c.size || i > 0))
  {
    FindIff(c.elems, k);
    if HasKey(c.elems, k) {
      RenewPermutes(c.elems, k);
      forall i | 0 <= i < |c.elems| ensures c.elems[i] in Renew(c.elems, k, Find(c.elems, k).value) {
        assert c.elems[i] in multiset(c.elems);
      }
    } else if |c.elems| >= c.size {
      assert c.elems == [c.elems[0]] + c.elems[1..];
      forall i | 0 < i < |c.elems| ensures c.elems[i] in c.elems[1..] {
        assert c.elems[1..][i - 1] == c.elems[i];
      }
    }
  }

  /** What was used since the cache was last flushed: every object handed out, under its
      key. */
  ghost function Uses<K, V>(key: V -> K, size: int, ops: seq<Op<V>>): seq<LinkedRuns.Op<K, V>> {
    if ops == [] then []
    else
      var before, op := ops[..|ops| - 1], ops[|ops| - 1];
      match op
      case Deduplicate(v) =>
        var known := Find(Ready(Exec(key, size, before).cache).elems, key(v));
        Uses(key, size, before) + [LinkedRuns.Put(key(v), if known.Some? then known.value else v)]
      case Flush => []
      case SetSize(_) => Uses(key, size, before)
  }

  lemma AdmitKeepsSuffix<K, V>(c: Dedup<K, V>, ref: seq<(K, V)>, k: K, v: V)
    requires LRU.Suffix(c.elems, ref)
    ensures LRU.Suffix(Admit(c, k, v).elems, Renew(ref, k, if Find(c.elems, k).Some? then Find(c.elems, k).value else v))
  {
    FindIff(c.elems, k);
    if Find(c.elems, k).Some? {
      LRU.SuffixRenew(c.elems, ref, k, Find(c.elems, k).value);
    } else {
      var rest := if |c.elems| >= c.size && c.elems != [] then c.elems[1..] else c.elems;
      assert LRU.Suffix(rest, ref);
      LRU.SuffixRenew(rest, ref, k, v);
      WithoutAbsent(rest, k);
    }
  }

  /** In every run the cache holds the most recently used objects: a suffix of the replay of
      what was used. */
  lemma {:induction false} CacheIsSuffix<K, V>(key: V -> K, size: int, ops: seq<Op<V>>)
    ensures var log := Uses(key, size, ops);
            && LRU.Suffix(Exec(key, size, ops).cache.elems, LinkedRuns.Replay(log))
            && Unique(LinkedRuns.Replay(log)) && LinkedRuns.ByLastOp(log, LinkedRuns.Replay(log))
  {
    LinkedRuns.ReplayOrder(Uses(key, size, ops));
    if ops != [] {
      var before, op := ops[..|ops| - 1], ops[|ops| - 1];
      CacheIsSuffix(key, size, before);
      if op.Deduplicate? {
        var c, log := Ready(Exec(key, size, before).cache), Uses(key, size, before);
        var known := Find(c.elems, key(op.value));
        assert LRU.Suffix(c.elems, LinkedRuns.Replay(log));
        AdmitKeepsSuffix(c, LinkedRuns.Replay(log), key(op.value), op.value);
        LRU.ReplaySnoc(log, LinkedRuns.Put(key(op.value), if known.Some? then known.value else op.value));
      }
    }
  }

  lemma AdmitFits<K, V>(c: Dedup<K, V>, k: K, v: V)
    requires Unique(c.elems) && |c.elems| <= c.size && 0 < c.size
    ensures |Admit(c, k, v).elems| <= c.size == Admit(c, k, v).size
  {
    if Find(c.elems, k).Some? {
      FindIff(c.elems, k);
      var i :| 0 <= i < |c.elems| && c.elems[i].0 == k;
      WithoutAt(c.elems, i);
    }
  }

  /** Flush evicts everything, oldest first, and leaves Size as init made it. */
  lemma FlushEmpties<K, V>(c: Dedup<K, V>)
    ensures Flushed(c) == Dedup(LRU.Effective(c.size), [], c.evictions + c.elems)
  {
    assert c.elems[..|c.elems|] == c.elems;
  }

  /** One call on the class is one Step of its cache. */
  method Perform<K(==), V>(c: EvictableLRU<K, V>, op: Op<V>, ghost r: Run<K, V>)
    requires c.Valid() && c.Contents() == r.cache
    modifies c, c.table.Repr()
    ensures c.Valid() && fresh(c.table.Repr() - old(c.table.Repr()))
    ensures c.Contents() == Step(c.key, r, op).cache
  {
    match op
    case Deduplicate(v) => var _ := c.Deduplicate(v);
    case Flush => c.Flush();
    case SetSize(n) => c.Size := n;
  }

  /** The class runs as Exec says. */
  method RunOps<K(==), V>(key: V -> K, size: int, ops: seq<Op<V>>) returns (c: EvictableLRU<K, V>)
    ensures fresh(c) && fresh(c.table.Repr()) && c.Valid() && c.key == key
    ensures c.Contents() == Exec(key, size, ops).cache
  {
    if ops == [] {
      c := new EvictableLRU<K, V>(key, size);
    } else {
      ghost var r := Exec(key, size, ops[..|ops| - 1]);
      c := RunOps(key, size, ops[..|ops| - 1]);
      Perform(c, ops[|ops| - 1], r);
    }
  }

  /** So each object that went into it is cached or has been evicted. */
  method RunCache<K(==), V>(key: V -> K, size: int, ops: seq<Op<V>>) returns (c: EvictableLRU<K, V>)
    ensures c.Valid() && c.Contents() == Exec(key, size, ops).cache
    ensures multiset(Exec(key, size, ops).inserted) == multiset(c.table.Contents()) + multiset(c.evictions)
  {
    c := RunOps(key, size, ops);
    RunConserves(key, size, ops);
  }
}
