/** The LRU cache with a bounded number of entries (utils/cache/lru_cache.go). */
module LRU {
  import opened Options
  import opened AssocList
  import opened LinkedHashmap
  import Runs = LinkedHashmapRuns

  // ------------------------------------------------------------ specification

  /** A size that is not positive counts as 1. */
  function Effective(size: int): nat {
    if size <= 0 then 1 else size
  }

  /** The n newest pairs. */
  function Newest<K, V>(s: seq<(K, V)>, n: nat): seq<(K, V)> {
    if |s| <= n then s else s[|s| - n..]
  }

  /** Put after the resize: a full cache drops its oldest pair first, even when the
      key is already present. */
  function Insert<K(==), V>(s: seq<(K, V)>, size: nat, k: K, v: V): seq<(K, V)> {
    Renew(if |s| == size && s != [] then s[1..] else s, k, v)
  }

  /** Get after the resize: a hit becomes the newest. */
  function Touch<K(==), V>(s: seq<(K, V)>, k: K): seq<(K, V)> {
    if Find(s, k).Some? then Renew(s, k, Find(s, k).value) else s
  }

  // ------------------------------------------------------------------- cache

  /** Oldest followed by Delete, as every eviction of these caches does it. */
  method DropOldest<K, V>(h: Hashmap<K, V>) returns (dropped: (K, V))
    requires h.Valid() && h.Contents() != []
    modifies h.Repr()
    ensures h.Valid() && h.Repr() <= old(h.Repr())
    ensures h.Contents() == old(h.Contents())[1..] && dropped == old(h.Contents())[0]
  {
    h.ContentsUnique();
    WithoutFirst(h.Contents());
    var kv := h.Oldest();
    dropped := kv.value;
    var _ := h.Delete(dropped.0);
  }

  /** The loop of resize. */
  method Shrink<K, V>(h: Hashmap<K, V>, size: nat)
    requires h.Valid()
    modifies h.Repr()
    ensures h.Valid() && h.Repr() <= old(h.Repr())
    ensures h.Contents() == Newest(old(h.Contents()), size)
  {
    ghost var goal := Newest(h.Contents(), size);
    var n := h.Len();
    while n > size
      invariant h.Valid() && h.Repr() <= old(h.Repr()) && n == |h.Contents()|
      invariant Newest(h.Contents(), size) == goal
    {
      NewestDrop(h.Contents(), size);
      var _ := DropOldest(h);
      n := h.Len();
    }
  }

  lemma NewestDrop<K, V>(s: seq<(K, V)>, n: nat)
    requires |s| > n
    ensures Newest(s[1..], n) == Newest(s, n)
  {
  }

  /** Put after the resize. */
  method PutKept<K(==), V>(h: Hashmap<K, V>, size: int, key: K, value: V, ghost kept: seq<(K, V)>)
    requires h.Valid() && h.Contents() == kept && 0 < size
    modifies h.Repr()
    ensures h.Valid() && fresh(h.Repr() - old(h.Repr()))
    ensures h.Contents() == Insert(kept, size, key, value)
  {
    var n := h.Len();
    if n == size {
      var _ := DropOldest(h);
    }
    h.Put(key, value);
  }

  class LRU<K(==), V> {
    var elements: Hashmap?<K, V>
    var Size: int

    ghost predicate Valid()
      reads this
      reads if elements == null then {} else {elements, elements.entryList}
      reads if elements == null then [] else elements.entryList.nodes
    {
      elements != null ==> elements.Valid() && this !in elements.Repr()
    }

    ghost function Contents(): seq<(K, V)>
      reads this
      reads if elements == null then {} else {elements.entryList}
      reads if elements == null then [] else elements.entryList.nodes
    {
      if elements == null then [] else elements.Contents()
    }

    /** The objects behind the cache. */
    ghost function Repr(): set<object>
      reads this
      reads if elements == null then {} else {elements.entryList}
    {
      if elements == null then {} else elements.Repr()
    }

    constructor (size: int)
      ensures Valid() && Contents() == [] && Size == size && Repr() == {}
    {
      elements, Size := null, size;
    }

    /** A nil element map becomes an empty one, a size that is not positive becomes 1,
        and the oldest pairs go until the rest fits. */
    method Resize()
      requires Valid()
      modifies this, Repr()
      ensures Valid() && elements != null && fresh(Repr() - old(Repr()))
      ensures Size == Effective(old(Size)) && Size == (if old(Size) <= 0 then 1 else old(Size))
      ensures Contents() == Newest(old(Contents()), Size)
      ensures |old(Contents())| <= Size ==> Contents() == old(Contents())
      ensures |old(Contents())| > Size ==> Contents() == old(Contents())[|old(Contents())| - Size..]
    {
      if elements == null {
        elements := new Hashmap<K, V>();
      }
      if Size <= 0 {
        Size := 1;
      }
      assert this !in elements.Repr();
      Shrink(elements, Size);
    }

    method Put(key: K, value: V)
      requires Valid()
      modifies this, Repr()
      ensures Valid() && fresh(Repr() - old(Repr()))
      ensures Size == Effective(old(Size))
      ensures Contents() == Insert(Newest(old(Contents()), Size), Size, key, value)
      ensures Contents() != [] && Contents()[|Contents()| - 1] == (key, value)
    {
      ghost var kept := Newest(Contents(), Effective(Size));
      Resize();
      PutKept(elements, Size, key, value, kept);
    }

    method Get(key: K) returns (value: Option<V>)
      requires Valid()
      modifies this, Repr()
      ensures Valid() && fresh(Repr() - old(Repr()))
      ensures Size == Effective(old(Size))
      ensures value == Find(Newest(old(Contents()), Size), key)
      ensures Contents() == Touch(Newest(old(Contents()), Size), key)
      ensures value.Some? ==> Contents() != [] && Contents()[|Contents()| - 1] == (key, value.value)
    {
      Resize();
      value := elements.Get(key);
      if value.Some? {
        elements.Put(key, value.value);
      }
    }

    method Evict(key: K)
      requires Valid()
      modifies this, Repr()
      ensures Valid() && fresh(Repr() - old(Repr()))
      ensures Size == Effective(old(Size))
      ensures Contents() == Without(Newest(old(Contents()), Size), key)
      ensures Find(Contents(), key).None?
    {
      Resize();
      FindWithout(elements.Contents(), key, key);
      var _ := elements.Delete(key);
    }

    method Flush()
      requires Valid()
      modifies this`elements
      ensures Valid() && fresh(Repr())
      ensures Contents() == []
    {
      elements := new Hashmap<K, V>();
    }
  }

  // -------------------------------------------------------------- whole runs

  datatype Op<K, V> = Put(key: K, value: V) | Get(key: K) | Evict(key: K) | Flush | SetSize(size: int)

  /** A cache (its Size field and contents) next to an unbounded log of what was
      used since the last flush: puts, cache hits (as puts of the value found) and
      evictions. */
  datatype Run<K, V> = Run(size: int, elems: seq<(K, V)>, log: seq<Runs.Op<K, V>>)

  function Step<K(==), V>(r: Run<K, V>, op: Op<K, V>): Run<K, V> {
    var size := Effective(r.size);
    var kept := Newest(r.elems, size);
    match op
    case Put(k, v) => Run(size, Insert(kept, size, k, v), r.log + [Runs.Put(k, v)])
    case Get(k) =>
      Run(size, Touch(kept, k), if Find(kept, k).Some? then r.log + [Runs.Put(k, Find(kept, k).value)] else r.log)
    case Evict(k) => Run(size, Without(kept, k), r.log + [Runs.Delete(k)])
    case Flush => r.(elems := [], log := [])
    case SetSize(n) => r.(size := n)
  }

  function Exec<K(==), V>(size: int, ops: seq<Op<K, V>>): Run<K, V> {
    if ops == [] then Run(size, [], []) else Step(Exec(size, ops[..|ops| - 1]), ops[|ops| - 1])
  }

  ghost predicate Suffix<T>(s: seq<T>, t: seq<T>) {
    |s| <= |t| && s == t[|t| - |s|..]
  }

  /** The value of the last Put of a key, unless it was evicted or flushed since. */
  function Latest<K(==), V>(ops: seq<Op<K, V>>, k: K): Option<V> {
    if ops == [] then None
    else
      var op := ops[|ops| - 1];
      if op.Put? && op.key == k then Some(op.value)
      else if op.Flush? || (op.Evict? && op.key == k) then None
      else Latest(ops[..|ops| - 1], k)
  }

  lemma SuffixParts<T>(s: seq<T>, t: seq<T>)
    requires Suffix(s, t)
    ensures t == t[..|t| - |s|] + s
  {
  }

  /** Suffixes survive removing a key, and renewing it, on both sides. */
  lemma SuffixWithout<K, V>(s: seq<(K, V)>, t: seq<(K, V)>, k: K)
    requires Suffix(s, t)
    ensures Suffix(Without(s, k), Without(t, k))
  {
    SuffixParts(s, t);
    WithoutConcat(t[..|t| - |s|], s, k);
  }

  lemma SuffixRenew<K, V>(s: seq<(K, V)>, t: seq<(K, V)>, k: K, v: V)
    requires Suffix(s, t)
    ensures Suffix(Renew(s, k, v), Renew(t, k, v))
  {
    SuffixWithout(s, t, k);
  }

  lemma SuffixFind<K, V>(s: seq<(K, V)>, t: seq<(K, V)>, k: K)
    requires Suffix(s, t) && Unique(t) && Find(s, k).Some?
    ensures Find(t, k) == Find(s, k)
  {
    FindIff(s, k);
    var i :| 0 <= i < |s| && s[i].0 == k;
    FindAt(s, i);
    FindAt(t, |t| - |s| + i);
  }

  lemma FindRenewed<K, V>(s: seq<(K, V)>, k: K, v: V, x: K)
    ensures Find(Renew(s, k, v), x) == if x == k then Some(v) else Find(s, x)
  {
    FindWithout(s, k, x);
    Runs.FindSnoc(Without(s, k), (k, v), x);
  }

  lemma ReplaySnoc<K, V>(log: seq<Runs.Op<K, V>>, op: Runs.Op<K, V>)
    ensures Runs.Replay(log + [op]) == Runs.Apply(Runs.Replay(log), op)
  {
    assert (log + [op])[..|log|] == log;
  }

  lemma InsertKeepsSuffix<K, V>(kept: seq<(K, V)>, ref: seq<(K, V)>, size: nat, k: K, v: V)
    requires Suffix(kept, ref) && Unique(ref) && 0 < size && |kept| <= size
    ensures Suffix(Insert(kept, size, k, v), Renew(ref, k, v)) && |Insert(kept, size, k, v)| <= size
  {
    var room := if |kept| == size then kept[1..] else kept;
    assert Suffix(room, ref);
    WithoutUnique(room, k);
    SuffixRenew(room, ref, k, v);
  }

  lemma TouchKeepsSuffix<K, V>(kept: seq<(K, V)>, ref: seq<(K, V)>, k: K)
    requires Suffix(kept, ref) && Unique(ref) && Find(kept, k).Some?
    ensures Suffix(Touch(kept, k), Renew(ref, k, Find(kept, k).value)) && |Touch(kept, k)| == |kept|
  {
    FindIff(kept, k);
    var i :| 0 <= i < |kept| && kept[i].0 == k;
    WithoutAt(kept, i);
    SuffixRenew(kept, ref, k, Find(kept, k).value);
  }

  lemma StepKeepsSuffix<K, V>(r: Run<K, V>, op: Op<K, V>)
    requires Suffix(r.elems, Runs.Replay(r.log)) && Unique(Runs.Replay(r.log))
    ensures Suffix(Step(r, op).elems, Runs.Replay(Step(r, op).log))
    ensures op.Put? || op.Get? || op.Evict? ==> |Step(r, op).elems| <= Step(r, op).size
  {
    var size := Effective(r.size);
    var kept := Newest(r.elems, size);
    var ref := Runs.Replay(r.log);
    assert Suffix(kept, ref);
    match op
    case Put(k, v) =>
      InsertKeepsSuffix(kept, ref, size, k, v);
      ReplaySnoc(r.log, Runs.Put(k, v));
    case Get(k) =>
      if Find(kept, k).Some? {
        TouchKeepsSuffix(kept, ref, k);
        ReplaySnoc(r.log, Runs.Put(k, Find(kept, k).value));
      }
    case Evict(k) =>
      WithoutUnique(kept, k);
      SuffixWithout(kept, ref, k);
      ReplaySnoc(r.log, Runs.Delete(k));
    case _ =>
  }

  /** The cache holds, at every point of every run and whatever Size is set to, a run
      of the most recently used pairs: a suffix of the log's replay.  After each Put,
      Get and Evict it is within its size. */
  lemma {:induction false} CacheIsSuffix<K, V>(size: int, ops: seq<Op<K, V>>)
    ensures var r := Exec(size, ops);
            && Suffix(r.elems, Runs.Replay(r.log))
            && Unique(Runs.Replay(r.log)) && Unique(r.elems)
            && Runs.ByLastOp(r.log, Runs.Replay(r.log))
            && (ops != [] && (ops[|ops| - 1].Put? || ops[|ops| - 1].Get? || ops[|ops| - 1].Evict?) ==>
                  |r.elems| <= r.size)
  {
    var r := Exec(size, ops);
    Runs.ReplayOrder(r.log);
    if ops != [] {
      var b, op := Exec(size, ops[..|ops| - 1]), ops[|ops| - 1];
      CacheIsSuffix(size, ops[..|ops| - 1]);
      StepKeepsSuffix(b, op);
    }
  }

  /** A hit never returns a stale value: what the cache holds for a key is the value
      of the last Put of that key, which has not been evicted or flushed since. */
  lemma CacheIsFresh<K, V>(size: int, ops: seq<Op<K, V>>, k: K)
    requires Find(Exec(size, ops).elems, k).Some?
    ensures Find(Exec(size, ops).elems, k) == Latest(ops, k)
  {
    CacheIsSuffix(size, ops);
    var r := Exec(size, ops);
    SuffixFind(r.elems, Runs.Replay(r.log), k);
    Runs.ReplayBindings(r.log, k);
    LogIsLatest(size, ops, k);
  }

  lemma {:induction false} LogIsLatest<K, V>(size: int, ops: seq<Op<K, V>>, k: K)
    ensures Runs.Binding(Exec(size, ops).log, k) == Latest(ops, k)
  {
    if ops != [] {
      LogIsLatest(size, ops[..|ops| - 1], k);
      StepBinds(size, ops[..|ops| - 1], ops[|ops| - 1], k);
    }
  }

  /** One step changes the binding of a key only by a Put or an Evict of that key or a
      Flush: a hit logs the value that the key already had. */
  lemma StepBinds<K, V>(size: int, before: seq<Op<K, V>>, op: Op<K, V>, k: K)
    ensures var b := Exec(size, before);
            Runs.Binding(Step(b, op).log, k) ==
              if op.Put? && op.key == k then Some(op.value)
              else if op.Flush? || (op.Evict? && op.key == k) then None
              else Runs.Binding(b.log, k)
  {
    var b := Exec(size, before);
    match op
    case Put(x, v) => BindingSnoc(b.log, Runs.Put(x, v), k);
    case Get(x) =>
      var hit := Find(Newest(b.elems, Effective(b.size)), x);
      if hit.Some? {
        BindingSnoc(b.log, Runs.Put(x, hit.value), k);
        CacheIsSuffix(size, before);
        SuffixFind(Newest(b.elems, Effective(b.size)), Runs.Replay(b.log), x);
        Runs.ReplayBindings(b.log, x);
      }
    case Evict(x) => BindingSnoc(b.log, Runs.Delete(x), k);
    case _ =>
  }

  lemma BindingSnoc<K, V>(log: seq<Runs.Op<K, V>>, op: Runs.Op<K, V>, k: K)
    ensures Runs.Binding(log + [op], k) ==
              if op.key != k then Runs.Binding(log, k) else if op.Put? then Some(op.value) else None
  {
    assert (log + [op])[..|log|] == log;
  }

  /** A Put of a key already present costs another entry its place exactly when the
      cache is full and the key is not the oldest one. */
  lemma PutDropsAnotherIff<K, V>(s: seq<(K, V)>, size: nat, k: K, v: V)
    requires Unique(s) && |s| <= size && HasKey(s, k)
    ensures |Insert(s, size, k, v)| < |s| <==> |s| == size && s[0].0 != k
  {
    var i :| 0 <= i < |s| && s[i].0 == k;
    WithoutAt(s, i);
    if |s| == size {
      if i == 0 {
        WithoutAbsent(s[1..], k);
      } else {
        assert s[1..][i - 1] == s[i];
        WithoutAt(s[1..], i - 1);
      }
    }
  }

  /** A Put keeps every other pair except the oldest of a full cache. */
  lemma PutKeepsIff<K, V>(s: seq<(K, V)>, size: nat, k: K, v: V, i: nat)
    requires Unique(s) && |s| <= size && i < |s| && s[i].0 != k
    ensures HasKey(Insert(s, size, k, v), s[i].0) <==> !(|s| == size && i == 0)
    ensures HasKey(Insert(s, size, k, v), s[i].0) ==> Find(Insert(s, size, k, v), s[i].0) == Some(s[i].1)
  {
    var x := s[i].0;
    var room := if |s| == size then s[1..] else s;
    FindRenewed(room, k, v, x);
    FindIff(room, x);
    FindIff(Renew(room, k, v), x);
    if |s| < size {
      FindAt(s, i);
    } else if i > 0 {
      assert room[i - 1] == s[i];
      FindAt(room, i - 1);
    }
  }

  /** One call on the class is one Step. */
  method Perform<K(==), V>(c: LRU<K, V>, op: Op<K, V>, ghost r: Run<K, V>)
    requires c.Valid() && c.Size == r.size && c.Contents() == r.elems
    modifies c, c.Repr()
    ensures c.Valid() && fresh(c.Repr() - old(c.Repr()))
    ensures c.Size == Step(r, op).size && c.Contents() == Step(r, op).elems
  {
    match op
    case Put(k, v) => c.Put(k, v);
    case Get(k) => var _ := c.Get(k);
    case Evict(k) => c.Evict(k);
    case Flush => c.Flush();
    case SetSize(n) => c.Size := n;
  }

  /** The class runs as Exec says. */
  method RunCache<K(==), V>(size: int, ops: seq<Op<K, V>>) returns (c: LRU<K, V>)
    ensures fresh(c) && fresh(c.Repr()) && c.Valid()
    ensures c.Size == Exec(size, ops).size && c.Contents() == Exec(size, ops).elems
  {
    if ops == [] {
      c := new LRU<K, V>(size);
    } else {
      c := RunCache(size, ops[..|ops| - 1]);
      Perform(c, ops[|ops| - 1], Exec(size, ops[..|ops| - 1]));
    }
  }
}
