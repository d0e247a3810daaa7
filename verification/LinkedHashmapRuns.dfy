/** Whole runs of the linked hash map and of its iterator. */
module LinkedHashmapRuns {
  import opened Options
  import opened AssocList
  import opened LinkedHashmap

  datatype Op<K, V> = Put(key: K, value: V) | Delete(key: K)

  function Apply<K(==), V>(s: seq<(K, V)>, op: Op<K, V>): seq<(K, V)> {
    match op
    case Put(k, v) => Renew(s, k, v)
    case Delete(k) => Without(s, k)
  }

  function Replay<K(==), V>(ops: seq<Op<K, V>>): seq<(K, V)> {
    if ops == [] then [] else Apply(Replay(ops[..|ops| - 1]), ops[|ops| - 1])
  }

  /** What the last operation on a key bound it to. */
  function Binding<K(==), V>(ops: seq<Op<K, V>>, k: K): Option<V> {
    if ops == [] then None
    else
      var op := ops[|ops| - 1];
      if op.key != k then Binding(ops[..|ops| - 1], k)
      else if op.Put? then Some(op.value) else None
  }

  /** The position of the last operation on a key, or -1. */
  function LastOp<K(==), V>(ops: seq<Op<K, V>>, k: K): int {
    if ops == [] then -1
    else if ops[|ops| - 1].key == k then |ops| - 1
    else LastOp(ops[..|ops| - 1], k)
  }

  ghost predicate ByLastOp<K, V>(ops: seq<Op<K, V>>, s: seq<(K, V)>) {
    forall i, j :: 0 <= i < j < |s| ==> LastOp(ops, s[i].0) < LastOp(ops, s[j].0)
  }

  lemma {:induction false} LastOpBound<K, V>(ops: seq<Op<K, V>>, k: K)
    ensures LastOp(ops, k) < |ops|
  {
    if ops != [] {
      LastOpBound(ops[..|ops| - 1], k);
    }
  }

  lemma {:induction false} ReplayBindings<K, V>(ops: seq<Op<K, V>>, k: K)
    ensures Find(Replay(ops), k) == Binding(ops, k)
  {
    if ops != [] {
      var before, op := ops[..|ops| - 1], ops[|ops| - 1];
      ReplayBindings(before, k);
      FindWithout(Replay(before), op.key, k);
      if op.Put? {
        FindSnoc(Without(Replay(before), op.key), (op.key, op.value), k);
      }
    }
  }

  lemma {:induction false} FindSnoc<K, V>(s: seq<(K, V)>, kv: (K, V), k: K)
    ensures Find(s + [kv], k) == if Find(s, k).Some? then Find(s, k) else if kv.0 == k then Some(kv.1) else None
  {
    if s != [] {
      assert (s + [kv])[0] == s[0] && (s + [kv])[1..] == s[1..] + [kv];
      FindSnoc(s[1..], kv, k);
    }
  }

  lemma OthersStayOrdered<K, V>(ops: seq<Op<K, V>>, s: seq<(K, V)>, k: K)
    requires Unique(s) && ByLastOp(ops, s)
    ensures ByLastOp(ops, Without(s, k))
  {
    if HasKey(s, k) {
      var i :| 0 <= i < |s| && s[i].0 == k;
      WithoutAt(s, i);
    } else {
      WithoutAbsent(s, k);
    }
  }

  /** The pairs are unique and sorted by the time of the last operation on their key. */
  lemma {:induction false} ReplayOrder<K, V>(ops: seq<Op<K, V>>)
    ensures Unique(Replay(ops)) && ByLastOp(ops, Replay(ops))
  {
    if ops != [] {
      var before, op := ops[..|ops| - 1], ops[|ops| - 1];
      ReplayOrder(before);
      OthersStayOrdered(before, Replay(before), op.key);
      var s := Without(Replay(before), op.key);
      forall i | 0 <= i < |s| ensures LastOp(ops, s[i].0) == LastOp(before, s[i].0) < |before| {
        WithoutKeys(Replay(before), op.key, s[i].0);
        LastOpBound(before, s[i].0);
      }
      WithoutUnique(Replay(before), op.key);
      if op.Put? {
        RenewUnique(Replay(before), op.key, op.value);
      }
    }
  }

  /** Any sequence of operations on an empty map leaves it holding, for exactly the
      keys whose last operation was a Put, the value of that Put, in the order of
      those Puts. */
  method RunOps<K(==), V>(ops: seq<Op<K, V>>) returns (lh: Hashmap<K, V>)
    ensures lh.Valid() && lh.Contents() == Replay(ops)
    ensures forall k :: Find(lh.Contents(), k) == Binding(ops, k)
    ensures Unique(lh.Contents()) && ByLastOp(ops, lh.Contents())
  {
    lh := new Hashmap<K, V>();
    for i := 0 to |ops|
      invariant lh.Valid() && fresh(lh.Repr())
      invariant lh.Contents() == Replay(ops[..i])
    {
      assert ops[..i + 1][..i] == ops[..i];
      match ops[i]
      case Put(k, v) => lh.Put(k, v);
      case Delete(k) => var _ := lh.Delete(k);
    }
    assert ops[..|ops|] == ops;
    forall k ensures Find(lh.Contents(), k) == Binding(ops, k) {
      ReplayBindings(ops, k);
    }
    ReplayOrder(ops);
  }

  lemma SeenIsPast<K, V>(seen: seq<(K, V)>, rest: seq<(K, V)>, k: K)
    requires Unique(seen + rest) && Find(seen, k).Some?
    ensures !HasKey(rest, k)
  {
    FindIff(seen, k);
    var i :| 0 <= i < |seen| && seen[i].0 == k;
    forall j | 0 <= j < |rest| ensures rest[j].0 != k {
      assert (seen + rest)[i] == seen[i] && (seen + rest)[|seen| + j] == rest[j];
    }
  }

  /** How many steps of a script, which calls Next or deletes a key, are calls of Next. */
  ghost function Nexts<K>(script: seq<Option<K>>): nat {
    if script == [] then 0
    else Nexts(script[..|script| - 1]) + if script[|script| - 1].None? then 1 else 0
  }

  lemma {:induction false} NextsCount<K>(script: seq<Option<K>>)
    ensures Nexts(script) == multiset(script)[None]
  {
    if script != [] {
      var n := |script| - 1;
      NextsCount(script[..n]);
      assert script == script[..n] + [script[n]];
    }
  }

  /** What a walk over the pairs ahead has seen after a script: as many of them as there
      were calls of Next, oldest first. */
  ghost function Seen<K, V>(ahead: seq<(K, V)>, script: seq<Option<K>>): seq<(K, V)> {
    if Nexts(script) < |ahead| then ahead[..Nexts(script)] else ahead
  }

  /** The map after a script: without the keys deleted after they had been seen. */
  ghost function Left<K, V>(s: seq<(K, V)>, ahead: seq<(K, V)>, script: seq<Option<K>>): seq<(K, V)> {
    if script == [] then s
    else
      var n := |script| - 1;
      var before := Left(s, ahead, script[..n]);
      if script[n].Some? && Find(Seen(ahead, script[..n]), script[n].value).Some? then
        Without(before, script[n].value)
      else before
  }

  /** Some step deletes the key, after a call of Next has yielded it. */
  ghost predicate DeletedOnceSeen<K, V>(ahead: seq<(K, V)>, script: seq<Option<K>>, k: K) {
    exists n, i ::
      && 0 <= n < |script| && script[n] == Some(k)
      && 0 <= i < |ahead| && i < Nexts(script[..n]) && ahead[i].0 == k
  }

  lemma SeenIff<K, V>(ahead: seq<(K, V)>, script: seq<Option<K>>, k: K)
    ensures Find(Seen(ahead, script), k).Some? <==>
              exists i :: 0 <= i < |ahead| && i < Nexts(script) && ahead[i].0 == k
  {
    FindIff(Seen(ahead, script), k);
    if i :| 0 <= i < |ahead| && i < Nexts(script) && ahead[i].0 == k {
      assert Seen(ahead, script)[i].0 == k;
    }
  }

  lemma DeletedSnoc<K, V>(ahead: seq<(K, V)>, script: seq<Option<K>>, k: K)
    requires script != []
    ensures var n := |script| - 1;
            DeletedOnceSeen(ahead, script, k) <==>
              DeletedOnceSeen(ahead, script[..n], k) || (script[n] == Some(k) && Find(Seen(ahead, script[..n]), k).Some?)
  {
    var last := |script| - 1;
    SeenIff(ahead, script[..last], k);
    if n, i :| && 0 <= n < |script[..last]| && script[..last][n] == Some(k)
               && 0 <= i < |ahead| && i < Nexts(script[..last][..n]) && ahead[i].0 == k {
      assert script[..last][..n] == script[..n];
    }
    if n, i :| && 0 <= n < |script| && script[n] == Some(k)
               && 0 <= i < |ahead| && i < Nexts(script[..n]) && ahead[i].0 == k {
      if n < last {
        assert script[..last][..n] == script[..n] && script[..last][n] == Some(k);
      }
    }
  }

  /** A walk changes a key of the map exactly if it deletes it once it was seen. */
  lemma {:induction false} LeftFinds<K, V>(s: seq<(K, V)>, ahead: seq<(K, V)>, script: seq<Option<K>>, k: K)
    ensures Find(Left(s, ahead, script), k) == if DeletedOnceSeen(ahead, script, k) then None else Find(s, k)
  {
    if script != [] {
      var n := |script| - 1;
      LeftFinds(s, ahead, script[..n], k);
      DeletedSnoc(ahead, script, k);
      if script[n].Some? {
        FindWithout(Left(s, ahead, script[..n]), script[n].value, k);
      }
    }
  }

  /** Where a walk stands after a script: what it has seen, what remains, and the map. */
  ghost predicate Walked<K, V>(s: seq<(K, V)>, ahead: seq<(K, V)>, script: seq<Option<K>>,
                               seen: seq<(K, V)>, rest: seq<(K, V)>, now: seq<(K, V)>) {
    seen + rest == ahead && seen == Seen(ahead, script) && now == Left(s, ahead, script)
  }

  /** A call of Next takes the first pair that remains, a deletion one that was seen. */
  lemma WalkedNext<K, V>(s: seq<(K, V)>, ahead: seq<(K, V)>, script: seq<Option<K>>,
                         seen: seq<(K, V)>, rest: seq<(K, V)>, now: seq<(K, V)>, step: Option<K>)
    requires Walked(s, ahead, script, seen, rest, now)
    ensures step.None? && rest != [] ==> Walked(s, ahead, script + [step], seen + [rest[0]], rest[1..], now)
    ensures step.None? && rest == [] ==> Walked(s, ahead, script + [step], seen, rest, now)
    ensures step.Some? ==>
              Walked(s, ahead, script + [step], seen, rest, if Find(seen, step.value).Some? then Without(now, step.value) else now)
  {
    assert (script + [step])[..|script|] == script;
  }

  /** One step of a walk: Next, or the deletion of a key among those seen. */
  method WalkStep<K(==), V>(it: Iter<K, V>, seen: seq<(K, V)>, step: Option<K>,
                            ghost s: seq<(K, V)>, ghost ahead: seq<(K, V)>, ghost script: seq<Option<K>>)
      returns (now: seq<(K, V)>)
    requires it.Valid() && Unique(ahead) && Walked(s, ahead, script, seen, it.Remaining(), it.lh.Contents())
    modifies it, it.lh.Repr()
    ensures it.Valid() && it.lh.Repr() <= old(it.lh.Repr())
    ensures Walked(s, ahead, script + [step], now, it.Remaining(), it.lh.Contents())
  {
    WalkedNext(s, ahead, script, seen, it.Remaining(), it.lh.Contents(), step);
    now := seen;
    if step.None? {
      var more := it.Next();
      if more {
        now := seen + [it.current.value];
      }
    } else if Find(seen, step.value).Some? {
      SeenIsPast(seen, it.Remaining(), step.value);
      it.DeleteVisited(step.value);
    }
  }

  /** A whole script, step by step. */
  method Follow<K(==), V>(it: Iter<K, V>, script: seq<Option<K>>) returns (seen: seq<(K, V)>)
    requires it.Valid()
    modifies it, it.lh.Repr()
    ensures it.Valid() && it.lh.Repr() <= old(it.lh.Repr())
    ensures Walked(old(it.lh.Contents()), old(it.Remaining()), script, seen, it.Remaining(), it.lh.Contents())
  {
    if script == [] {
      seen := [];
    } else {
      var n := |script| - 1;
      ghost var ahead, s := it.Remaining(), it.lh.Contents();
      it.RemainingUnique();
      seen := Follow(it, script[..n]);
      seen := WalkStep(it, seen, script[n], s, ahead, script[..n]);
      assert script == script[..n] + [script[n]];
    }
  }

  /** Next, interleaved in any way with deletions of keys already visited.  Each call of
      Next yields the next pair the walk started with, oldest first, until none is left;
      the others remain, and the map lacks exactly the deleted keys.  So with enough
      calls every pair is seen once. */
  method Walk<K(==), V>(it: Iter<K, V>, script: seq<Option<K>>) returns (seen: seq<(K, V)>)
    requires it.Valid()
    modifies it, it.lh.Repr()
    ensures it.Valid() && seen + it.Remaining() == old(it.Remaining())
    ensures |seen| == if multiset(script)[None] < |old(it.Remaining())| then multiset(script)[None] else |old(it.Remaining())|
    ensures it.lh.Contents() == Left(old(it.lh.Contents()), old(it.Remaining()), script)
    ensures forall k :: Find(it.lh.Contents(), k) ==
              if DeletedOnceSeen(old(it.Remaining()), script, k) then None else Find(old(it.lh.Contents()), k)
  {
    ghost var ahead, s := it.Remaining(), it.lh.Contents();
    seen := Follow(it, script);
    NextsCount(script);
    forall k ensures Find(Left(s, ahead, script), k) == if DeletedOnceSeen(ahead, script, k) then None else Find(s, k) {
      LeftFinds(s, ahead, script, k);
    }
  }
}
