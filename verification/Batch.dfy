/** The write batch of the RPC database client (database/batch.go): a log of
    operations that Write turns into one request of puts and deletes. */
module DatabaseBatch {
  import opened Options

  type Bytes = seq<bv8>
  datatype Op = Op(key: Bytes, value: Bytes, delete: bool)

  /** One item of a WriteBatchRequest. */
  datatype Change = Put(key: Bytes, value: Bytes) | Delete(key: Bytes)

  /** What becomes of a request: the transport fails, or the server answers with an error
      or none. */
  datatype Reply = Failed(code: nat) | Answered(answer: Option<nat>)

  type Db = map<Bytes, Bytes>

  function Apply(db: Db, c: Change): Db {
    if c.Put? then db[c.key := c.value] else db - {c.key}
  }

  /** The changes applied first to last. */
  function ApplyAll(db: Db, cs: seq<Change>): Db {
    if cs == [] then db else Apply(ApplyAll(db, cs[..|cs| - 1]), cs[|cs| - 1])
  }

  function AsChange(op: Op): Change {
    if op.delete then Delete(op.key) else Put(op.key, op.value)
  }

  /** The operations replayed first to last. */
  function Replay(db: Db, ops: seq<Op>): Db {
    if ops == [] then db else Apply(Replay(db, ops[..|ops| - 1]), AsChange(ops[|ops| - 1]))
  }

  ghost predicate DistinctKeys(cs: seq<Change>) {
    forall i, j :: 0 <= i < j < |cs| ==> cs[i].key != cs[j].key
  }

  /** The change that the last operation on a key in ops[from..] makes. */
  ghost function LastChange(ops: seq<Op>, from: nat, k: Bytes): Option<Change>
    requires from <= |ops|
    decreases |ops| - from
  {
    if from == |ops| then None
    else if LastChange(ops, from + 1, k).Some? then LastChange(ops, from + 1, k)
    else if ops[from].key == k then Some(AsChange(ops[from])) else None
  }

  /** cs holds exactly the last change of every key touched by ops[from..]. */
  ghost predicate Captures(cs: multiset<Change>, ops: seq<Op>, from: nat)
    requires from <= |ops|
  {
    forall c :: cs[c] == if LastChange(ops, from, c.key) == Some(c) then 1 else 0
  }

  /** The last change of a key is a change of that key. */
  lemma {:induction false} LastChangeKey(ops: seq<Op>, from: nat, k: Bytes)
    requires from <= |ops|
    ensures LastChange(ops, from, k).Some? ==> LastChange(ops, from, k).value.key == k
    decreases |ops| - from
  {
    if from < |ops| {
      LastChangeKey(ops, from + 1, k);
    }
  }

  /** One step of the backward scan: an operation on a key seen later adds nothing, any
      other adds its change. */
  lemma CaptureStep(cs: multiset<Change>, ops: seq<Op>, i: nat)
    requires i < |ops| && Captures(cs, ops, i + 1)
    ensures LastChange(ops, i + 1, ops[i].key).Some? ==> Captures(cs, ops, i)
    ensures LastChange(ops, i + 1, ops[i].key).None? ==> Captures(cs + multiset{AsChange(ops[i])}, ops, i)
  {
  }

  /** Where the backward scan stands before ops[from]: the keys of ops[from..] are known
      and the request holds their last changes, sorted into puts and deletes. */
  ghost predicate Scanned(keySet: set<Bytes>, puts: seq<Change>, deletes: seq<Change>, ops: seq<Op>, from: nat)
    requires from <= |ops|
  {
    && (forall k :: k in keySet <==> LastChange(ops, from, k).Some?)
    && Captures(multiset(puts + deletes), ops, from)
    && (forall c :: c in puts ==> c.Put?) && (forall c :: c in deletes ==> c.Delete?)
  }

  lemma ScanSeen(keySet: set<Bytes>, puts: seq<Change>, deletes: seq<Change>, ops: seq<Op>, i: nat)
    requires i < |ops| && Scanned(keySet, puts, deletes, ops, i + 1) && ops[i].key in keySet
    ensures Scanned(keySet, puts, deletes, ops, i)
  {
    CaptureStep(multiset(puts + deletes), ops, i);
  }

  lemma ScanNew(keySet: set<Bytes>, puts: seq<Change>, deletes: seq<Change>, ops: seq<Op>, i: nat)
    requires i < |ops| && Scanned(keySet, puts, deletes, ops, i + 1) && ops[i].key !in keySet
    ensures var k, c := keySet + {ops[i].key}, AsChange(ops[i]);
            if c.Delete? then Scanned(k, puts, deletes + [c], ops, i) else Scanned(k, puts + [c], deletes, ops, i)
  {
    var c := AsChange(ops[i]);
    CaptureStep(multiset(puts + deletes), ops, i);
    assert puts + (deletes + [c]) == puts + deletes + [c];
    assert multiset(puts + [c] + deletes) == multiset(puts + deletes) + multiset{c};
  }

  /** The effect of a change on one key. */
  function Effect(db: Db, c: Option<Change>, k: Bytes): Option<Bytes> {
    if c.None? then Lookup(db, k) else if c.value.Put? then Some(c.value.value) else None
  }

  function Lookup(db: Db, k: Bytes): Option<Bytes> {
    if k in db then Some(db[k]) else None
  }

  /** Replaying a log leaves each key as its last operation says. */
  lemma {:induction false} ReplayEffect(db: Db, ops: seq<Op>, k: Bytes)
    ensures Lookup(Replay(db, ops), k) == Effect(db, LastChange(ops, 0, k), k)
  {
    if ops != [] {
      var n := |ops| - 1;
      ReplayEffect(db, ops[..n], k);
      LastChangeSnoc(ops, 0, k);
    }
  }

  lemma {:induction false} LastChangeSnoc(ops: seq<Op>, from: nat, k: Bytes)
    requires from < |ops|
    ensures LastChange(ops, from, k) ==
              if ops[|ops| - 1].key == k then Some(AsChange(ops[|ops| - 1])) else LastChange(ops[..|ops| - 1], from, k)
    decreases |ops| - from
  {
    if from < |ops| - 1 {
      LastChangeSnoc(ops, from + 1, k);
    }
  }

  /** A sequence of changes with distinct keys leaves each key as its one change says. */
  lemma {:induction false} DistinctEffect(db: Db, cs: seq<Change>, k: Bytes)
    requires DistinctKeys(cs)
    ensures (forall i :: 0 <= i < |cs| ==> cs[i].key != k) ==> Lookup(ApplyAll(db, cs), k) == Lookup(db, k)
    ensures forall i :: 0 <= i < |cs| && cs[i].key == k ==> Lookup(ApplyAll(db, cs), k) == Effect(db, Some(cs[i]), k)
  {
    if cs != [] {
      DistinctEffect(db, cs[..|cs| - 1], k);
    }
  }

  lemma SameLookups(a: Db, b: Db)
    requires forall k :: Lookup(a, k) == Lookup(b, k)
    ensures a == b
  {
    forall k ensures k in a <==> k in b && (k in a ==> a[k] == b[k]) {
      assert Lookup(a, k) == Lookup(b, k);
    }
  }

  lemma CapturedKeysDistinct(cs: seq<Change>, ops: seq<Op>)
    requires Captures(multiset(cs), ops, 0)
    ensures DistinctKeys(cs)
  {
    forall i, j | 0 <= i < j < |cs| ensures cs[i].key != cs[j].key {
      assert cs == cs[..i] + [cs[i]] + cs[i + 1..j] + [cs[j]] + cs[j + 1..];
      assert multiset(cs)[cs[i]] > 0 && multiset(cs)[cs[j]] > 0;
    }
  }

  /** On one key, in whatever order the items are applied. */
  lemma AnyOrderOnKey(db: Db, ops: seq<Op>, cs: seq<Change>, k: Bytes)
    requires Captures(multiset(cs), ops, 0) && DistinctKeys(cs)
    ensures Lookup(ApplyAll(db, cs), k) == Lookup(Replay(db, ops), k)
  {
    ReplayEffect(db, ops, k);
    LastChangeKey(ops, 0, k);
    DistinctEffect(db, cs, k);
    var last := LastChange(ops, 0, k);
    if last.Some? {
      assert multiset(cs)[last.value] == 1;
      assert last.value in cs;
    } else {
      forall i | 0 <= i < |cs| ensures cs[i].key != k {
        assert multiset(cs)[cs[i]] > 0;
      }
    }
  }

  /** The items of the request, in whatever order the server applies them, do to any
      store what replaying the log first to last does. */
  lemma AnyOrderRefinesReplay(db: Db, ops: seq<Op>, cs: seq<Change>)
    requires Captures(multiset(cs), ops, 0)
    ensures DistinctKeys(cs) && ApplyAll(db, cs) == Replay(db, ops)
  {
    CapturedKeysDistinct(cs, ops);
    forall k ensures Lookup(ApplyAll(db, cs), k) == Lookup(Replay(db, ops), k) {
      AnyOrderOnKey(db, ops, cs, k);
    }
    SameLookups(ApplyAll(db, cs), Replay(db, ops));
  }

  /** Writing the same batch twice is writing it once, in any two orders. */
  lemma WriteIsIdempotent(db: Db, ops: seq<Op>, first: seq<Change>, second: seq<Change>)
    requires Captures(multiset(first), ops, 0) && Captures(multiset(second), ops, 0)
    ensures ApplyAll(ApplyAll(db, first), second) == ApplyAll(db, first)
  {
    AnyOrderRefinesReplay(db, ops, first);
    AnyOrderRefinesReplay(ApplyAll(db, first), ops, second);
    forall k ensures Lookup(Replay(Replay(db, ops), ops), k) == Lookup(Replay(db, ops), k) {
      ReplayEffect(db, ops, k);
      ReplayEffect(Replay(db, ops), ops, k);
    }
    SameLookups(Replay(Replay(db, ops), ops), Replay(db, ops));
  }

  /** The bytes of the keys and values recorded. */
  function Bulk(ops: seq<Op>): nat {
    if ops == [] then 0 else Bulk(ops[..|ops| - 1]) + |ops[|ops| - 1].key| + |ops[|ops| - 1].value|
  }

  class Batch {
    var ops: seq<Op>
    var size: int

    ghost predicate Valid()
      reads this
    {
      && size == Bulk(ops)
      && forall i :: 0 <= i < |ops| && ops[i].delete ==> ops[i].value == []
    }

    constructor ()
      ensures Valid() && ops == []
    {
      ops, size := [], 0;
    }

    method Set(key: Bytes, value: Bytes)
      requires Valid()
      modifies this
      ensures Valid() && ops == old(ops) + [Op(key, value, false)] && size == old(size) + |key| + |value|
      ensures forall db :: Replay(db, ops) == Replay(db, old(ops))[key := value]
    {
      ops := ops + [Op(key, value, false)];
      size := size + |key| + |value|;
      assert ops[..|ops| - 1] == old(ops);
    }

    method Delete(key: Bytes)
      requires Valid()
      modifies this
      ensures Valid() && ops == old(ops) + [Op(key, [], true)] && size == old(size) + |key|
      ensures forall db :: Replay(db, ops) == Replay(db, old(ops)) - {key}
    {
      ops := ops + [Op(key, [], true)];
      size := size + |key|;
      assert ops[..|ops| - 1] == old(ops);
    }

    /** The request Write builds: scanning from the last operation to the first, only
        the first sight of a key counts. */
    method BuildRequest() returns (puts: seq<Change>, deletes: seq<Change>)
      ensures Captures(multiset(puts + deletes), ops, 0)
      ensures (forall c :: c in puts ==> c.Put?) && (forall c :: c in deletes ==> c.Delete?)
    {
      puts, deletes := [], [];
      var keySet: set<Bytes> := {};
      var i := |ops|;
      while i > 0
        invariant 0 <= i <= |ops| && Scanned(keySet, puts, deletes, ops, i)
      {
        i := i - 1;
        var op := ops[i];
        if op.key in keySet {
          ScanSeen(keySet, puts, deletes, ops, i);
        } else {
          ScanNew(keySet, puts, deletes, ops, i);
          keySet := keySet + {op.key};
          if op.delete {
            deletes := deletes + [Change.Delete(op.key)];
          } else {
            puts := puts + [Put(op.key, op.value)];
          }
        }
      }
    }

    /** The request Write sends: whatever store it reaches and in whatever order the
        server applies its items, the store ends up as if the operations had been
        performed one by one.  err is the transport's error, or else the server's. */
    method Write(reply: Reply) returns (puts: seq<Change>, deletes: seq<Change>, err: Option<nat>)
      ensures DistinctKeys(puts + deletes)
      ensures (forall c :: c in puts ==> c.Put?) && (forall c :: c in deletes ==> c.Delete?)
      ensures forall db: Db, order: seq<Change> {:trigger ApplyAll(db, order)} ::
                multiset(order) == multiset(puts + deletes) ==> ApplyAll(db, order) == Replay(db, ops)
      ensures err.None? <==> reply == Answered(None)
      ensures err.Some? ==> reply == Failed(err.value) || reply == Answered(err)
    {
      puts, deletes := BuildRequest();
      CapturedKeysDistinct(puts + deletes, ops);
      forall db: Db, order: seq<Change> | multiset(order) == multiset(puts + deletes)
        ensures ApplyAll(db, order) == Replay(db, ops)
      {
        AnyOrderRefinesReplay(db, ops, order);
      }
      err := if reply.Failed? then Some(reply.code) else reply.answer;
    }
  }
}
