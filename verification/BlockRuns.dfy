/** LandslideVM as its callers meet it: what parsing makes of the bytes that GetBlock
    hands out, how accepted blocks come to be shown otherwise, and that the methods make
    the steps of BlockSteps, so that its theorems hold of every run of calls. */
module BlockRuns {
  import opened Options
  import opened BlockChain
  import opened BlockLifecycle
  import Steps = BlockSteps

  // --------------------------------------------------------- parsing what was got

  /** GetBlock leaves the block in some cache: it is verified, or the put keeps it, or an
      entry below the one that is pushed out remains. */
  predicate KeptByGet(vm: LandslideVM, id: ID, lost: Loss)
    reads vm, if vm.Cached(id).Some? then {vm.Cached(id).value} else {}
  {
    || id in vm.verified
    || (if vm.Shown(id) == Some(Processing) then id !in lost.unverified
        else id !in lost.decided || id in vm.unverified)
  }

  /** GetBlock pushes the decided entry out and uncovers another one. */
  predicate UncoveredByGet(vm: LandslideVM, id: ID, lost: Loss)
    reads vm
  {
    id !in vm.verified && id in vm.decided && id in lost.decided && id in vm.unverified
  }

  /** What GetBlock hands out, and what it leaves in the caches. */
  method GetFound(vm: LandslideVM, id: ID, lost: Loss) returns (got: Result<GetBlockResponse>)
    requires vm.Valid() && vm.env.CollisionFree() && vm.env.RoundTrips()
    modifies vm`decided, vm`unverified, vm`missing, vm`entries
    ensures vm.Valid()
    ensures got.Ok? && !got.value.notFound <==> old(vm.Shown(id).Some? && !vm.Shown(id).value.Other?)
    ensures got.Ok? && !got.value.notFound ==>
              && vm.env.decode(got.value.bytes) == Some(Decoded(vm.env.unhash(id), got.value.status))
              && vm.env.hash(vm.env.unhash(id)) == id && Known(got.value.status)
              && got.value.parent == vm.env.unhash(id).lastBlockID && got.value.height == vm.env.unhash(id).height
              && (vm.Cached(id).Some? <==> old(KeptByGet(vm, id, lost)))
              && (vm.Cached(id).Some? ==>
                    vm.Cached(id).value.status ==
                      if old(UncoveredByGet(vm, id, lost)) then old(vm.unverified[id].status) else got.value.status)
              && (vm.Cached(id).None? ==> !old(UncoveredByGet(vm, id, lost)))
  {
    got := vm.GetBlock(Some(id), lost);
  }

  /** The bytes GetBlock hands out parse back exactly when GetBlock has left the block in
      some cache or the bytes were not remembered; then to the id asked for, with the
      same parent and height, and with the same status unless an entry was uncovered. */
  method GetThenParse(vm: LandslideVM, id: ID, lost: Loss, lostNext: Loss)
      returns (got: Result<GetBlockResponse>, parsed: Result<BlockInfo>)
    requires vm.Valid() && vm.env.CollisionFree() && vm.env.RoundTrips()
    modifies vm`bytesToID, vm`decided, vm`unverified, vm`missing, vm`entries
    ensures vm.Valid()
    ensures got.Ok? && !got.value.notFound <==> old(vm.Shown(id).Some? && !vm.Shown(id).value.Other?)
    ensures got.Ok? && !got.value.notFound ==>
              && (parsed.Ok? <==> old(KeptByGet(vm, id, lost)) || got.value.bytes !in old(vm.bytesToID))
              && (parsed.Err? ==> parsed.error == ErrUnexpectedStatus)
              && (parsed.Ok? ==>
                    parsed.value == BlockInfo(id, got.value.parent,
                                              if old(UncoveredByGet(vm, id, lost)) then old(vm.unverified[id].status)
                                              else got.value.status,
                                              got.value.height))
  {
    got := GetFound(vm, id, lost);
    parsed := Err(ErrNotFound);
    if got.Ok? && !got.value.notFound {
      parsed := vm.ParseBlock(got.value.bytes, lostNext);
    }
  }

  /** Getting a stored block that its cache does not keep, and parsing what was got, works
      exactly if its bytes were not remembered yet; now they are. */
  method ParseUnkept(vm: LandslideVM, id: ID) returns (parsed: Result<BlockInfo>)
    requires vm.Valid() && vm.env.CollisionFree() && vm.env.RoundTrips()
    requires InStore(vm.env, vm.store, id) && vm.Cached(id).None?
    modifies vm`bytesToID, vm`decided, vm`unverified, vm`missing, vm`entries
    ensures vm.Valid() && vm.Cached(id).None?
    ensures parsed.Ok? <==> vm.env.encode(vm.env.unhash(id), Accepted) !in old(vm.bytesToID)
    ensures parsed.Err? ==> parsed.error == ErrUnexpectedStatus
    ensures vm.env.encode(vm.env.unhash(id), Accepted) in vm.bytesToID
  {
    var lost := Loss({id}, {}, {}, {});
    var got := vm.GetBlock(Some(id), lost);
    parsed := vm.ParseBlock(got.value.bytes, lost);
  }

  /** A stored block that its cache never keeps, because it is larger than the cache, can
      be got and parsed once but not twice. */
  method SecondParseFails(vm: LandslideVM, id: ID)
      returns (first: Result<BlockInfo>, second: Result<BlockInfo>)
    requires vm.Valid() && vm.env.CollisionFree() && vm.env.RoundTrips()
    requires InStore(vm.env, vm.store, id) && vm.Cached(id).None?
    modifies vm`bytesToID, vm`decided, vm`unverified, vm`missing, vm`entries
    ensures first.Ok? <==> vm.env.encode(vm.env.unhash(id), Accepted) !in old(vm.bytesToID)
    ensures second == Err(ErrUnexpectedStatus)
  {
    first := ParseUnkept(vm, id);
    second := ParseUnkept(vm, id);
  }

  /** Parsing the same bytes twice may fail the second time: if the block is lost and
      its bytes are still remembered, ParseBlock refuses what it has just accepted. */
  method ReparseCanFail(vm: LandslideVM, bytes: Bytes) returns (first: Result<BlockInfo>, second: Result<BlockInfo>)
    requires vm.Valid() && vm.env.CollisionFree()
    requires vm.env.decode(bytes).Some? && Known(vm.env.decode(bytes).value.status)
    requires vm.env.hash(vm.env.decode(bytes).value.block) !in vm.verified
    modifies vm
    ensures vm.Valid() && second == Err(ErrUnexpectedStatus)
    ensures old(bytes !in vm.bytesToID) ==> first.Ok?
  {
    var id := vm.env.hash(vm.env.decode(bytes).value.block);
    first := vm.ParseBlock(bytes, NO_LOSS);
    vm.LoseEntries(Loss({id}, {id}, {}, {}));
    second := vm.ParseBlock(bytes, NO_LOSS);
  }

  // ------------------------------------------------------- losing the status

  /** An ACCEPTED status is not permanent: once every cache has lost an accepted block,
      parsing it from bytes marked PROCESSING makes the VM, and the oracle's answer,
      show it as processing.  The oracle still knows it as accepted. */
  method ReparseForgetsAcceptance(vm: LandslideVM, bytes: Bytes)
      returns (got: Result<GetBlockResponse>, asked: Result<GetBlockResponse>)
    requires vm.Valid() && vm.env.CollisionFree()
    requires vm.env.decode(bytes).Some? && vm.env.decode(bytes).value.status == Processing
    requires InStore(vm.env, vm.store, vm.env.hash(vm.env.decode(bytes).value.block))
    modifies vm
    ensures got.Ok? && !got.value.notFound && got.value.status == Processing
    ensures asked.Ok? && asked.value.status == Processing
  {
    var id := vm.env.hash(vm.env.decode(bytes).value.block);
    vm.LoseEntries(Loss({id}, {id}, {}, {bytes}));
    var _ := vm.ParseBlock(bytes, NO_LOSS);
    got := vm.GetBlock(Some(id), NO_LOSS);
    asked := GetAcceptedBlock(vm, id, NO_LOSS);
  }

  /** Neither is it proof against BlockReject, which does not ask whether the block has
      been accepted. */
  method RejectForgetsAcceptance(vm: LandslideVM, id: ID, retain: int) returns (got: Result<GetBlockResponse>)
    requires vm.Valid() && vm.Lookup(Some(id)).Ok? && vm.env.ValidateBlock(vm.state, vm.Lookup(Some(id)).value.block)
    modifies vm, vm.entries
    ensures got.Ok? && !got.value.notFound && got.value.status == Rejected && InStore(vm.env, vm.store, id)
  {
    ghost var b := vm.Lookup(Some(id)).value.block;
    var _ := vm.BlockAccept(Some(id), true, retain, true, NO_LOSS);
    assert InStore(vm.env, vm.store, id) by { assert vm.store[b.height] == b; }
    var _ := vm.BlockReject(Some(id), NO_LOSS);
    got := vm.GetBlock(Some(id), NO_LOSS);
  }

  // ---------------------------------------------------------- calls are steps

  /** The cache holds the blocks of these ids under these statuses. */
  ghost predicate Same(entries: set<WrappedBlock>, m: Cache, s: Statuses)
    reads entries`status
  {
    m.Keys == s.Keys && Among(entries, m) && forall id :: id in m ==> m[id].status == s[id]
  }

  /** The snapshot is the VM's. */
  ghost predicate Pictures(vm: LandslideVM, s: Steps.Snapshot)
    reads vm, vm.entries`status
  {
    && vm.state == s.state && vm.store == s.store
    && Same(vm.entries, vm.verified, s.verified) && Same(vm.entries, vm.decided, s.decided) && Same(vm.entries, vm.unverified, s.unverified)
    && vm.missing == s.missing && vm.bytesToID == s.bytesToID
  }

  /** The snapshot shows of each id what the VM does. */
  lemma ShownAlike(vm: LandslideVM, s: Steps.Snapshot, id: ID)
    requires Pictures(vm, s)
    ensures Steps.Shown(vm.env, s, id) == vm.Shown(id)
    ensures Steps.Cached(s, id).Some? == vm.Cached(id).Some?
  {
  }

  lemma SamePut(entries: set<WrappedBlock>, before: Cache, now: Cache, id: ID, b: Block, status: Status, lost: set<ID>, s: Statuses)
    requires PutInto(before, now, id, b, status, lost) && Same(entries, before, s) && Among(entries, now)
    ensures Same(entries, now, s[id := status] - lost)
  {
  }

  method StepParse(vm: LandslideVM, bytes: Bytes, lost: Loss, ghost s: Steps.Snapshot)
    requires vm.Valid() && vm.env.CollisionFree() && Pictures(vm, s)
    modifies vm`bytesToID, vm`decided, vm`unverified, vm`missing, vm`entries
    ensures vm.Valid() && fresh(vm.entries - old(vm.entries)) && old(vm.entries) <= vm.entries
    ensures Pictures(vm, Steps.Parse(vm.env, s, bytes, lost))
  {
    AdmitsAlike(vm, s, bytes);
    ParseCaches(vm, bytes, lost, s);
  }

  method ParseCaches(vm: LandslideVM, bytes: Bytes, lost: Loss, ghost s: Steps.Snapshot)
    requires vm.Valid() && vm.env.CollisionFree() && Pictures(vm, s)
    modifies vm`bytesToID, vm`decided, vm`unverified, vm`missing, vm`entries
    ensures vm.Valid() && fresh(vm.entries - old(vm.entries)) && old(vm.entries) <= vm.entries
    ensures Same(vm.entries, vm.verified, s.verified)
    ensures vm.env.decode(bytes).None? ==> vm.bytesToID == s.bytesToID
    ensures vm.env.decode(bytes).Some? ==>
              vm.bytesToID == if bytes in s.bytesToID then s.bytesToID
                              else s.bytesToID[bytes := vm.env.hash(vm.env.decode(bytes).value.block)] - lost.bytes
    ensures !old(vm.Admits(bytes)) ==>
              Same(vm.entries, vm.decided, s.decided) && Same(vm.entries, vm.unverified, s.unverified) && vm.missing == s.missing
    ensures old(vm.Admits(bytes)) ==>
              var d := vm.env.decode(bytes).value;
              var id := vm.env.hash(d.block);
              && vm.missing == s.missing - {id}
              && (if Final(d.status) then Same(vm.entries, vm.decided, s.decided[id := d.status] - lost.decided) && Same(vm.entries, vm.unverified, s.unverified)
                  else Same(vm.entries, vm.decided, s.decided) && Same(vm.entries, vm.unverified, s.unverified[id := d.status] - lost.unverified))
  {
    ghost var admits, decided, unverified := vm.Admits(bytes), vm.decided, vm.unverified;
    var _ := vm.ParseBlock(bytes, lost);
    assert Same(vm.entries, decided, s.decided) && Same(vm.entries, unverified, s.unverified);
    if admits {
      ghost var d := vm.env.decode(bytes).value;
      if Final(d.status) {
        SamePut(vm.entries, decided, vm.decided, vm.env.hash(d.block), d.block, d.status, lost.decided, s.decided);
      } else {
        SamePut(vm.entries, unverified, vm.unverified, vm.env.hash(d.block), d.block, d.status, lost.unverified, s.unverified);
      }
    }
  }

  lemma AdmitsAlike(vm: LandslideVM, s: Steps.Snapshot, bytes: Bytes)
    requires Pictures(vm, s)
    ensures Steps.Admits(vm.env, s, bytes) == vm.Admits(bytes)
  {
    if vm.env.decode(bytes).Some? {
      ShownAlike(vm, s, vm.env.hash(vm.env.decode(bytes).value.block));
    }
  }

  method StepBuild(vm: LandslideVM, content: Option<nat>, lost: Loss, ghost s: Steps.Snapshot)
    requires vm.Valid() && Pictures(vm, s)
    modifies vm`unverified, vm`missing, vm`entries
    ensures vm.Valid() && fresh(vm.entries - old(vm.entries)) && old(vm.entries) <= vm.entries
    ensures Pictures(vm, Steps.Next(vm.env, s, Steps.DoBuild(content, lost), false))
  {
    ghost var unverified := vm.unverified;
    var r := vm.BuildBlock(content, lost);
    if r.Ok? {
      ghost var b := Block(vm.state.lastBlockHeight + 1, vm.state.lastBlockID, content.value);
      SamePut(vm.entries, unverified, vm.unverified, r.value.id, b, Processing, lost.unverified, s.unverified);
    }
  }

  lemma SameAfter(entries: set<WrappedBlock>, before: Cache, now: Cache, id: ID, w: WrappedBlock, lost: set<ID>, s: Statuses)
    requires Same(entries, before, s) && w in entries && now == before[id := w] - lost
    ensures Same(entries, now, s[id := w.status] - lost)
  {
  }

  lemma SameWithout(entries: set<WrappedBlock>, m: Cache, s: Statuses, ids: set<ID>)
    requires Same(entries, m, s)
    ensures Same(entries, m - ids, s - ids)
  {
  }

  /** What GetBlock puts, for a cached block and for one in no cache. */
  method GetCached(vm: LandslideVM, id: ID, lost: Loss, ghost s: Steps.Snapshot)
    requires vm.Valid() && Pictures(vm, s) && vm.Cached(id).Some?
    modifies vm`decided, vm`unverified, vm`missing, vm`entries
    ensures vm.Valid() && fresh(vm.entries - old(vm.entries)) && old(vm.entries) <= vm.entries
    ensures Same(vm.entries, vm.verified, s.verified) && vm.missing == s.missing
    ensures var status := old(vm.Cached(id).value.status);
            && Same(vm.entries, vm.decided, if Final(status) then s.decided[id := status] - lost.decided else s.decided)
            && Same(vm.entries, vm.unverified, if status == Processing then s.unverified[id := Processing] - lost.unverified else s.unverified)
  {
    ghost var w, decided, unverified := vm.Cached(id).value, vm.decided, vm.unverified;
    var _ := vm.GetBlock(Some(id), lost);
    assert Same(vm.entries, decided, s.decided) && Same(vm.entries, unverified, s.unverified);
    if Final(w.status) {
      SameAfter(vm.entries, decided, vm.decided, id, w, lost.decided, s.decided);
    } else if w.status == Processing {
      SameAfter(vm.entries, unverified, vm.unverified, id, w, lost.unverified, s.unverified);
    }
  }

  method GetUncached(vm: LandslideVM, id: ID, lost: Loss, ghost s: Steps.Snapshot)
    requires vm.Valid() && Pictures(vm, s) && vm.Cached(id).None?
    modifies vm`decided, vm`unverified, vm`missing, vm`entries
    ensures vm.Valid() && fresh(vm.entries - old(vm.entries)) && old(vm.entries) <= vm.entries
    ensures Same(vm.entries, vm.verified, s.verified) && Same(vm.entries, vm.unverified, s.unverified)
    ensures InStore(vm.env, vm.store, id) ==> Same(vm.entries, vm.decided, s.decided[id := Accepted] - lost.decided) && vm.missing == s.missing
    ensures !InStore(vm.env, vm.store, id) ==>
              && Same(vm.entries, vm.decided, s.decided)
              && vm.missing == if id in s.missing then s.missing else s.missing + {id} - lost.missing
  {
    ghost var decided := vm.decided;
    var r := vm.GetBlock(Some(id), lost);
    assert Same(vm.entries, decided, s.decided);
    if InStore(vm.env, vm.store, id) {
      SamePut(vm.entries, decided, vm.decided, id, vm.store[r.value.height], Accepted, lost.decided, s.decided);
    }
  }

  method StepGet(vm: LandslideVM, req: Option<ID>, lost: Loss, ghost s: Steps.Snapshot)
    requires vm.Valid() && Pictures(vm, s)
    modifies vm`decided, vm`unverified, vm`missing, vm`entries
    ensures vm.Valid() && fresh(vm.entries - old(vm.entries)) && old(vm.entries) <= vm.entries
    ensures Pictures(vm, if req.Some? then Steps.Get(vm.env, s, req.value, lost) else s)
  {
    if req.None? {
      var _ := vm.GetBlock(req, lost);
    } else {
      ShownAlike(vm, s, req.value);
      if vm.Cached(req.value).Some? {
        GetCached(vm, req.value, lost, s);
      } else {
        GetUncached(vm, req.value, lost, s);
      }
    }
  }

  /** What BlockVerify leaves in the caches. */
  method VerifyCaches(vm: LandslideVM, bytes: Bytes, ghost s: Steps.Snapshot) returns (r: Result<()>)
    requires vm.Valid() && vm.env.CollisionFree() && Pictures(vm, s)
    modifies vm`verified, vm`unverified, vm`entries
    ensures vm.Valid() && fresh(vm.entries - old(vm.entries)) && old(vm.entries) <= vm.entries
    ensures r.Ok? <==> vm.env.decode(bytes).Some? && vm.env.ValidateBlock(vm.state, vm.env.decode(bytes).value.block)
    ensures Same(vm.entries, vm.decided, s.decided)
    ensures r.Err? ==> Same(vm.entries, vm.verified, s.verified) && Same(vm.entries, vm.unverified, s.unverified)
    ensures r.Ok? ==>
              var d := vm.env.decode(bytes).value;
              var id := vm.env.hash(d.block);
              Same(vm.entries, vm.verified, s.verified[id := d.status] - {}) && Same(vm.entries, vm.unverified, s.unverified - {id})
  {
    ghost var verified, unverified := vm.verified, vm.unverified;
    r := vm.BlockVerify(bytes);
    assert Same(vm.entries, verified, s.verified) && Same(vm.entries, unverified, s.unverified);
    if r.Ok? {
      ghost var d := vm.env.decode(bytes).value;
      SamePut(vm.entries, verified, vm.verified, vm.env.hash(d.block), d.block, d.status, {}, s.verified);
      SameWithout(vm.entries, unverified, s.unverified, {vm.env.hash(d.block)});
    }
  }

  method StepVerify(vm: LandslideVM, bytes: Bytes, ghost s: Steps.Snapshot)
    requires vm.Valid() && vm.env.CollisionFree() && Pictures(vm, s)
    modifies vm`verified, vm`unverified, vm`entries
    ensures vm.Valid() && fresh(vm.entries - old(vm.entries)) && old(vm.entries) <= vm.entries
    ensures Pictures(vm, Steps.Verify(vm.env, s, bytes))
  {
    var r := VerifyCaches(vm, bytes, s);
    if r.Ok? {
      ghost var d := vm.env.decode(bytes).value;
      assert s.verified[vm.env.hash(d.block) := d.status] - {} == s.verified[vm.env.hash(d.block) := d.status];
    }
  }

  /** What BlockAccept leaves in the caches. */
  method AcceptCaches(vm: LandslideVM, req: Option<ID>, applyOk: bool, retain: int, lost: Loss, ghost s: Steps.Snapshot)
      returns (r: Result<()>)
    requires vm.Valid() && Pictures(vm, s)
    modifies vm`store, vm`state, vm`verified, vm`missing, vm`unverified, vm`decided, vm`entries
    ensures vm.Valid() && fresh(vm.entries - old(vm.entries)) && old(vm.entries) <= vm.entries
    ensures r.Ok? <==> old(vm.Lookup(req)).Ok? && applyOk && vm.env.ValidateBlock(s.state, old(vm.Lookup(req)).value.block)
    ensures r.Err? ==> Pictures(vm, s)
    ensures r.Ok? ==>
              var id, b := req.value, old(vm.Lookup(req)).value.block;
              && vm.state == vm.env.NextState(s.state, b) && vm.store == Prune(s.store, retain)[b.height := b]
              && Same(vm.entries, vm.verified, s.verified - {id}) && Same(vm.entries, vm.unverified, s.unverified - {id})
              && Same(vm.entries, vm.decided, s.decided[id := Accepted] - lost.decided)
              && vm.missing == s.missing - {id} && vm.bytesToID == s.bytesToID
  {
    ghost var w, verified, decided, unverified := vm.Lookup(req), vm.verified, vm.decided, vm.unverified;
    r := vm.BlockAccept(req, applyOk, retain, true, lost);
    assert Same(vm.entries, verified, s.verified) && Same(vm.entries, decided, s.decided) && Same(vm.entries, unverified, s.unverified);
    if r.Ok? {
      SamePut(vm.entries, decided, vm.decided, req.value, w.value.block, Accepted, lost.decided, s.decided);
      SameWithout(vm.entries, verified, s.verified, {req.value});
      SameWithout(vm.entries, unverified, s.unverified, {req.value});
    }
  }

  lemma AcceptsAlike(vm: LandslideVM, s: Steps.Snapshot, req: Option<ID>, applyOk: bool)
    requires vm.Valid() && vm.env.CollisionFree() && Pictures(vm, s)
    ensures vm.Lookup(req).Ok? ==> vm.Lookup(req).value.block == vm.env.unhash(req.value)
    ensures Steps.Accepts(vm.env, s, req, applyOk) <==>
            vm.Lookup(req).Ok? && applyOk && vm.env.ValidateBlock(s.state, vm.Lookup(req).value.block)
  {
    if req.Some? {
      ShownAlike(vm, s, req.value);
    }
  }

  method StepAccept(vm: LandslideVM, req: Option<ID>, applyOk: bool, retain: int, lost: Loss, ghost s: Steps.Snapshot)
    requires vm.Valid() && vm.env.CollisionFree() && Pictures(vm, s)
    modifies vm`store, vm`state, vm`verified, vm`missing, vm`unverified, vm`decided, vm`entries
    ensures vm.Valid() && fresh(vm.entries - old(vm.entries)) && old(vm.entries) <= vm.entries
    ensures Pictures(vm, if Steps.Accepts(vm.env, s, req, applyOk) then Steps.Accept(vm.env, s, req.value, retain, lost) else s)
  {
    AcceptsAlike(vm, s, req, applyOk);
    var _ := AcceptCaches(vm, req, applyOk, retain, lost, s);
  }

  /** The cache agrees on every other id. */
  ghost predicate SameBut(entries: set<WrappedBlock>, m: Cache, s: Statuses, id: ID)
    reads entries`status
  {
    m.Keys == s.Keys && Among(entries, m) && forall x :: x in m && x != id ==> m[x].status == s[x]
  }

  lemma SameMarked(entries: set<WrappedBlock>, before: Cache, now: Cache, id: ID, w: WrappedBlock, lost: set<ID>, s: Statuses)
    requires SameBut(entries, before, s, id) && w in entries && now == before[id := w] - lost
    ensures Same(entries, now, s[id := w.status] - lost)
  {
  }

  /** What BlockReject does to the statuses: the marked entry may be shared. */
  method RejectCaches(vm: LandslideVM, id: ID, lost: Loss, ghost s: Steps.Snapshot)
    requires vm.Valid() && Pictures(vm, s) && vm.Cached(id).Some?
    modifies vm`verified, vm`decided, vm.entries`status
    ensures vm.Valid()
    ensures vm.verified == old(vm.verified) - {id} && SameBut(vm.entries, old(vm.verified), s.verified, id)
    ensures vm.decided == old(vm.decided)[id := old(vm.Cached(id)).value] - lost.decided && SameBut(vm.entries, old(vm.decided), s.decided, id)
    ensures SameBut(vm.entries, vm.unverified, s.unverified, id) && old(vm.Cached(id)).value.status == Rejected
    ensures id in vm.unverified ==>
              vm.unverified[id].status == if vm.unverified[id] == old(vm.Cached(id)).value then Rejected else s.unverified[id]
  {
    var _ := vm.BlockReject(Some(id), lost);
  }

  /** shared: the unverified cache points at the very entry that is marked. */
  method StepReject(vm: LandslideVM, id: ID, lost: Loss, ghost s: Steps.Snapshot) returns (ghost shared: bool)
    requires vm.Valid() && Pictures(vm, s) && vm.Cached(id).Some?
    modifies vm`verified, vm`decided, vm.entries`status
    ensures vm.Valid()
    ensures Pictures(vm, Steps.Reject(s, id, shared, lost))
  {
    ghost var w, verified, decided := vm.Cached(id).value, vm.verified, vm.decided;
    shared := id in vm.unverified && vm.unverified[id] == w;
    RejectCaches(vm, id, lost, s);
    SameMarked(vm.entries, decided, vm.decided, id, w, lost.decided, s.decided);
  }

  method StepLose(vm: LandslideVM, lost: Loss, ghost s: Steps.Snapshot)
    requires vm.Valid() && Pictures(vm, s)
    modifies vm`decided, vm`unverified, vm`missing, vm`bytesToID
    ensures vm.Valid()
    ensures Pictures(vm, Steps.Next(vm.env, s, Steps.DoLose(lost), false))
  {
    ghost var decided, unverified := vm.decided, vm.unverified;
    vm.LoseEntries(lost);
    assert Same(vm.entries, decided, s.decided) && Same(vm.entries, unverified, s.unverified);
    SameWithout(vm.entries, decided, s.decided, lost.decided);
    SameWithout(vm.entries, unverified, s.unverified, lost.unverified);
  }

  // ------------------------------------------------------------------ whole runs

  /** The calls that leave the chain alone and mark no entry. */
  method PerformOther(vm: LandslideVM, op: Steps.Op, ghost s: Steps.Snapshot)
    requires vm.Valid() && vm.env.CollisionFree() && Pictures(vm, s) && !op.DoAccept? && !op.DoReject?
    modifies vm
    ensures vm.Valid() && fresh(vm.entries - old(vm.entries)) && old(vm.entries) <= vm.entries
    ensures Pictures(vm, Steps.Next(vm.env, s, op, false))
  {
    if op.DoParse? {
      StepParse(vm, op.bytes, op.lost, s);
    } else if op.DoGet? {
      StepGet(vm, op.req, op.lost, s);
    } else {
      PerformSimple(vm, op, s);
    }
  }

  method PerformSimple(vm: LandslideVM, op: Steps.Op, ghost s: Steps.Snapshot)
    requires vm.Valid() && vm.env.CollisionFree() && Pictures(vm, s)
    requires op.DoSetState? || op.DoBuild? || op.DoVerify? || op.DoLose?
    modifies vm
    ensures vm.Valid() && fresh(vm.entries - old(vm.entries)) && old(vm.entries) <= vm.entries
    ensures Pictures(vm, Steps.Next(vm.env, s, op, false))
  {
    match op
    case DoSetState(target) => var _ := vm.SetState(target);
    case DoBuild(content, lost) => StepBuild(vm, content, lost, s);
    case DoVerify(bytes) => StepVerify(vm, bytes, s);
    case DoLose(lost) => StepLose(vm, lost, s);
  }

  /** Every call makes the step that BlockSteps says, with saves that succeed. */
  method Perform(vm: LandslideVM, op: Steps.Op, ghost s: Steps.Snapshot) returns (ghost shared: bool)
    requires vm.Valid() && vm.env.CollisionFree() && Pictures(vm, s)
    modifies vm, vm.entries
    ensures vm.Valid() && fresh(vm.entries - old(vm.entries)) && old(vm.entries) <= vm.entries
    ensures Pictures(vm, Steps.Next(vm.env, s, op, shared))
  {
    shared := false;
    if op.DoReject? {
      shared := PerformReject(vm, op.req, op.lost, s);
    } else if op.DoAccept? {
      StepAccept(vm, op.req, op.applyOk, op.retain, op.lost, s);
    } else {
      PerformOther(vm, op, s);
      NothingShared(vm.env, s, op);
    }
  }

  lemma NothingShared(env: Env, s: Steps.Snapshot, op: Steps.Op)
    requires !op.DoReject?
    ensures forall shared :: Steps.Next(env, s, op, shared) == Steps.Next(env, s, op, false)
  {
  }

  method PerformReject(vm: LandslideVM, req: Option<ID>, lost: Loss, ghost s: Steps.Snapshot) returns (ghost shared: bool)
    requires vm.Valid() && Pictures(vm, s)
    modifies vm`verified, vm`decided, vm.entries`status
    ensures vm.Valid()
    ensures Pictures(vm, Steps.Next(vm.env, s, Steps.DoReject(req, lost), shared))
  {
    shared := false;
    if req.Some? {
      ShownAlike(vm, s, req.value);
    }
    if req.Some? && vm.Cached(req.value).Some? {
      shared := StepReject(vm, req.value, lost, s);
    } else {
      var _ := vm.BlockReject(req, lost);
    }
  }

  /** The snapshot of a VM. */
  ghost function Snap(vm: LandslideVM): Steps.Snapshot
    requires vm.Valid()
    reads vm, vm.entries`status
  {
    Steps.Snapshot(vm.state, vm.store,
                   map id | id in vm.verified :: vm.verified[id].status,
                   map id | id in vm.decided :: vm.decided[id].status,
                   map id | id in vm.unverified :: vm.unverified[id].status,
                   vm.missing, vm.bytesToID)
  }

  lemma SnapPictures(vm: LandslideVM)
    requires vm.Valid()
    ensures Pictures(vm, Snap(vm))
    ensures forall s :: Pictures(vm, s) ==> s == Snap(vm)
  {
  }

  lemma PictureConsistent(vm: LandslideVM, s: Steps.Snapshot)
    requires vm.Valid() && vm.env.CollisionFree() && Pictures(vm, s)
    ensures Steps.Consistent(vm.env, s)
  {
  }

  /** Every run of lifecycle calls and cache losses, from any valid VM, takes it through
      the steps of BlockSteps, to a valid VM. */
  method RunCalls(vm: LandslideVM, ops: seq<Steps.Op>, ghost s: Steps.Snapshot) returns (ghost shared: seq<bool>)
    requires vm.Valid() && vm.env.CollisionFree() && Pictures(vm, s)
    modifies vm, vm.entries
    ensures vm.Valid() && fresh(vm.entries - old(vm.entries)) && old(vm.entries) <= vm.entries
    ensures |shared| == |ops| && Pictures(vm, Steps.Exec(vm.env, s, ops, shared))
  {
    shared := [];
    var i := 0;
    while i < |ops|
      invariant 0 <= i <= |ops| && |shared| == i
      invariant vm.Valid() && fresh(vm.entries - old(vm.entries)) && old(vm.entries) <= vm.entries
      invariant Pictures(vm, Steps.Exec(vm.env, s, ops[..i], shared))
    {
      shared := PerformAt(vm, ops, i, s, shared);
      i := i + 1;
    }
    assert ops[..|ops|] == ops;
  }

  method PerformAt(vm: LandslideVM, ops: seq<Steps.Op>, i: nat, ghost s: Steps.Snapshot, ghost before: seq<bool>)
      returns (ghost shared: seq<bool>)
    requires i < |ops| && |before| == i
    requires vm.Valid() && vm.env.CollisionFree() && Pictures(vm, Steps.Exec(vm.env, s, ops[..i], before))
    modifies vm, vm.entries
    ensures vm.Valid() && fresh(vm.entries - old(vm.entries)) && old(vm.entries) <= vm.entries
    ensures |shared| == i + 1 && Pictures(vm, Steps.Exec(vm.env, s, ops[..i + 1], shared))
  {
    ghost var t := Steps.Exec(vm.env, s, ops[..i], before);
    ghost var one := Perform(vm, ops[i], t);
    shared := before + [one];
    assert Steps.Exec(vm.env, s, ops[..i + 1], shared) == Steps.Next(vm.env, t, ops[i], one) by {
      assert ops[..i + 1] == ops[..i] + [ops[i]];
      ExecOneMore(vm.env, s, ops[..i], before, ops[i], one);
    }
  }

  lemma ExecOneMore(env: Env, s: Steps.Snapshot, ops: seq<Steps.Op>, shared: seq<bool>, op: Steps.Op, one: bool)
    requires |shared| == |ops|
    ensures Steps.Exec(env, s, ops + [op], shared + [one]) == Steps.Next(env, Steps.Exec(env, s, ops, shared), op, one)
  {
    assert (ops + [op])[..|ops|] == ops && (shared + [one])[..|ops|] == shared;
  }

  /** After any run the chain has only grown, and the oracle answers exactly for the
      blocks of the store the run has led to. */
  method RunThenAsk(vm: LandslideVM, ops: seq<Steps.Op>, id: ID, lost: Loss, ghost s: Steps.Snapshot)
      returns (accepted: bool, ghost shared: seq<bool>)
    requires vm.Valid() && vm.env.CollisionFree() && Pictures(vm, s)
    modifies vm, vm.entries
    ensures vm.Valid() && |shared| == |ops|
    ensures var t := Steps.Exec(vm.env, s, ops, shared);
            && vm.store == t.store && vm.state == t.state
            && Grown(s.store, s.state.lastBlockHeight, t.store, t.state.lastBlockHeight)
            && (accepted <==> InStore(vm.env, t.store, id))
  {
    ghost var env := vm.env;
    PictureConsistent(vm, s);
    shared := RunCalls(vm, ops, s);
    assert Grown(s.store, s.state.lastBlockHeight, vm.store, vm.state.lastBlockHeight) by {
      Steps.RunConsistent(env, s, ops, shared);
    }
    var r := GetAcceptedBlock(vm, id, lost);
    accepted := r.Ok?;
  }
}
