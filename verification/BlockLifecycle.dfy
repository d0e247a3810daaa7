/** The block lifecycle of LandslideVM (vm/vm.go), its wrapped-block caches
    (vm/types/state/wrapped_block.go), and the accepted-block oracle built on top of it
    (warp/block_client.go).

    The LRU caches are lossy.  A put may push entries out, the very one being put
    included, since an entry larger than the whole cache empties it: every call that
    puts takes a Loss.  Entries may also vanish between calls, which is the method
    LoseEntries.  Cache entries are heap objects, because BlockReject changes a status
    through a pointer that several caches may share. */
module BlockLifecycle {
  import opened Options
  import opened BlockChain

  class WrappedBlock {
    const block: Block
    var status: Status

    constructor (block: Block, status: Status)
      ensures this.block == block && this.status == status
    {
      this.block := block;
      this.status := status;
    }
  }

  type Cache = map<ID, WrappedBlock>

  ghost predicate Keyed(env: Env, m: Cache) {
    forall id :: id in m ==> env.hash(m[id].block) == id
  }

  /** Only objects that the VM has made. */
  ghost predicate Among(entries: set<WrappedBlock>, m: Cache) {
    forall id :: id in m ==> m[id] in entries
  }

  /** Only accepted and rejected blocks. */
  ghost predicate AllFinal(entries: set<WrappedBlock>, m: Cache)
    requires Among(entries, m)
    reads entries`status
  {
    forall id :: id in m ==> Final(m[id].status)
  }

  /** Only blocks that were put while processing; some may have been rejected since. */
  ghost predicate NoneAccepted(entries: set<WrappedBlock>, m: Cache)
    requires Among(entries, m)
    reads entries`status
  {
    forall id :: id in m ==> m[id].status == Processing || m[id].status == Rejected
  }

  /** now is before with a block put under an id, less what the put pushed out. */
  ghost predicate PutInto(before: Cache, now: Cache, id: ID, b: Block, s: Status, lost: set<ID>)
    reads if id in now then {now[id]} else {}
  {
    && now.Keys == before.Keys + {id} - lost
    && (forall x :: x in now && x != id ==> now[x] == before[x])
    && (id in now ==> now[id].block == b && now[id].status == s)
  }

  lemma PutPrecisely(before: Cache, now: Cache, id: ID, w: WrappedBlock, lost: set<ID>)
    requires now == before[id := w] - lost
    ensures PutInto(before, now, id, w.block, w.status, lost)
  {
  }

  class LandslideVM {
    const env: Env
    var state: ChainState
    var store: Store
    var bootstrapped: bool
    var phase: Phase
    var verified: Cache
    var decided: Cache
    var unverified: Cache
    var missing: set<ID>
    var bytesToID: map<Bytes, ID>

    ghost var entries: set<WrappedBlock>  // the objects that its caches may point at

    /** Every block cached under an id has that hash, every remembered byte string
        decodes to a block with the remembered hash, the decided cache holds decided
        blocks and the unverified cache no accepted one, and neither a verified nor a
        missing id is in the store. */
    ghost predicate CachesValid()
      reads this, entries`status
    {
      && Keyed(env, verified) && Keyed(env, decided) && Keyed(env, unverified)
      && Among(entries, verified) && Among(entries, decided) && Among(entries, unverified)
      && AllFinal(entries, decided) && NoneAccepted(entries, unverified)
      && Absent(env, store, verified.Keys) && Absent(env, store, missing)
      && Remembered(env, bytesToID)
    }

    ghost predicate Valid()
      reads this, entries`status
    {
      Chain(env, state, store) && CachesValid()
    }

    /** WrappedBlocksStorage.GetCachedBlock: verified, then decided, then unverified. */
    function Cached(id: ID): (w: Option<WrappedBlock>)
      reads this
    {
      if id in verified then Some(verified[id])
      else if id in decided then Some(decided[id])
      else if id in unverified then Some(unverified[id])
      else None
    }

    /** The start of BlockAccept and BlockReject: a well-formed id with a cached block. */
    function Lookup(req: Option<ID>): (w: Result<WrappedBlock>)
      reads this
    {
      if req.None? then Err(ErrBadID)
      else if Cached(req.value).None? then Err(ErrNotFound)
      else Ok(Cached(req.value).value)
    }

    /** The status under which a block is shown: its cache entry's, or accepted if it is
        not cached but stored. */
    function Shown(id: ID): (s: Option<Status>)
      reads this, if Cached(id).Some? then {Cached(id).value} else {}
    {
      if Cached(id).Some? then Some(Cached(id).value.status)
      else if InStore(env, store, id) then Some(Accepted)
      else None
    }

    /** ParseBlock would put the decoded block into a cache: it is in none, its bytes are
        not remembered, and its status is a known one. */
    predicate Admits(bytes: Bytes)
      reads this
    {
      && env.decode(bytes).Some?
      && var d := env.decode(bytes).value;
         Cached(env.hash(d.block)).None? && bytes !in bytesToID && Known(d.status)
    }

    /** A running VM over a persisted chain, with empty caches. */
    constructor (env: Env, state: ChainState, store: Store)
      requires Chain(env, state, store)
      ensures Valid() && this.env == env && this.state == state && this.store == store
      ensures entries == {} && missing == {} && bytesToID == map[]
    {
      this.env := env;
      this.state := state;
      this.store := store;
      bootstrapped := false;
      phase := PhaseUnspecified;
      verified, decided, unverified, missing, bytesToID := map[], map[], map[], {}, map[];
      entries := {};
    }

    /** The end of Initialize.  On an existing chain it loads the tip; otherwise it
        proposes, applies and stores a first block, which only works when the chain
        is configured to start at height 1.  left is what the block store then holds: a
        failed save leaves the block behind without a state that knows it. */
    static method Initialize(env: Env, st: ChainState, store: Store, content: Option<nat>, applyOk: bool, saveOk: bool)
        returns (r: Result<BlockInfo>, vm: LandslideVM?, left: Store)
      requires if st.lastBlockHeight > 0 then Chain(env, st, store) else st.lastBlockHeight == 0 && store == map[]
      ensures r.Ok? <==> vm != null
      ensures r.Ok? <==>
                st.lastBlockHeight > 0 ||
                (content.Some? && saveOk && applyOk
                 && st.initialHeight == 1 && env.checks(st, Block(1, st.lastBlockID, content.value)))
      ensures vm != null ==>
                && fresh(vm) && vm.Valid() && vm.env == env && vm.entries == {} && vm.store == left
                && vm.state.lastBlockHeight == r.value.height == (if st.lastBlockHeight > 0 then st.lastBlockHeight else st.initialHeight)
                && r.value.height in vm.store
                && env.hash(vm.store[r.value.height]) == r.value.id
                && vm.store[r.value.height].lastBlockID == r.value.parent
                && (st.lastBlockHeight > 0 ==> vm.store == store && vm.state == st)
                && (st.lastBlockHeight == 0 ==>
                      var b := Block(1, st.lastBlockID, content.value);
                      vm.store == map[1 := b] && vm.state == ChainState(1, 1, BlockRef(env.hash(b), env.parts(b)), env.execute(st, b)))
      ensures r.Err? && r.error == ErrSave ==> content.Some? && left == map[1 := Block(1, st.lastBlockID, content.value)]
      ensures r.Err? && r.error != ErrSave ==> left == map[]
    {
      vm, left := null, store;
      var blk;
      if st.lastBlockHeight > 0 {
        blk := store[st.lastBlockHeight];
        vm := new LandslideVM(env, st, store);
      } else {
        if content.None? {
          return Err(ErrProposal), null, left;
        }
        blk := Block(st.lastBlockHeight + 1, st.lastBlockID, content.value);
        if !env.ValidateBlock(st, blk) || !applyOk {
          return Err(ErrApply), null, left;
        }
        left := store[blk.height := blk];
        if !saveOk {
          return Err(ErrSave), null, left;
        }
        vm := new LandslideVM(env, env.NextState(st, blk), left);
      }
      r := Ok(BlockInfo(env.hash(blk), blk.lastBlockID, Accepted, blk.height));
    }

    /** Any entry of any LRU cache may vanish at any time. */
    method LoseEntries(lost: Loss)
      requires Valid()
      modifies this`decided, this`unverified, this`missing, this`bytesToID
      ensures Valid()
      ensures decided == old(decided) - lost.decided && unverified == old(unverified) - lost.unverified
      ensures missing == old(missing) - lost.missing && bytesToID == old(bytesToID) - lost.bytes
    {
      decided := decided - lost.decided;
      unverified := unverified - lost.unverified;
      missing := missing - lost.missing;
      bytesToID := bytesToID - lost.bytes;
    }

    /** With a known target it never reports not-found: the tip is in the store. */
    method SetState(target: Phase) returns (r: Result<BlockInfo>)
      requires Valid()
      modifies this`bootstrapped, this`phase
      ensures Valid()
      ensures r.Ok? <==> target == Bootstrapping || target == NormalOp
      ensures r.Err? ==> r.error == ErrUnknownState && bootstrapped == old(bootstrapped) && phase == old(phase)
      ensures r.Ok? ==>
                && bootstrapped == (target == NormalOp) && phase == target
                && r.value.height == state.lastBlockHeight
                && BlockRef(r.value.id, env.parts(store[r.value.height])) == state.lastBlockID
                && r.value.parent == store[r.value.height].lastBlockID
    {
      match target {
        case Bootstrapping => bootstrapped := false;
        case NormalOp => bootstrapped := true;
        case _ => return Err(ErrUnknownState);
      }
      if state.lastBlockHeight !in store {
        return Err(ErrNotFound);
      }
      var blk := store[state.lastBlockHeight];
      r := Ok(BlockInfo(env.hash(blk), blk.lastBlockID, Accepted, blk.height));
      phase := target;
    }

    /** content is what CreateProposalBlock gets from the mempool and application,
        or None if it fails. */
    method BuildBlock(content: Option<nat>, lost: Loss) returns (r: Result<BlockInfo>)
      requires Valid()
      modifies this`unverified, this`missing, this`entries
      ensures Valid() && fresh(entries - old(entries)) && old(entries) <= entries
      ensures r.Ok? <==> content.Some?
      ensures r.Err? ==> unverified == old(unverified) && missing == old(missing)
      ensures r.Ok? ==>
                var b := Block(state.lastBlockHeight + 1, state.lastBlockID, content.value);
                && r.value == BlockInfo(env.hash(b), state.lastBlockID, Processing, state.lastBlockHeight + 1)
                && missing == old(missing) - {r.value.id}
                && PutInto(old(unverified), unverified, r.value.id, b, Processing, lost.unverified)
    {
      if content.None? {
        return Err(ErrProposal);
      }
      var blk := Block(state.lastBlockHeight + 1, state.lastBlockID, content.value);
      var id := env.hash(blk);
      var w := new WrappedBlock(blk, Processing);
      entries := entries + {w};
      unverified := unverified[id := w] - lost.unverified;
      missing := missing - {id};
      r := Ok(BlockInfo(id, blk.lastBlockID, Processing, blk.height));
    }

    /** The switch on the status that ParseBlock and GetBlock share: decided blocks
        and blocks still processing go to their LRU cache, any other is refused. */
    method CacheByStatus(id: ID, w: WrappedBlock, lost: Loss) returns (ok: bool)
      requires Valid() && w in entries && (Known(w.status) ==> env.hash(w.block) == id)
      modifies this`decided, this`unverified
      ensures Valid()
      ensures ok == Known(w.status)
      ensures decided == if Final(w.status) then old(decided)[id := w] - lost.decided else old(decided)
      ensures unverified == if w.status == Processing then old(unverified)[id := w] - lost.unverified else old(unverified)
    {
      match w.status {
        case Accepted => decided := decided[id := w] - lost.decided;
        case Rejected => decided := decided[id := w] - lost.decided;
        case Processing => unverified := unverified[id := w] - lost.unverified;
        case Other(_) => return false;
      }
      ok := true;
    }

    /** MissingBlocks.Evict. */
    method EvictMissing(id: ID)
      requires Valid()
      modifies this`missing
      ensures Valid() && missing == old(missing) - {id}
    {
      missing := missing - {id};
    }

    /** The start of ParseBlock: the id remembered for the bytes, or else the decoded
        block, whose id is now remembered, unless the put pushes it out. */
    method IdentifyBytes(bytes: Bytes, lost: Loss) returns (id: ID, d: Option<Decoded>, ok: bool)
      requires Valid()
      modifies this`bytesToID
      ensures Valid()
      ensures ok <==> env.decode(bytes).Some?
      ensures ok ==> id == env.hash(env.decode(bytes).value.block)
      ensures bytesToID == if ok && bytes !in old(bytesToID) then old(bytesToID)[bytes := id] - lost.bytes else old(bytesToID)
      ensures d == if bytes in old(bytesToID) then None else env.decode(bytes)
    {
      if bytes in bytesToID {
        return bytesToID[bytes], None, true;
      }
      d := env.decode(bytes);
      if d.None? {
        return 0, None, false;
      }
      id := env.hash(d.value.block);
      bytesToID := bytesToID[bytes := id] - lost.bytes;
      ok := true;
    }

    /** The middle of ParseBlock: the cached block, or the decoded one, which is then
        put into a cache by its status and no longer missing; None if that status is
        unknown. */
    method CacheParsed(id: ID, d: Option<Decoded>, lost: Loss) returns (w: Option<WrappedBlock>)
      requires Valid() && (d.Some? ==> env.hash(d.value.block) == id)
      modifies this`decided, this`unverified, this`missing, this`entries
      ensures Valid() && fresh(entries - old(entries)) && old(entries) <= entries
      ensures old(Cached(id)).Some? ==> w == old(Cached(id))
      ensures old(Cached(id)).None? ==> (w.Some? <==> d.Some? && Known(d.value.status))
      ensures old(Cached(id)).None? && w.Some? ==>
                && d == Some(Decoded(w.value.block, w.value.status)) && missing == old(missing) - {id}
                && if Final(w.value.status) then
                     unverified == old(unverified) && PutInto(old(decided), decided, id, w.value.block, w.value.status, lost.decided)
                   else
                     decided == old(decided) && PutInto(old(unverified), unverified, id, w.value.block, w.value.status, lost.unverified)
      ensures old(Cached(id)).Some? || w.None? ==>
                decided == old(decided) && unverified == old(unverified) && missing == old(missing)
    {
      w := Cached(id);
      if w.None? {
        var blk, status := Block(0, NoBlock, 0), UNSPECIFIED;
        if d.Some? {
          blk, status := d.value.block, d.value.status;
        }
        var wblk := new WrappedBlock(blk, status);
        entries := entries + {wblk};
        ghost var wasDecided, wasUnverified := decided, unverified;
        var ok := CacheByStatus(id, wblk, lost);
        if !ok {
          return None;
        }
        if Final(status) {
          PutPrecisely(wasDecided, decided, id, wblk, lost.decided);
        } else {
          PutPrecisely(wasUnverified, unverified, id, wblk, lost.unverified);
        }
        EvictMissing(id);
        w := Some(wblk);
      }
    }

    /** Succeeds exactly when the bytes are known or decode, and the block is cached
        or was just decoded with a known status: bytes remembered for a block that
        every cache has lost are refused.  A success reports the id, parent and
        height of the decoded block, whichever cache answered. */
    method ParseBlock(bytes: Bytes, lost: Loss) returns (r: Result<BlockInfo>)
      requires Valid() && env.CollisionFree()
      modifies this`bytesToID, this`decided, this`unverified, this`missing, this`entries
      ensures Valid() && fresh(entries - old(entries)) && old(entries) <= entries
      ensures env.decode(bytes).None? ==> r == Err(ErrDecode) && bytesToID == old(bytesToID)
      ensures env.decode(bytes).Some? ==>
                var d := env.decode(bytes).value;
                var id := env.hash(d.block);
                var c := old(Cached(id));
                && r == (if c.Some? || (bytes !in old(bytesToID) && !d.status.Other?) then
                           Ok(BlockInfo(id, d.block.lastBlockID, if c.Some? then c.value.status else d.status, d.block.height))
                         else Err(ErrUnexpectedStatus))
                && bytesToID == (if bytes in old(bytesToID) then old(bytesToID) else old(bytesToID)[bytes := id] - lost.bytes)
      ensures !old(Admits(bytes)) ==> decided == old(decided) && unverified == old(unverified) && missing == old(missing)
      ensures old(Admits(bytes)) ==>
                var d := env.decode(bytes).value;
                var id := env.hash(d.block);
                && missing == old(missing) - {id}
                && if d.status == Accepted || d.status == Rejected then
                     unverified == old(unverified) && PutInto(old(decided), decided, id, d.block, d.status, lost.decided)
                   else
                     decided == old(decided) && PutInto(old(unverified), unverified, id, d.block, d.status, lost.unverified)
    {
      var id, d, ok := IdentifyBytes(bytes, lost);
      if !ok {
        return Err(ErrDecode);
      }
      var w := CacheParsed(id, d, lost);
      if w.None? {
        return Err(ErrUnexpectedStatus);
      }
      var blk := w.value.block;
      assert blk == env.unhash(id) == env.decode(bytes).value.block;
      r := Ok(BlockInfo(env.hash(blk), blk.lastBlockID, w.value.status, blk.height));
    }

    /** blockStore.LoadBlockByHash. */
    method LoadBlockByHash(id: ID) returns (b: Option<Block>)
      ensures b.Some? <==> InStore(env, store, id)
      ensures b.Some? ==> b.value in store.Values && env.hash(b.value) == id
      ensures b.Some? && Chain(env, state, store) ==> b.value.height in store && store[b.value.height] == b.value
    {
      if h :| h in store && env.hash(store[h]) == id {
        b := Some(store[h]);
      } else {
        b := None;
      }
    }

    /** The middle of GetBlock, for a block in no cache: one known to be missing is not
        looked up again, one that is not stored is remembered as missing. */
    method LoadUncached(id: ID, lost: Loss) returns (w: Option<WrappedBlock>)
      requires Valid()
      modifies this`missing, this`entries
      ensures Valid() && fresh(entries - old(entries)) && old(entries) <= entries
      ensures w.Some? <==> InStore(env, store, id)
      ensures w.Some? ==>
                && w.value in entries && w.value.status == Accepted && missing == old(missing)
                && env.hash(w.value.block) == id
                && w.value.block.height in store && store[w.value.block.height] == w.value.block
      ensures w.None? ==> missing == if id in old(missing) then old(missing) else old(missing) + {id} - lost.missing
    {
      if id in missing {
        return None;
      }
      var b := LoadBlockByHash(id);
      if b.None? {
        missing := missing + {id} - lost.missing;
        return None;
      }
      var wblk := new WrappedBlock(b.value, Accepted);
      entries := entries + {wblk};
      w := Some(wblk);
    }

    /** Answers from the caches, else from the store; remembers a miss.  A success that is
        not a miss carries the block whose hash was asked for, with the status it is shown
        under, and puts it into the cache of that status. */
    method GetBlock(req: Option<ID>, lost: Loss) returns (r: Result<GetBlockResponse>)
      requires Valid()
      modifies this`decided, this`unverified, this`missing, this`entries
      ensures Valid() && fresh(entries - old(entries)) && old(entries) <= entries
      ensures req.None? ==>
                r == Err(ErrBadID) && decided == old(decided) && unverified == old(unverified) && missing == old(missing)
      ensures r.Ok? ==>
                (r.value.notFound <==>
                   && req.value !in verified && req.value !in old(decided) && req.value !in old(unverified)
                   && forall h :: h in store ==> env.hash(store[h]) != req.value)
      ensures r.Ok? && !r.value.notFound ==>
                r.value.status == if req.value in verified then old(verified[req.value].status)
                                  else if req.value in old(decided) then old(decided[req.value].status)
                                  else if req.value in old(unverified) then old(unverified[req.value].status)
                                  else Accepted
      ensures req.Some? && old(Cached(req.value)).Some? ==>
                var w := old(Cached(req.value)).value;
                && r == (if w.status.Other? then Err(ErrUnexpectedStatus)
                         else Ok(GetBlockResponse(false, w.block.lastBlockID, env.encode(w.block, w.status), w.status, w.block.height)))
                && decided == (if w.status == Accepted || w.status == Rejected then old(decided)[req.value := w] - lost.decided
                               else old(decided))
                && unverified == (if w.status == Processing then old(unverified)[req.value := w] - lost.unverified else old(unverified))
                && missing == old(missing)
      ensures req.Some? && old(Cached(req.value)).None? ==> unverified == old(unverified)
      ensures req.Some? && old(Cached(req.value)).None? && InStore(env, store, req.value) ==>
                && r.Ok? && r.value.height in store
                && var b := store[r.value.height];
                   && env.hash(b) == req.value
                   && r.value == GetBlockResponse(false, b.lastBlockID, env.encode(b, Accepted), Accepted, b.height)
                   && PutInto(old(decided), decided, req.value, b, Accepted, lost.decided)
                   && missing == old(missing)
      ensures req.Some? && old(Cached(req.value)).None? && !InStore(env, store, req.value) ==>
                && r == Ok(GetBlockResponse(true, NoBlock, [], Other(0), 0)) && decided == old(decided)
                && missing == (if req.value in old(missing) then old(missing) else old(missing) + {req.value} - lost.missing)
    {
      if req.None? {
        return Err(ErrBadID);
      }
      var c := Cached(req.value);
      if c.None? {
        c := LoadUncached(req.value, lost);
        if c.None? {
          return Ok(GetBlockResponse(true, NoBlock, [], UNSPECIFIED, 0));
        }
      }
      ghost var before := decided;
      var ok := CacheByStatus(req.value, c.value, lost);
      if !ok {
        return Err(ErrUnexpectedStatus);
      }
      if Final(c.value.status) {
        PutPrecisely(before, decided, req.value, c.value, lost.decided);
      }
      var blk, status := c.value.block, c.value.status;
      r := Ok(GetBlockResponse(false, blk.lastBlockID, env.encode(blk, status), status, blk.height));
    }

    /** None stands for the response that carries ERROR_NOT_FOUND and no id.  On a chain
        there is an id exactly for the heights from the lowest stored one up to the last,
        at the last height it is the one the state names, and no other height has it. */
    method GetBlockIDAtHeight(height: int) returns (id: Option<ID>)
      ensures id == if height in store then Some(env.hash(store[height])) else None
      ensures Chain(env, state, store) ==>
                (id.Some? <==> height <= state.lastBlockHeight && exists h :: h in store && h <= height)
      ensures Chain(env, state, store) && height == state.lastBlockHeight ==>
                state.lastBlockID.BlockRef? && id == Some(state.lastBlockID.hash)
      ensures Chain(env, state, store) && env.CollisionFree() && id.Some? ==>
                forall h :: h in store && env.hash(store[h]) == id.value ==> h == height
    {
      if height !in store {
        return None;
      }
      id := Some(env.hash(store[height]));
    }

    method BlockVerify(bytes: Bytes) returns (r: Result<()>)
      requires Valid() && env.CollisionFree()
      modifies this`verified, this`unverified, this`entries
      ensures Valid() && fresh(entries - old(entries)) && old(entries) <= entries
      ensures env.decode(bytes).None? ==> r == Err(ErrDecode)
      ensures env.decode(bytes).Some? ==>
                var d := env.decode(bytes).value;
                if env.checks(state, d.block) && d.block.height == state.lastBlockHeight + 1
                   && d.block.lastBlockID == state.lastBlockID then
                  var id := env.hash(d.block);
                  && r == Ok(()) && unverified == old(unverified) - {id}
                  && PutInto(old(verified), verified, id, d.block, d.status, {})
                else r == Err(ErrInvalidBlock)
      ensures r.Err? ==> verified == old(verified) && unverified == old(unverified)
      ensures r.Ok? ==>
                var id := env.hash(env.decode(bytes).value.block);
                id in verified && Cached(id) == Some(verified[id])
    {
      var d := env.decode(bytes);
      if d.None? {
        return Err(ErrDecode);
      }
      var blk := d.value.block;
      if !env.ValidateBlock(state, blk) {
        return Err(ErrInvalidBlock);
      }
      var id := env.hash(blk);
      ValidatedIsNew(env, state, store, blk);
      unverified := unverified - {id};
      var w := new WrappedBlock(blk, d.value.status);
      entries := entries + {w};
      verified := verified[id := w];
      r := Ok(());
    }

    /** The middle of BlockAccept: ApplyBlock (which validates, executes and prunes),
        SaveBlock, and saving the new state. */
    method CommitBlock(blk: Block, applyOk: bool, retain: int, saveOk: bool) returns (r: Result<()>)
      requires Chain(env, state, store)
      modifies this`store, this`state
      ensures r == if !env.ValidateBlock(old(state), blk) || !applyOk then Err(ErrApply)
                   else if saveOk then Ok(()) else Err(ErrSave)
      ensures r != Err(ErrApply) <==>
                && applyOk && env.checks(old(state), blk)
                && blk.height == old(state).lastBlockHeight + 1 && blk.lastBlockID == old(state).lastBlockID
      ensures r == Err(ErrApply) ==> store == old(store)
      ensures r != Err(ErrApply) ==>
                store == Prune(old(store), retain)[blk.height := blk] && store[blk.height] == blk
      ensures state == if r.Ok? then env.NextState(old(state), blk) else old(state)
      ensures r.Ok? ==>
                state == ChainState(old(state).initialHeight, blk.height, BlockRef(env.hash(blk), env.parts(blk)),
                                    env.execute(old(state), blk))
      ensures r != Err(ErrSave) <==> Chain(env, state, store)
      ensures r.Ok? ==> Grown(old(store), old(state).lastBlockHeight, store, state.lastBlockHeight)
      ensures forall ids :: Absent(env, old(store), ids) ==> Absent(env, store, ids - {env.hash(blk)})
    {
      if !env.ValidateBlock(state, blk) || !applyOk {
        return Err(ErrApply);
      }
      AppendPruned(env, state, store, blk, retain);
      store := Prune(store, retain)[blk.height := blk];
      if !saveOk {
        return Err(ErrSave);
      }
      state := env.NextState(state, blk);
      r := Ok(());
    }

    /** The end of BlockAccept: the accepted block leaves the verified, missing and
        unverified caches for the decided one. */
    method SettleAccepted(id: ID, blk: Block, lost: Loss)
      requires Chain(env, state, store) && env.hash(blk) == id
      requires Keyed(env, verified) && Keyed(env, decided) && Keyed(env, unverified)
      requires Among(entries, verified) && Among(entries, decided) && Among(entries, unverified)
      requires AllFinal(entries, decided) && NoneAccepted(entries, unverified) && Remembered(env, bytesToID)
      requires Absent(env, store, verified.Keys - {id}) && Absent(env, store, missing - {id})
      modifies this`verified, this`missing, this`unverified, this`decided, this`entries
      ensures Valid() && fresh(entries - old(entries)) && old(entries) <= entries
      ensures verified == old(verified) - {id} && unverified == old(unverified) - {id} && missing == old(missing) - {id}
      ensures PutInto(old(decided), decided, id, blk, Accepted, lost.decided)
    {
      DropPending(id);
      ghost var before := decided;
      var w := new WrappedBlock(blk, Accepted);
      entries := entries + {w};
      var _ := CacheByStatus(id, w, lost);
      PutPrecisely(before, decided, id, w, lost.decided);
    }

    method DropPending(id: ID)
      requires Chain(env, state, store)
      requires Keyed(env, verified) && Keyed(env, decided) && Keyed(env, unverified)
      requires Among(entries, verified) && Among(entries, decided) && Among(entries, unverified)
      requires AllFinal(entries, decided) && NoneAccepted(entries, unverified) && Remembered(env, bytesToID)
      requires Absent(env, store, verified.Keys - {id}) && Absent(env, store, missing - {id})
      modifies this`verified, this`missing, this`unverified
      ensures Valid()
      ensures verified == old(verified) - {id} && unverified == old(unverified) - {id} && missing == old(missing) - {id}
    {
      verified := verified - {id};
      missing := missing - {id};
      unverified := unverified - {id};
    }

    /** BlockAccept of a block that is in a cache. */
    method AcceptCached(id: ID, b: Block, applyOk: bool, retain: int, saveOk: bool, lost: Loss) returns (r: Result<()>)
      requires Valid() && env.hash(b) == id
      modifies this`store, this`state, this`verified, this`missing, this`unverified, this`decided, this`entries
      ensures r != Err(ErrSave) ==> Valid()
      ensures r == Err(ErrSave) ==> !Chain(env, state, store)
      ensures fresh(entries - old(entries)) && old(entries) <= entries
      ensures r == if !env.ValidateBlock(old(state), b) || !applyOk then Err(ErrApply)
                   else if saveOk then Ok(()) else Err(ErrSave)
      ensures r != Err(ErrApply) ==>
                && env.checks(old(state), b) && b.lastBlockID == old(state).lastBlockID
                && b.height == old(state).lastBlockHeight + 1
                && store == Prune(old(store), retain)[b.height := b]
      ensures r.Ok? ==>
                && Grown(old(store), old(state).lastBlockHeight, store, state.lastBlockHeight)
                && state == env.NextState(old(state), b)
                && state.lastBlockHeight == b.height && state.rest == env.execute(old(state), b)
                && verified == old(verified) - {id} && unverified == old(unverified) - {id}
                && missing == old(missing) - {id}
                && PutInto(old(decided), decided, id, b, Accepted, lost.decided)
      ensures r.Err? ==>
                && state == old(state) && verified == old(verified) && decided == old(decided)
                && unverified == old(unverified) && missing == old(missing)
                && (r.error != ErrSave ==> store == old(store))
    {
      r := CommitBlock(b, applyOk, retain, saveOk);
      assert AllFinal(entries, decided) && NoneAccepted(entries, unverified);
      if r.Ok? {
        SettleAccepted(id, b, lost);
      }
    }

    /** applyOk says whether the application executes the block, retain is the height
        it asks to retain from, saveOk whether the state can be saved.  The block is
        appended to the store and never overwrites one; only a failed save leaves the
        store ahead of the state. */
    method BlockAccept(req: Option<ID>, applyOk: bool, retain: int, saveOk: bool, lost: Loss) returns (r: Result<()>)
      requires Valid()
      modifies this`store, this`state, this`verified, this`missing, this`unverified, this`decided, this`entries
      ensures r != Err(ErrSave) ==> Valid()
      ensures r == Err(ErrSave) ==> !Chain(env, state, store)
      ensures r.Ok? ==> Grown(old(store), old(state).lastBlockHeight, store, state.lastBlockHeight)
      ensures fresh(entries - old(entries)) && old(entries) <= entries
      ensures r == Err(ErrBadID) <==> req.None?
      ensures r == Err(ErrNotFound) <==>
                req.Some? && req.value !in old(verified) && req.value !in old(decided) && req.value !in old(unverified)
      ensures old(Lookup(req)).Err? ==> r == Err(old(Lookup(req)).error)
      ensures old(Lookup(req)).Ok? ==>
                var b := old(Lookup(req)).value.block;
                && r == (if !env.ValidateBlock(old(state), b) || !applyOk then Err(ErrApply)
                         else if saveOk then Ok(()) else Err(ErrSave))
                && env.hash(b) == req.value
                && (r.Ok? || r.error == ErrSave ==>
                      && env.checks(old(state), b) && b.lastBlockID == old(state).lastBlockID
                      && b.height == old(state).lastBlockHeight + 1
                      && store == Prune(old(store), retain)[b.height := b])
      ensures r.Ok? ==>
                var id, b := req.value, old(Lookup(req)).value.block;
                && state == env.NextState(old(state), b)
                && state.lastBlockHeight in store && store[state.lastBlockHeight] == b && state.rest == env.execute(old(state), b)
                && verified == old(verified) - {id} && unverified == old(unverified) - {id}
                && missing == old(missing) - {id}
                && PutInto(old(decided), decided, id, b, Accepted, lost.decided)
      ensures r.Err? ==>
                && state == old(state) && verified == old(verified) && decided == old(decided)
                && unverified == old(unverified) && missing == old(missing)
                && (r.error != ErrSave ==> store == old(store))
    {
      var w := Lookup(req);
      if w.Err? {
        return Err(w.error);
      }
      r := AcceptCached(req.value, w.value.block, applyOk, retain, saveOk, lost);
    }

    /** Marks the cached entry itself, so every cache that shares it sees the change. */
    method BlockReject(req: Option<ID>, lost: Loss) returns (r: Result<()>)
      requires Valid()
      modifies this`verified, this`decided, entries`status
      ensures Valid()
      ensures r == if old(Lookup(req)).Err? then Err(old(Lookup(req)).error) else Ok(())
      ensures r == Err(ErrBadID) <==> req.None?
      ensures r == Err(ErrNotFound) <==>
                req.Some? && req.value !in old(verified) && req.value !in old(decided) && req.value !in old(unverified)
      ensures r.Ok? && req.value in old(verified) ==> old(verified)[req.value].status == Rejected
      ensures r.Ok? && req.value !in old(verified) && req.value in old(decided) ==> old(decided)[req.value].status == Rejected
      ensures r.Ok? && req.value !in old(verified) && req.value !in old(decided) ==> unverified[req.value].status == Rejected
      ensures r.Err? ==> verified == old(verified) && decided == old(decided)
      ensures r.Ok? ==>
                var w := old(Lookup(req)).value;
                && w.status == Rejected
                && verified == old(verified) - {req.value} && decided == old(decided)[req.value := w] - lost.decided
      ensures forall o :: o in old(entries) && old(Lookup(req)) != Ok(o) ==> o.status == old(o.status)
      ensures forall x :: x in old(verified) && Some(x) != req ==> old(verified)[x].status == old(verified[x].status)
      ensures forall x :: x in old(decided) && Some(x) != req ==> old(decided)[x].status == old(decided[x].status)
      ensures forall x :: x in unverified && Some(x) != req ==> unverified[x].status == old(unverified[x].status)
    {
      var w := Lookup(req);
      if w.Err? {
        return Err(w.error);
      }
      w.value.status := Rejected;
      MoveToDecided(req.value, w.value, lost);
      r := Ok(());
    }

    method MoveToDecided(id: ID, w: WrappedBlock, lost: Loss)
      requires Valid() && w in entries && env.hash(w.block) == id && Final(w.status)
      modifies this`verified, this`decided
      ensures Valid()
      ensures verified == old(verified) - {id} && decided == old(decided)[id := w] - lost.decided
    {
      verified := verified - {id};
      decided := decided[id := w] - lost.decided;
    }
  }

  // ------------------------------------------------------ accepted-block oracle

  /** blockStorageClient.GetAcceptedBlock: it succeeds exactly on the hashes of the
      blocks in the accepted store, and then answers with the stored block under the
      status it is shown under, whatever that is. */
  method GetAcceptedBlock(vm: LandslideVM, id: ID, lost: Loss) returns (r: Result<GetBlockResponse>)
    requires vm.Valid() && vm.env.CollisionFree()
    modifies vm`decided, vm`unverified, vm`missing, vm`entries
    ensures vm.Valid() && fresh(vm.entries - old(vm.entries)) && old(vm.entries) <= vm.entries
    ensures r.Ok? <==> InStore(vm.env, vm.store, id)
    ensures forall h :: h in vm.store && vm.env.hash(vm.store[h]) == id ==> r.Ok? && r.value.height == h
    ensures r.Ok? ==>
              && r.value.height in vm.store && !r.value.notFound
              && var b := vm.store[r.value.height];
                 && vm.env.hash(b) == id && r.value.parent == b.lastBlockID
                 && r.value.bytes == vm.env.encode(b, r.value.status)
                 && old(vm.Shown(id)) == Some(r.value.status)
  {
    var blk := vm.GetBlock(Some(id), lost);
    if blk.Err? {
      return Err(blk.error);
    }
    var accepted := vm.GetBlockIDAtHeight(blk.value.height);
    if accepted != Some(id) {
      return Err(ErrNotFound);
    }
    r := blk;
  }
}
