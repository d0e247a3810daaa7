/** The block lifecycle as steps of a snapshot of the VM, and its runs: what every run
    keeps, and exactly when a block that is shown as accepted stays so.  The methods of
    LandslideVM are shown to make these steps in BlockRuns. */
module BlockSteps {
  import opened Options
  import opened BlockChain

  datatype Op =
    | DoSetState(target: Phase)
    | DoBuild(content: Option<nat>, lost: Loss)
    | DoParse(bytes: Bytes, lost: Loss)
    | DoGet(req: Option<ID>, lost: Loss)
    | DoVerify(bytes: Bytes)
    | DoAccept(req: Option<ID>, applyOk: bool, retain: int, lost: Loss)
    | DoReject(req: Option<ID>, lost: Loss)
    | DoLose(lost: Loss)

  /** The VM as its callers can tell it apart.  An id stands for its block. */
  datatype Snapshot = Snapshot(
    state: ChainState, store: Store,
    verified: Statuses, decided: Statuses, unverified: Statuses,
    missing: set<ID>, bytesToID: map<Bytes, ID>)

  function Cached(s: Snapshot, id: ID): Option<Status> {
    if id in s.verified then Some(s.verified[id])
    else if id in s.decided then Some(s.decided[id])
    else if id in s.unverified then Some(s.unverified[id])
    else None
  }

  /** The status GetBlock reports. */
  function Shown(env: Env, s: Snapshot, id: ID): Option<Status> {
    if Cached(s, id).Some? then Cached(s, id)
    else if InStore(env, s.store, id) then Some(Accepted)
    else None
  }

  predicate Admits(env: Env, s: Snapshot, bytes: Bytes) {
    && env.decode(bytes).Some?
    && var d := env.decode(bytes).value;
       Cached(s, env.hash(d.block)).None? && bytes !in s.bytesToID && Known(d.status)
  }

  /** A status put into the LRU cache it belongs to. */
  function Put(s: Snapshot, id: ID, status: Status, lost: Loss): Snapshot {
    if Final(status) then s.(decided := s.decided[id := status] - lost.decided)
    else if status == Processing then s.(unverified := s.unverified[id := status] - lost.unverified)
    else s
  }

  function Build(env: Env, s: Snapshot, content: nat, lost: Loss): Snapshot {
    var id := env.hash(Block(s.state.lastBlockHeight + 1, s.state.lastBlockID, content));
    Put(s, id, Processing, lost).(missing := s.missing - {id})
  }

  function Parse(env: Env, s: Snapshot, bytes: Bytes, lost: Loss): Snapshot {
    if env.decode(bytes).None? then s
    else
      var d := env.decode(bytes).value;
      var id := env.hash(d.block);
      var puts := Admits(env, s, bytes);
      s.(bytesToID := if bytes in s.bytesToID then s.bytesToID else s.bytesToID[bytes := id] - lost.bytes,
         missing := if puts then s.missing - {id} else s.missing,
         decided := if puts && Final(d.status) then s.decided[id := d.status] - lost.decided else s.decided,
         unverified := if puts && !Final(d.status) then s.unverified[id := d.status] - lost.unverified else s.unverified)
  }

  function Get(env: Env, s: Snapshot, id: ID, lost: Loss): Snapshot {
    if Shown(env, s, id).Some? then Put(s, id, Shown(env, s, id).value, lost)
    else if id in s.missing then s
    else s.(missing := s.missing + {id} - lost.missing)
  }

  function Verify(env: Env, s: Snapshot, bytes: Bytes): Snapshot {
    if env.decode(bytes).None? || !env.ValidateBlock(s.state, env.decode(bytes).value.block) then s
    else
      var id := env.hash(env.decode(bytes).value.block);
      s.(verified := s.verified[id := env.decode(bytes).value.status], unverified := s.unverified - {id})
  }

  /** BlockAccept gets through, if the state can be saved. */
  predicate Accepts(env: Env, s: Snapshot, req: Option<ID>, applyOk: bool) {
    req.Some? && Cached(s, req.value).Some? && applyOk && env.ValidateBlock(s.state, env.unhash(req.value))
  }

  function Accept(env: Env, s: Snapshot, id: ID, retain: int, lost: Loss): Snapshot {
    var b := env.unhash(id);
    Snapshot(env.NextState(s.state, b), Prune(s.store, retain)[b.height := b],
             s.verified - {id}, s.decided[id := Accepted] - lost.decided, s.unverified - {id},
             s.missing - {id}, s.bytesToID)
  }

  /** shared says whether the unverified cache, too, points at the entry that is marked. */
  function Reject(s: Snapshot, id: ID, shared: bool, lost: Loss): Snapshot {
    var marked := id in s.unverified && (shared || (id !in s.verified && id !in s.decided));
    s.(verified := s.verified - {id}, decided := s.decided[id := Rejected] - lost.decided,
       unverified := if marked then s.unverified[id := Rejected] else s.unverified)
  }

  /** One call, with saves that succeed. */
  function Next(env: Env, s: Snapshot, op: Op, shared: bool): Snapshot {
    match op
    case DoSetState(_) => s
    case DoBuild(content, lost) => if content.Some? then Build(env, s, content.value, lost) else s
    case DoParse(bytes, lost) => Parse(env, s, bytes, lost)
    case DoGet(req, lost) => if req.Some? then Get(env, s, req.value, lost) else s
    case DoVerify(bytes) => Verify(env, s, bytes)
    case DoAccept(req, applyOk, retain, lost) =>
      if Accepts(env, s, req, applyOk) then Accept(env, s, req.value, retain, lost) else s
    case DoReject(req, lost) =>
      if req.Some? && Cached(s, req.value).Some? then Reject(s, req.value, shared, lost) else s
    case DoLose(lost) =>
      s.(decided := s.decided - lost.decided, unverified := s.unverified - lost.unverified,
         missing := s.missing - lost.missing, bytesToID := s.bytesToID - lost.bytes)
  }

  /** The store is a gap-free chain that ends at the last height; the decided cache holds
      decided blocks and the unverified cache no accepted one; neither a verified nor a
      missing id is in the store; remembered ids are the hashes of the decoded bytes, and
      cached ids are hashes of blocks. */
  ghost predicate Consistent(env: Env, s: Snapshot) {
    && Chain(env, s.state, s.store)
    && (forall id :: id in s.decided ==> Final(s.decided[id]))
    && (forall id :: id in s.unverified ==> s.unverified[id] == Processing || s.unverified[id] == Rejected)
    && Absent(env, s.store, s.verified.Keys) && Absent(env, s.store, s.missing)
    && Remembered(env, s.bytesToID)
    && (forall id :: Cached(s, id).Some? ==> env.hash(env.unhash(id)) == id)
  }

  // ------------------------------------------------------- what every call keeps

  lemma PutConsistent(env: Env, s: Snapshot, id: ID, status: Status, lost: Loss)
    requires Consistent(env, s) && env.hash(env.unhash(id)) == id
    ensures Consistent(env, Put(s, id, status, lost))
  {
  }

  lemma BuildConsistent(env: Env, s: Snapshot, content: nat, lost: Loss)
    requires env.CollisionFree() && Consistent(env, s)
    ensures Consistent(env, Build(env, s, content, lost))
  {
    PutConsistent(env, s, env.hash(Block(s.state.lastBlockHeight + 1, s.state.lastBlockID, content)), Processing, lost);
  }

  lemma ParseConsistent(env: Env, s: Snapshot, bytes: Bytes, lost: Loss)
    requires env.CollisionFree() && Consistent(env, s)
    ensures Consistent(env, Parse(env, s, bytes, lost))
  {
    if env.decode(bytes).Some? {
      var t := Parse(env, s, bytes, lost);
      forall x | Cached(t, x).Some? ensures env.hash(env.unhash(x)) == x {
        assert Cached(s, x).Some? || x == env.hash(env.decode(bytes).value.block);
      }
    }
  }

  lemma GetConsistent(env: Env, s: Snapshot, id: ID, lost: Loss)
    requires env.CollisionFree() && Consistent(env, s)
    ensures Consistent(env, Get(env, s, id, lost))
  {
    if Shown(env, s, id).Some? {
      PutConsistent(env, s, id, Shown(env, s, id).value, lost);
    }
  }

  lemma VerifyConsistent(env: Env, s: Snapshot, bytes: Bytes)
    requires env.CollisionFree() && Consistent(env, s)
    ensures Consistent(env, Verify(env, s, bytes))
  {
    if env.decode(bytes).Some? && env.ValidateBlock(s.state, env.decode(bytes).value.block) {
      ValidatedIsNew(env, s.state, s.store, env.decode(bytes).value.block);
    }
  }

  lemma AcceptConsistent(env: Env, s: Snapshot, id: ID, retain: int, lost: Loss)
    requires env.CollisionFree() && Consistent(env, s)
    requires Cached(s, id).Some? && env.ValidateBlock(s.state, env.unhash(id))
    ensures Consistent(env, Accept(env, s, id, retain, lost))
    ensures Grown(s.store, s.state.lastBlockHeight, Accept(env, s, id, retain, lost).store, s.state.lastBlockHeight + 1)
  {
    AppendPruned(env, s.state, s.store, env.unhash(id), retain);
  }

  lemma RejectConsistent(env: Env, s: Snapshot, id: ID, shared: bool, lost: Loss)
    requires Consistent(env, s) && Cached(s, id).Some?
    ensures Consistent(env, Reject(s, id, shared, lost))
  {
  }

  lemma LoseConsistent(env: Env, s: Snapshot, lost: Loss)
    requires Consistent(env, s)
    ensures Consistent(env, Next(env, s, DoLose(lost), false))
  {
  }

  /** Every call keeps the snapshot consistent. */
  lemma NextConsistent(env: Env, s: Snapshot, op: Op, shared: bool)
    requires env.CollisionFree() && Consistent(env, s)
    ensures Consistent(env, Next(env, s, op, shared))
  {
    match op
    case DoSetState(_) =>
    case DoBuild(content, lost) => if content.Some? { BuildConsistent(env, s, content.value, lost); }
    case DoParse(bytes, lost) => ParseConsistent(env, s, bytes, lost);
    case DoGet(req, lost) => if req.Some? { GetConsistent(env, s, req.value, lost); }
    case DoVerify(bytes) => VerifyConsistent(env, s, bytes);
    case DoAccept(req, applyOk, retain, lost) =>
      if Accepts(env, s, req, applyOk) { AcceptConsistent(env, s, req.value, retain, lost); }
    case DoReject(req, lost) =>
      if req.Some? && Cached(s, req.value).Some? { RejectConsistent(env, s, req.value, shared, lost); }
    case DoLose(lost) => LoseConsistent(env, s, lost);
  }

  /** Every call but BlockAccept leaves the chain alone, and that one lets it grow. */
  lemma NextGrows(env: Env, s: Snapshot, op: Op, shared: bool)
    requires env.CollisionFree() && Consistent(env, s)
    ensures var t := Next(env, s, op, shared);
            && Grown(s.store, s.state.lastBlockHeight, t.store, t.state.lastBlockHeight)
            && (!op.DoAccept? ==> t.store == s.store && t.state == s.state)
  {
    if op.DoAccept? && Accepts(env, s, op.req, op.applyOk) {
      AcceptConsistent(env, s, op.req.value, op.retain, op.lost);
    }
  }

  /** The snapshot after a run. */
  function Exec(env: Env, s: Snapshot, ops: seq<Op>, shared: seq<bool>): Snapshot
    requires |shared| == |ops|
  {
    var n := |ops| - 1;
    if ops == [] then s else Next(env, Exec(env, s, ops[..n], shared[..n]), ops[n], shared[n])
  }

  /** In every run: the store is a gap-free chain that ends at the last height and has
      only grown, and neither a verified nor a missing id is in it. */
  lemma {:induction false} RunConsistent(env: Env, s: Snapshot, ops: seq<Op>, shared: seq<bool>)
    requires env.CollisionFree() && Consistent(env, s) && |shared| == |ops|
    ensures var t := Exec(env, s, ops, shared);
            && Consistent(env, t)
            && Grown(s.store, s.state.lastBlockHeight, t.store, t.state.lastBlockHeight)
  {
    if ops != [] {
      var n := |ops| - 1;
      var t := Exec(env, s, ops[..n], shared[..n]);
      RunConsistent(env, s, ops[..n], shared[..n]);
      NextConsistent(env, t, ops[n], shared[n]);
      NextGrows(env, t, ops[n], shared[n]);
      var u := Next(env, t, ops[n], shared[n]);
      GrownTwice(s.store, s.state.lastBlockHeight, t.store, t.state.lastBlockHeight, u.store, u.state.lastBlockHeight);
    }
  }

  // -------------------------------------------------- staying shown as accepted

  /** A block at or below the last accepted height that is not in consensus.  Every
      stored block is settled. */
  predicate Settled(env: Env, s: Snapshot, id: ID) {
    id !in s.verified && env.unhash(id).height <= s.state.lastBlockHeight
  }

  lemma StoredIsSettled(env: Env, s: Snapshot, id: ID)
    requires Consistent(env, s) && env.CollisionFree() && InStore(env, s.store, id)
    ensures Settled(env, s, id)
  {
  }

  /** Without its decided entry the block would not be shown as accepted. */
  predicate Exposed(env: Env, s: Snapshot, id: ID) {
    id in s.unverified || !InStore(env, s.store, id)
  }

  /** A put into the decided cache pushes out what keeps the block accepted. */
  predicate Uncovers(env: Env, s: Snapshot, id: ID, lost: Loss) {
    id in s.decided && id in lost.decided && Exposed(env, s, id)
  }

  /** The call makes the VM stop showing an accepted, settled block as accepted:
      - ParseBlock of its own bytes, marked rejected or processing, when the block is in
        no cache and the bytes are not remembered, and the put keeps the entry;
      - BlockReject of the block, when it is cached, unless the put pushes the entry out
        and nothing is uncovered;
      - any put that pushes out its decided entry and uncovers an unverified one, or
        nothing at all for a block pruned from the store;
      - BlockAccept that prunes the block while no decided entry is left. */
  predicate Forgets(env: Env, s: Snapshot, op: Op, id: ID) {
    match op
    case DoParse(bytes, lost) =>
      && Admits(env, s, bytes)
      && var d := env.decode(bytes).value;
         if env.hash(d.block) == id then
           (d.status == Rejected && id !in lost.decided) || (d.status == Processing && id !in lost.unverified)
         else Final(d.status) && Uncovers(env, s, id, lost)
    case DoGet(req, lost) =>
      && req.Some? && Shown(env, s, req.value).Some? && Final(Shown(env, s, req.value).value)
      && Uncovers(env, s, id, lost)
    case DoReject(req, lost) =>
      && req.Some? && Cached(s, req.value).Some?
      && if req.value == id then id !in lost.decided || Exposed(env, s, id) else Uncovers(env, s, id, lost)
    case DoAccept(req, applyOk, retain, lost) =>
      && Accepts(env, s, req, applyOk)
      && (id !in s.decided || id in lost.decided)
      && (id in s.unverified || !InStore(env, Prune(s.store, retain), id))
    case DoLose(lost) =>
      && id in s.decided && id in lost.decided
      && ((id in s.unverified && id !in lost.unverified) || !InStore(env, s.store, id))
    case _ => false
  }

  /** What shows a settled block as accepted. */
  lemma ShownAccepted(env: Env, s: Snapshot, id: ID)
    requires Consistent(env, s) && Settled(env, s, id)
    ensures Shown(env, s, id) == Some(Accepted) <==>
              if id in s.decided then s.decided[id] == Accepted else !Exposed(env, s, id)
  {
  }

  lemma AppendedElsewhere(env: Env, store: Store, b: Block, id: ID)
    requires b.height !in store && env.hash(b) != id
    ensures InStore(env, store[b.height := b], id) <==> InStore(env, store, id)
  {
    if InStore(env, store, id) {
      var h :| h in store && env.hash(store[h]) == id;
      assert h in store[b.height := b] && store[b.height := b][h] == store[h];
    }
  }

  lemma AcceptElsewhere(env: Env, s: Snapshot, p: ID, retain: int, id: ID)
    requires Consistent(env, s) && env.CollisionFree() && Settled(env, s, id)
    requires Cached(s, p).Some? && env.ValidateBlock(s.state, env.unhash(p))
    ensures p != id && env.unhash(p).height > s.state.lastBlockHeight
    ensures InStore(env, Prune(s.store, retain)[env.unhash(p).height := env.unhash(p)], id) <==>
            InStore(env, Prune(s.store, retain), id)
  {
    AppendedElsewhere(env, Prune(s.store, retain), env.unhash(p), id);
  }

  lemma StaysSettled(env: Env, s: Snapshot, op: Op, shared: bool, id: ID)
    requires Consistent(env, s) && env.CollisionFree() && Settled(env, s, id)
    ensures Settled(env, Next(env, s, op, shared), id)
  {
  }

  lemma ParseForgetsIff(env: Env, s: Snapshot, bytes: Bytes, lost: Loss, id: ID)
    requires Consistent(env, s) && Settled(env, s, id) && Shown(env, s, id) == Some(Accepted)
    ensures Shown(env, Parse(env, s, bytes, lost), id) == Some(Accepted) <==> !Forgets(env, s, DoParse(bytes, lost), id)
  {
    ShownAccepted(env, s, id);
  }

  lemma GetForgetsIff(env: Env, s: Snapshot, p: ID, lost: Loss, id: ID)
    requires Consistent(env, s) && Settled(env, s, id) && Shown(env, s, id) == Some(Accepted)
    ensures Shown(env, Get(env, s, p, lost), id) == Some(Accepted) <==> !Forgets(env, s, DoGet(Some(p), lost), id)
  {
    ShownAccepted(env, s, id);
  }

  lemma RejectForgetsIff(env: Env, s: Snapshot, p: ID, shared: bool, lost: Loss, id: ID)
    requires Consistent(env, s) && Settled(env, s, id) && Shown(env, s, id) == Some(Accepted) && Cached(s, p).Some?
    ensures Shown(env, Reject(s, p, shared, lost), id) == Some(Accepted) <==> !Forgets(env, s, DoReject(Some(p), lost), id)
  {
    ShownAccepted(env, s, id);
  }

  lemma AcceptForgetsIff(env: Env, s: Snapshot, p: ID, retain: int, lost: Loss, id: ID)
    requires Consistent(env, s) && env.CollisionFree() && Settled(env, s, id) && Shown(env, s, id) == Some(Accepted)
    requires Accepts(env, s, Some(p), true)
    ensures Shown(env, Accept(env, s, p, retain, lost), id) == Some(Accepted) <==>
            !Forgets(env, s, DoAccept(Some(p), true, retain, lost), id)
  {
    ShownAccepted(env, s, id);
    AcceptElsewhere(env, s, p, retain, id);
  }

  /** Building and verifying blocks never forgets a settled one. */
  lemma NewBlocksForgetNothing(env: Env, s: Snapshot, op: Op, id: ID)
    requires Consistent(env, s) && env.CollisionFree() && Settled(env, s, id) && Shown(env, s, id) == Some(Accepted)
    requires op.DoBuild? || op.DoVerify?
    ensures Shown(env, Next(env, s, op, false), id) == Some(Accepted)
  {
    ShownAccepted(env, s, id);
  }

  lemma LoseForgetsIff(env: Env, s: Snapshot, lost: Loss, id: ID)
    requires Consistent(env, s) && Settled(env, s, id) && Shown(env, s, id) == Some(Accepted)
    ensures Shown(env, Next(env, s, DoLose(lost), false), id) == Some(Accepted) <==> !Forgets(env, s, DoLose(lost), id)
  {
    ShownAccepted(env, s, id);
  }

  /** A settled block that is shown as accepted stays so through a call exactly when the
      call does not forget it. */
  lemma StaysAcceptedIff(env: Env, s: Snapshot, op: Op, shared: bool, id: ID)
    requires env.CollisionFree() && Consistent(env, s) && Settled(env, s, id) && Shown(env, s, id) == Some(Accepted)
    ensures Shown(env, Next(env, s, op, shared), id) == Some(Accepted) <==> !Forgets(env, s, op, id)
  {
    match op
    case DoParse(bytes, lost) => ParseForgetsIff(env, s, bytes, lost, id);
    case DoGet(req, lost) => if req.Some? { GetForgetsIff(env, s, req.value, lost, id); }
    case DoReject(req, lost) =>
      if req.Some? && Cached(s, req.value).Some? { RejectForgetsIff(env, s, req.value, shared, lost, id); }
    case DoAccept(req, applyOk, retain, lost) =>
      if Accepts(env, s, req, applyOk) { AcceptForgetsIff(env, s, req.value, retain, lost, id); }
    case DoLose(lost) => LoseForgetsIff(env, s, lost, id);
    case DoSetState(_) =>
    case _ => NewBlocksForgetNothing(env, s, op, id);
  }

  /** The block is shown as accepted after every prefix of the run. */
  ghost predicate AlwaysAccepted(env: Env, s: Snapshot, ops: seq<Op>, shared: seq<bool>, id: ID)
    requires |shared| == |ops|
  {
    && Shown(env, Exec(env, s, ops, shared), id) == Some(Accepted)
    && (ops == [] || AlwaysAccepted(env, s, ops[..|ops| - 1], shared[..|ops| - 1], id))
  }

  /** No call of the run forgets the block in the state in which it is made. */
  ghost predicate NeverForgotten(env: Env, s: Snapshot, ops: seq<Op>, shared: seq<bool>, id: ID)
    requires |shared| == |ops|
  {
    var n := |ops| - 1;
    || ops == []
    || (&& NeverForgotten(env, s, ops[..n], shared[..n], id)
        && !Forgets(env, Exec(env, s, ops[..n], shared[..n]), ops[n], id))
  }

  lemma {:induction false} RunStaysSettled(env: Env, s: Snapshot, ops: seq<Op>, shared: seq<bool>, id: ID)
    requires env.CollisionFree() && Consistent(env, s) && |shared| == |ops| && Settled(env, s, id)
    ensures Settled(env, Exec(env, s, ops, shared), id)
  {
    if ops != [] {
      var n := |ops| - 1;
      RunStaysSettled(env, s, ops[..n], shared[..n], id);
      RunConsistent(env, s, ops[..n], shared[..n]);
      StaysSettled(env, Exec(env, s, ops[..n], shared[..n]), ops[n], shared[n], id);
    }
  }

  /** Over every run: a settled block stays shown as accepted all along exactly when no
      call forgets it. */
  lemma {:induction false} RunStaysAcceptedIff(env: Env, s: Snapshot, ops: seq<Op>, shared: seq<bool>, id: ID)
    requires env.CollisionFree() && Consistent(env, s) && |shared| == |ops|
    requires Settled(env, s, id) && Shown(env, s, id) == Some(Accepted)
    ensures AlwaysAccepted(env, s, ops, shared, id) <==> NeverForgotten(env, s, ops, shared, id)
  {
    if ops != [] {
      var n := |ops| - 1;
      var t := Exec(env, s, ops[..n], shared[..n]);
      RunStaysAcceptedIff(env, s, ops[..n], shared[..n], id);
      RunStaysSettled(env, s, ops[..n], shared[..n], id);
      RunConsistent(env, s, ops[..n], shared[..n]);
      if Shown(env, t, id) == Some(Accepted) {
        StaysAcceptedIff(env, t, ops[n], shared[n], id);
      }
    }
  }

  /** A stored block that no unverified entry stands for. */
  predicate Plain(env: Env, s: Snapshot, id: ID) {
    id !in s.unverified && InStore(env, s.store, id)
  }

  /** The call neither rejects the block, nor parses it from bytes that call it rejected
      or processing, nor prunes it. */
  predicate Harmless(env: Env, op: Op, id: ID) {
    match op
    case DoParse(bytes, _) =>
      env.decode(bytes).Some? && env.hash(env.decode(bytes).value.block) == id ==>
        env.decode(bytes).value.status == Accepted || !Known(env.decode(bytes).value.status)
    case DoReject(req, _) => req != Some(id)
    case DoAccept(_, _, retain, _) => retain <= env.unhash(id).height
    case _ => true
  }

  lemma PruneKeeps(env: Env, st: ChainState, store: Store, retain: int, id: ID)
    requires env.CollisionFree() && Chain(env, st, store) && InStore(env, store, id) && retain <= env.unhash(id).height
    ensures InStore(env, Prune(store, retain), id)
  {
    var h :| h in store && env.hash(store[h]) == id;
    assert store[h] == env.unhash(id) && store[h].height == h;
    assert h in Prune(store, retain);
  }

  /** Whatever the caches push out, a harmless call does not forget a plain block. */
  lemma HarmlessForgetsNothing(env: Env, s: Snapshot, op: Op, id: ID)
    requires env.CollisionFree() && Consistent(env, s) && Harmless(env, op, id) && Plain(env, s, id)
    ensures !Forgets(env, s, op, id)
  {
    if op.DoAccept? {
      PruneKeeps(env, s.state, s.store, op.retain, id);
    }
  }

  /** It keeps the block plain, too. */
  lemma HarmlessKeepsPlain(env: Env, s: Snapshot, op: Op, shared: bool, id: ID)
    requires env.CollisionFree() && Consistent(env, s) && Harmless(env, op, id)
    requires Plain(env, s, id) && Shown(env, s, id) == Some(Accepted)
    ensures Plain(env, Next(env, s, op, shared), id)
  {
    StoredIsSettled(env, s, id);
    if op.DoAccept? {
      PruneKeeps(env, s.state, s.store, op.retain, id);
      if Accepts(env, s, op.req, op.applyOk) {
        AcceptElsewhere(env, s, op.req.value, op.retain, id);
      }
    } else {
      NextGrows(env, s, op, shared);
    }
  }

  /** A plain accepted block is still stored and shown as accepted after every run of
      harmless calls. */
  lemma {:induction false} HarmlessRun(env: Env, s: Snapshot, ops: seq<Op>, shared: seq<bool>, id: ID)
    requires env.CollisionFree() && Consistent(env, s) && |shared| == |ops|
    requires Plain(env, s, id) && Shown(env, s, id) == Some(Accepted)
    requires forall i :: 0 <= i < |ops| ==> Harmless(env, ops[i], id)
    ensures Plain(env, Exec(env, s, ops, shared), id) && Shown(env, Exec(env, s, ops, shared), id) == Some(Accepted)
  {
    if ops != [] {
      var n := |ops| - 1;
      var t := Exec(env, s, ops[..n], shared[..n]);
      HarmlessRun(env, s, ops[..n], shared[..n], id);
      RunConsistent(env, s, ops[..n], shared[..n]);
      StoredIsSettled(env, t, id);
      HarmlessForgetsNothing(env, t, ops[n], id);
      HarmlessKeepsPlain(env, t, ops[n], shared[n], id);
      StaysAcceptedIff(env, t, ops[n], shared[n], id);
    }
  }
}
