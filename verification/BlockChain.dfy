/** The accepted chain: blocks, the state that validation looks at, block validation and
    execution (vm/types/state/utils.go, vm/types/state/executor.go), and the answers of
    the block lifecycle. */
module BlockChain {
  import opened Options

  /** A block hash.  Taken as an abstract value, so that "no two blocks share a
      hash" can be assumed without contradiction. */
  type ID = nat
  type Bytes = seq<bv8>

  datatype Status = Processing | Rejected | Accepted | Other(code: int)

  /** Status_STATUS_UNSPECIFIED, the zero value. */
  const UNSPECIFIED := Other(0)

  predicate Known(s: Status) {
    !s.Other?
  }

  /** The statuses of decided blocks. */
  predicate Final(s: Status) {
    s == Accepted || s == Rejected
  }

  type Statuses = map<ID, Status>

  /** types.BlockID: a hash and a part-set header, or the zero value. */
  datatype BlockRef = NoBlock | BlockRef(hash: ID, parts: nat)

  datatype Block = Block(height: int, lastBlockID: BlockRef, content: nat)

  /** The part of the CometBFT state that block validation looks at; `rest` stands
      for validators, parameters and application hash. */
  datatype ChainState = ChainState(initialHeight: int, lastBlockHeight: int, lastBlockID: BlockRef, rest: nat)

  type Store = map<int, Block>

  datatype Decoded = Decoded(block: Block, status: Status)

  /** Code the VM calls and this project does not model. */
  datatype Env = Env(
    hash: Block -> ID,
    unhash: ID -> Block,                  // exists because no two blocks share a hash
    parts: Block -> nat,
    encode: (Block, Status) -> Bytes,
    decode: Bytes -> Option<Decoded>,
    checks: (ChainState, Block) -> bool,  // what ValidateBlock tests besides height and last block id
    execute: (ChainState, Block) -> nat)  // the `rest` of the state after a block
  {
    ghost predicate CollisionFree() {
      forall b :: unhash(hash(b)) == b
    }

    ghost predicate RoundTrips() {
      forall b, s :: decode(encode(b, s)) == Some(Decoded(b, s))
    }

    function Ref(b: Block): BlockRef {
      BlockRef(hash(b), parts(b))
    }

    /** vm/types/state/utils.go, ValidateBlock. */
    predicate ValidateBlock(st: ChainState, b: Block) {
      && checks(st, b)
      && (st.lastBlockHeight == 0 ==> b.height == st.initialHeight)
      && (st.lastBlockHeight > 0 ==> b.height == st.lastBlockHeight + 1)
      && b.lastBlockID == st.lastBlockID
    }

    /** vm/types/state/executor.go, updateState. */
    function NextState(st: ChainState, b: Block): ChainState {
      st.(lastBlockHeight := b.height, lastBlockID := Ref(b), rest := execute(st, b))
    }
  }

  predicate InStore(env: Env, store: Store, id: ID) {
    exists h :: h in store && env.hash(store[h]) == id
  }

  /** The accepted chain: a gap-free range of positive heights ending at the last
      block height, each block at its own height and naming its predecessor, with
      the state naming the tip. */
  ghost predicate Chain(env: Env, st: ChainState, store: Store) {
    && st.lastBlockHeight in store
    && st.lastBlockID == env.Ref(store[st.lastBlockHeight])
    && (forall h :: h in store ==> 1 <= h <= st.lastBlockHeight && store[h].height == h)
    && (forall h, g :: h in store && h <= g <= st.lastBlockHeight ==> g in store)
    && (forall h, g :: h in store && g in store && g == h + 1 ==> store[g].lastBlockID == env.Ref(store[h]))
  }

  /** blockStore.PruneBlocks as pruneBlocks uses it: a retain height inside the
      store drops everything below it, any other is ignored. */
  function Prune(store: Store, retain: int): Store {
    if retain in store then map h | h in store && retain <= h :: store[h] else store
  }

  /** now is before, with old heights possibly pruned from below and new ones added
      on top: no accepted block was ever replaced. */
  ghost predicate Grown(before: Store, lastBefore: int, now: Store, last: int) {
    && lastBefore <= last
    && (forall h :: h in now ==> if h <= lastBefore then h in before && now[h] == before[h] else h !in before)
  }

  lemma GrownTwice(a: Store, la: int, b: Store, lb: int, c: Store, lc: int)
    requires Grown(a, la, b, lb) && Grown(b, lb, c, lc) && forall h :: h in a ==> h <= la
    ensures Grown(a, la, c, lc)
  {
  }

  lemma PruneKeepsChain(env: Env, st: ChainState, store: Store, retain: int)
    requires Chain(env, st, store)
    ensures Chain(env, st, Prune(store, retain))
    ensures retain !in store ==> Prune(store, retain) == store
    ensures retain in store ==>
              && (forall h :: h in Prune(store, retain) <==> retain <= h <= st.lastBlockHeight)
              && (forall h :: retain <= h <= st.lastBlockHeight ==> h in store && Prune(store, retain)[h] == store[h])
  {
  }

  lemma AppendKeepsChain(env: Env, st: ChainState, store: Store, b: Block)
    requires Chain(env, st, store) && env.ValidateBlock(st, b)
    ensures b.height !in store
    ensures Chain(env, env.NextState(st, b), store[b.height := b])
  {
  }

  /** What BlockAccept does to the chain; before the state follows, store and state
      disagree. */
  lemma AppendPruned(env: Env, st: ChainState, store: Store, b: Block, retain: int)
    requires Chain(env, st, store) && env.ValidateBlock(st, b)
    ensures b.height == st.lastBlockHeight + 1 && b.height !in store
    ensures Chain(env, env.NextState(st, b), Prune(store, retain)[b.height := b])
    ensures !Chain(env, st, Prune(store, retain)[b.height := b])
    ensures Grown(store, st.lastBlockHeight, Prune(store, retain)[b.height := b], b.height)
    ensures forall id :: InStore(env, Prune(store, retain)[b.height := b], id) ==> InStore(env, store, id) || id == env.hash(b)
  {
    PruneKeepsChain(env, st, store, retain);
    AppendKeepsChain(env, st, Prune(store, retain), b);
  }

  /** A validated block is new to a store whose chain it extends. */
  lemma ValidatedIsNew(env: Env, st: ChainState, store: Store, b: Block)
    requires env.CollisionFree() && Chain(env, st, store) && env.ValidateBlock(st, b)
    ensures !InStore(env, store, env.hash(b))
  {
  }

  /** The tip commits to the whole chain: any sequence of blocks that starts at the
      tip and follows last block ids downwards is the stored chain itself, as far
      down as the store goes. */
  lemma {:induction false} TipCommitsToChain(env: Env, st: ChainState, store: Store, path: seq<Block>)
    requires env.CollisionFree() && Chain(env, st, store)
    requires 0 < |path| && path[0] == store[st.lastBlockHeight]
    requires forall i :: 0 < i < |path| ==> path[i - 1].lastBlockID == env.Ref(path[i])
    requires st.lastBlockHeight - (|path| - 1) in store
    ensures forall i :: 0 <= i < |path| ==>
              st.lastBlockHeight - i in store && path[i] == store[st.lastBlockHeight - i]
  {
    var n := |path| - 1;
    if n > 0 {
      var h := st.lastBlockHeight - (n - 1);
      assert h in store && h - 1 in store;
      TipCommitsToChain(env, st, store, path[..n]);
      assert path[n - 1] == path[..n][n - 1] == store[h];
      assert env.Ref(path[n]) == env.Ref(store[h - 1]);
    }
  }

  datatype Error =
    | ErrBadID | ErrNotFound | ErrDecode | ErrInvalidBlock | ErrProposal
    | ErrUnexpectedStatus | ErrUnknownState | ErrApply | ErrSave

  datatype Result<+T> = Ok(value: T) | Err(error: Error)

  /** The states of the engine's SetState request. */
  datatype Phase = PhaseUnspecified | StateSyncing | Bootstrapping | NormalOp

  datatype BlockInfo = BlockInfo(id: ID, parent: BlockRef, status: Status, height: int)

  /** notFound stands for ERROR_NOT_FOUND, with zero values otherwise. */
  datatype GetBlockResponse = GetBlockResponse(
    notFound: bool, parent: BlockRef, bytes: Bytes, status: Status, height: int)

  /** What the LRU caches push out during a call that puts into them. */
  datatype Loss = Loss(decided: set<ID>, unverified: set<ID>, missing: set<ID>, bytes: set<Bytes>)

  const NO_LOSS := Loss({}, {}, {}, {})

  ghost predicate Absent(env: Env, store: Store, ids: set<ID>) {
    forall id :: id in ids ==> !InStore(env, store, id)
  }

  ghost predicate Remembered(env: Env, m: map<Bytes, ID>) {
    forall b :: b in m ==> env.decode(b).Some? && env.hash(env.decode(b).value.block) == m[b]
  }
}
