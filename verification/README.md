# A verified model of the Landslide SDK's core

This project models, in Dafny, the parts of the Landslide SDK (a Go kit that runs
CometBFT applications as Avalanche virtual machines) whose correctness depends on
more than one function at a time, and proves what they promise over whole runs.

`dafny verify dfyconfig.toml` checks everything.

| file | what it models |
|---|---|
| `Iterator.dfy` | the RPC database iterator: a `fetch` goroutine and a consumer over unbuffered channels, as a small-step transition system |
| `Batch.dfy` | the write batch and the request it turns into |
| `BlockChain.dfy` | blocks, the accepted chain, validation and pruning, and the environment of the VM |
| `BlockLifecycle.dfy` | `LandslideVM`: build, parse, get, verify, accept and reject blocks over lossy caches and a block store, and the accepted-block oracle |
| `BlockSteps.dfy` | the same calls as steps of a snapshot of the VM, and theorems about every run of them |
| `BlockRuns.dfy` | that the methods of `LandslideVM` make those steps, and what a caller can and cannot rely on |
| `LinkedList.dfy`, `AssocList.dfy`, `LinkedHashmap.dfy`, `LinkedHashmapRuns.dfy` | the linked hash map and its iterator, down to list nodes and their links |
| `LRU.dfy`, `SizedLRU.dfy`, `EvictableLRU.dfy` | the three caches built on it |
| `Bits.dfy`, `Bloom.dfy`, `IdBits.dfy` | the bloom filter with its wire format, and bit ranges of ids |
| `Averager.dfy`, `BiMap.dfy`, `Paging.dfy` | the continuous averager, the bidirectional map, RPC pagination |
| `Options.dfy` | `Option` |

**Forms.** Objects the source updates in place are classes with `modifies` clauses,
proved against functions on their abstract value; loops are loops. The iterator is a
transition system because its subject is the interleaving of two threads: each
`Action` is one step of one thread, or one rendezvous. The environment is a
parameter: what an RPC answers, when another thread closes the database, what the
mempool proposes, whether the application executes a block, which retain height it
asks for, whether a save succeeds, the hash seeds, the exponential function, and the
order in which results arrive.

**What the block lifecycle assumes.** `Env` holds the code the VM calls and this model
does not contain: hashing, part sets, block encoding and execution. No two blocks
share a hash (`CollisionFree`, asked for only where it is needed), decoding is a
function, and `ValidateBlock` tests height and last block id as
`vm/types/state/utils.go` does, next to other checks that stay abstract. The LRU caches
are lossy in two ways. Every call that puts into one takes a `Loss`, chosen by the
environment: what the put pushes out, which may be the very entry that is put.
`SizedLRU.PutIsKeptIff` says when that happens (an entry larger than the cache empties
it) and `SizedLRU.InsertIsLossy` that the cache does no worse. And entries may vanish
between calls (`LoseEntries`). Cache entries are heap objects, since `BlockReject` marks
one that two caches may share; in a snapshot, where an id stands for its block, that
shows as one bit of each rejection, on which the theorems do not depend.

**Where the code does not do what one might expect.** In each case the code is modelled
as it is, and a member states exactly when the expectation holds.

- `Next` of the iterator shifts the batch it holds and then overwrites it with a new
  one, so all but the first entry of a batch are lost: `AllEntriesSeenIff`.
- `ParseBlock` refuses bytes it has already accepted once the block is gone from every
  block cache while its bytes are still remembered: the exact condition is in
  `ParseBlock`. Even bytes that `GetBlock` has just handed out parse back if and only if
  `GetBlock` left the block in a cache or the bytes were not remembered:
  `GetThenParse`. `ReparseCanFail` and `SecondParseFails` are instances; the second is a
  stored block larger than its cache, which can be got and parsed once only.
- An accepted status is not permanent. `StaysAcceptedIff` says for every call exactly
  when an accepted block stays shown as accepted, `RunStaysAcceptedIff` for every run,
  and `HarmlessRun` gives a condition on the calls alone. Parsing the block from other
  bytes (`ReparseForgetsAcceptance`) and rejecting it (`RejectForgetsAcceptance`) are
  instances of the contrary. The oracle is not misled, but answers with the status the
  block is shown under.
- A failed `stateStore.Save` in `BlockAccept` leaves the store one block ahead of the
  state; nothing else does: `CommitBlock`, `BlockAccept`. In `Initialize` it leaves a
  block that no state knows.
- On a fresh chain `Initialize` proposes a block of height 1 whatever the configured
  initial height is, so it succeeds only if that is 1: `Initialize`.
- `put` of the LRU cache drops the oldest entry of a full cache even when the key is
  already present: `PutDropsAnotherIff`.
- `put` of the sized LRU cache can subtract an old entry's size twice. Exact accounting
  survives a put if and only if the put does not evict its own key: `InsertExactIff`.
  Over a run the shortfall is exactly the sum of what was subtracted twice: `RunLags`,
  `RunExactIff`. `DriftOverfills` gives a cache of maximum 10 that then holds 11, and
  `OverfillIsUnbounded` runs that overfill a cache by any amount.
- `EqualSubset` and `FirstDifferenceSubset` disagree on non-empty ranges that reach
  beyond bit 256, and only there: `CompareBoth`. A negative start, which neither refuses,
  makes both skip the whole first byte, and panic from -8 down: `EqualSubsetIff`,
  `EqualSubsetPanicsIff`, `FirstDifferenceSubset`.
- A marshalled bloom filter parses back to itself if and only if it has 1 to 16 seeds
  and an entry byte: `MarshalThenParse`.
- `GetAcceptedBlock` is documented to return only accepted blocks. It does, but the
  status inside the answer is the one the block is shown under: `GetAcceptedBlock`.

Nothing here was executed; every statement is a proof about the model.

## Model

| member | source | states |
|---|---|---|
| `DatabaseIterator.StepKeepsInv` | database/iterator.go:40-170 | every enabled step of either thread, every rendezvous and a concurrent `Database.Close` keep the joint invariant on requests, replies, channels, delivery, exposure, calls, results and errors |
| `DatabaseIterator.RunKeepsInv` | database/iterator.go:40-170 | so does every run, under every interleaving |
| `DatabaseIterator.ReachableInv` | database/iterator.go:36-170 | the invariant holds in every state reachable from a new iterator |
| `DatabaseIterator.StepKeepsErr` | database/iterator.go:90-112 | as long as `err` is nil the only answered RPC error is one about to be recorded; afterwards `err` is the first one or `ErrClosed` |
| `DatabaseIterator.StepKeepsResults` | database/iterator.go:149-170 | once `Error` or `Close` has returned an error, all later results are that error (when nil may be returned: `ErrorAsksTheServer`) |
| `DatabaseIterator.LoopKeepsExposure` | database/iterator.go:55-80 | the goroutine's own steps never change what the consumer sees |
| `DatabaseIterator.RequestsAreSequential` | database/iterator.go:36-81 | in every reachable state no request follows a Release, and at most one is outstanding; a `Close` that has returned means the Release was answered and both channels are closed; non-nil results never change |
| `DatabaseIterator.CallsAreAnswered` | database/iterator.go:122-170 | outside every call, each `Next` begun has left something exposed, each `Close` begun has returned, and each `Error` and `Close` begun has given one result |
| `DatabaseIterator.RepliesAreKept` | database/iterator.go:55-112 | the i-th reply answers the i-th request; the batches served are exactly those answered with entries, in order, and the errors noted exactly those answered |
| `DatabaseIterator.NotedAreInReplies` | database/iterator.go:55-112 | the same of any replies, without saying how it is collected |
| `DatabaseIterator.StepKeepsReplies` | database/iterator.go:40-112 | every step keeps the log of replies in line with the requests and with what the goroutine awaits or is about to record |
| `DatabaseIterator.StepKeepsCalls` | database/iterator.go:122-170 | every step keeps the calls begun in line with the results given |
| `DatabaseIterator.NilMeansNoError` | database/iterator.go:90-112 | as long as `err` is nil no reply carried an error, except perhaps the last while the goroutine is about to record it |
| `DatabaseIterator.ErrorAsksTheServer` | database/iterator.go:149-161 | in every run from the start of `Error` to its return, the result is the error known at the return; it is nil only if the goroutine is gone or an IteratorError sent during this call was answered with none, and then no IteratorError was ever answered with one |
| `DatabaseIterator.RunKeepsAsking` | database/iterator.go:149-161 | how far a call of `Error` has got, at every point of every run inside it |
| `DatabaseIterator.KnownErrorIsGivenAtOnce` | database/iterator.go:150-152 | an error that is known already is returned at once and nothing is sent |
| `DatabaseIterator.ChannelsCloseOnce` | database/iterator.go:51-53 | no step closes a channel that is already closed (`onUpdated`, `fetchedData`, `onClosed`, `onClose`) |
| `DatabaseIterator.ErrorsAreReported` | database/iterator.go:90-126 | `err` is nil if and only if every answered RPC error and every `Next` that found the database closed is still about to be recorded; otherwise it is the first RPC error, or `ErrClosed` after such a `Next` |
| `DatabaseIterator.ClosedDatabaseIsReported` | database/iterator.go:122-126 | a `Next` that starts on a closed database has left an error by the time it gets past its check, in every run |
| `DatabaseIterator.ClosedForGood` | database/database.go:29-32 | a database closed by any thread stays closed for the rest of every run |
| `DatabaseIterator.ErrNeverChanges` | database/iterator.go:90-101 | `err` once set keeps its value for the rest of every run |
| `DatabaseIterator.QuietAfterClose` | database/iterator.go:164-170 | after a `Close` has returned no request is sent and no batch delivered in any continuation, repeated `Close` included |
| `DatabaseIterator.HeadsOfConcat` | database/iterator.go:135-147 | what `Key` and `Value` show of two successive series of batches is what they show of each, in order |
| `DatabaseIterator.HeadsAt` | database/iterator.go:135-147 | of batches that all have entries, the i-th entry shown is the first of the i-th batch |
| `DatabaseIterator.ExposedHeads` | database/iterator.go:122-147 | the entries shown after successive `Next` calls are the heads of the delivered batches |
| `DatabaseIterator.DeliveryInOrder` | database/iterator.go:55-80 | delivered batches are a prefix of the served non-empty batches with at most one left behind, and all of them, with the server exhausted, when the channel closes with no error and no `Close`; the entries shown are their heads |
| `DatabaseIterator.FlattenIsLong` | database/iterator.go:127-132 | non-empty batches hold at least as many entries as heads, and equally many only if all are singletons |
| `DatabaseIterator.AllEntriesSeenIff` | database/iterator.go:122-133 | the consumer sees every delivered entry if and only if every delivered batch has exactly one |
| `DatabaseIterator.CallNeverStuck` | database/iterator.go:122-170 | while the consumer is inside `Next`, `Error` or `Close`, some step of the two threads is enabled |
| `DatabaseIterator.FetchDescends` | database/iterator.go:40-81 | each step the goroutine takes alone lowers its rank, which reaches 0 only when it has exited |
| `DatabaseIterator.CallAdvances` | database/iterator.go:40-170 | every step of the two threads inside a call lowers a common measure |
| `DatabaseIterator.BusyRunIsBounded` | database/iterator.go:40-170 | a run inside one call takes no more steps than the measure allows |
| `DatabaseIterator.EveryCallReturns` | database/iterator.go:122-170 | from every reachable state, under every interleaving, a call of `Next`, `Error` or `Close` is over after at most 116 steps of the two threads, and until then one of them can move |
| `DatabaseBatch.Batch.Set` | database/batch.go:29-36 | appends the operation; replaying the log now also binds the key; `size` grows by the bytes of key and value |
| `DatabaseBatch.Batch.Delete` | database/batch.go:38-45 | appends the operation; replaying the log now also removes the key; `size` grows by the bytes of the key |
| `DatabaseBatch.CaptureStep` | database/batch.go:50-68 | one step of the backward scan: an operation adds its change to the request exactly when its key does not occur later |
| `DatabaseBatch.ScanNew` | database/batch.go:50-68 | a key seen for the first time joins the key set, and its change the puts or the deletes, keeping the scan's invariant |
| `DatabaseBatch.Batch.BuildRequest` | database/batch.go:47-68 | the backward scan collects exactly the last change of every key of the log, sorted into puts and deletes |
| `DatabaseBatch.ReplayEffect` | database/batch.go:29-45 | replaying a log leaves each key as its last operation says |
| `DatabaseBatch.DistinctEffect` | database/batch.go:47-68 | changes with distinct keys leave each key as its one change says, wherever it stands |
| `DatabaseBatch.LastChangeKey` | database/batch.go:50-68 | the last change of a key is a change of that key |
| `DatabaseBatch.CapturedKeysDistinct` | database/batch.go:50-68 | a request that holds the last changes has no key twice |
| `DatabaseBatch.AnyOrderRefinesReplay` | database/batch.go:47-68 | the items of the request, in any order and on any store, do what replaying the log first to last does |
| `DatabaseBatch.WriteIsIdempotent` | database/batch.go:47-68 | writing the same batch twice, in any two orders, is writing it once |
| `DatabaseBatch.Batch.Write` | database/batch.go:47-75 | the request has pairwise distinct keys, and applied in any order to any store it equals the replay of the log; no error if and only if the server answers with none, else the transport's or the server's |
| `BlockChain.PruneKeepsChain` | vm/types/state/executor.go:763-779 | pruning below a retain height leaves a gap-free chain that ends at the same tip: with a retain height inside the store exactly the blocks from there to the last height, unchanged, and with any other all of them |
| `BlockChain.AppendKeepsChain` | vm/vm.go:1093-1106 | a validated block goes to a height that is free, and the store with it is the chain of the next state |
| `BlockChain.AppendPruned` | vm/vm.go:1093-1106 | the same with pruning; no stored block is replaced, only the new hash is added, and until the state follows store and state disagree |
| `BlockChain.ValidatedIsNew` | vm/types/state/utils.go:68-191 | a block that passes validation is not in the accepted store |
| `BlockChain.TipCommitsToChain` | vm/types/state/utils.go:68-191 | any path of last block ids that starts at the tip is the stored chain, as far down as the store goes |
| `BlockLifecycle.LandslideVM.constructor` | vm/types/state/wrapped_block.go:51-68 | a VM over a persisted chain with empty caches satisfies the lifecycle invariant |
| `BlockLifecycle.LandslideVM.Initialize` | vm/vm.go:437-482 | on an existing chain it serves that chain; on a fresh one it succeeds exactly when the proposal, the application and the save do, the initial height is 1 and the other checks pass, and then store and state are those of that one block; the VM it yields is valid and its answer describes the tip; a failed save, and no other failure, leaves the block in the store |
| `BlockLifecycle.LandslideVM.LoseEntries` | vm/types/state/wrapped_block.go:51-68 | any entries of the LRU caches may vanish; the invariant, the store, the state and the verified map stay |
| `BlockLifecycle.LandslideVM.SetState` | vm/vm.go:578-605 | it succeeds exactly for bootstrapping and normal operation, never with not-found, answers with the block the state names, and sets both flags; a refused request changes nothing |
| `BlockLifecycle.LandslideVM.BuildBlock` | vm/vm.go:681-746 | a proposed block extends the tip and is put, processing, into the unverified cache under its own hash, less what the put pushes out; it is no longer missing; nothing else changes |
| `BlockLifecycle.LandslideVM.CacheByStatus` | vm/vm.go:783-791 | decided statuses are put into the decided cache, processing ones into the unverified cache, less what the put pushes out; any other is refused; the invariant is kept |
| `BlockLifecycle.LandslideVM.IdentifyBytes` | vm/vm.go:759-775 | the id found for the bytes, remembered or computed, is the hash of the decoded block; a computed one is remembered, less what the put pushes out |
| `BlockLifecycle.LandslideVM.CacheParsed` | vm/vm.go:777-797 | a cached block wins over the decoded one and changes nothing; a decoded one of known status is put into the cache of that status, less what the put pushes out, and stops being missing |
| `BlockLifecycle.LandslideVM.ParseBlock` | vm/vm.go:749-807 | it succeeds if and only if the bytes decode and the block is cached, or was not remembered and has a known status; id, parent and height are those of the uncached decode in every case; the errors, and the whole new state of the caches |
| `BlockLifecycle.LandslideVM.LoadBlockByHash` | vm/vm.go:831-837 | finds a stored block with the hash if and only if there is one |
| `BlockLifecycle.LandslideVM.LoadUncached` | vm/vm.go:822-842 | a block in no cache is found if and only if it is stored, whether or not its id was remembered as missing, and is accepted; a miss is remembered, less what the put pushes out |
| `BlockLifecycle.LandslideVM.GetBlock` | vm/vm.go:810-871 | the answer is not-found if and only if the id is in no cache and no stored block has the hash; otherwise it carries that block with its parent, height and encoding, under the status of the verified, else the decided, else the unverified entry, else as accepted, and the block is put again into the cache of that status; the missing cache never hides a stored block; the errors, and the whole new state of the caches |
| `BlockLifecycle.LandslideVM.GetBlockIDAtHeight` | vm/vm.go:985-994 | on a chain there is an id if and only if the height lies between the lowest stored and the last one, at the last height it is the one the state names, and no other height has it |
| `BlockLifecycle.LandslideVM.BlockVerify` | vm/vm.go:1023-1052 | exactly the decodable blocks that extend the tip and pass the other checks move to the verified map with their decoded status, where every lookup now finds them, and leave the unverified cache; an error changes nothing |
| `BlockLifecycle.LandslideVM.CommitBlock` | vm/vm.go:1093-1106 | apply, store, save: it gets past applying exactly if the application agrees, the block extends the tip and passes the other checks; the new state names the block, its height and what executing it yields; the error tells which step failed, the state advances only if all succeeded, and store and state agree unless the save failed |
| `BlockLifecycle.LandslideVM.SettleAccepted` | vm/vm.go:1108-1114 | the accepted block leaves the verified, missing and unverified caches, is put into the decided one as accepted, less what the put pushes out, and the invariant is restored |
| `BlockLifecycle.LandslideVM.AcceptCached` | vm/vm.go:1081-1117 | committing and then settling a block that was found in a cache |
| `BlockLifecycle.LandslideVM.BlockAccept` | vm/vm.go:1056-1117 | the errors for a malformed id and for a block in no cache; the store only grows by the cached block one above the last height, nothing is overwritten, the invariant is kept unless the save failed, and then store and state do disagree; all error cases and what they leave unchanged |
| `BlockLifecycle.LandslideVM.BlockReject` | vm/vm.go:1119-1137 | the errors for a malformed id and for a block in no cache; the entry that a lookup finds first is itself marked rejected, leaves the verified map and is put into the decided cache, less what the put pushes out; no other entry changes status; the invariant is kept |
| `BlockLifecycle.GetAcceptedBlock` | warp/block_client.go:29-46 | it succeeds if and only if some block in the accepted store has the hash, never with a not-found answer, and answers with the height, parent and encoding of that block under the status it was shown under: its cache entry's, or accepted |
| `BlockSteps.NextConsistent` | vm/vm.go:578-1137 | every call keeps the snapshot consistent: a gap-free chain that ends at the last height, only decided blocks in the decided cache, no accepted one in the unverified cache, no verified or missing id in the store, remembered ids that are the hashes of their bytes |
| `BlockSteps.NextGrows` | vm/vm.go:578-1137 | every call but `BlockAccept` leaves store and state alone, and that one only adds a block on top or prunes below |
| `BlockSteps.AcceptConsistent` | vm/vm.go:1056-1117 | accepting a cached valid block, with pruning, keeps consistency and lets the chain grow by one |
| `BlockSteps.RejectConsistent` | vm/vm.go:1119-1137 | rejecting keeps consistency, whether or not the marked entry is shared |
| `BlockSteps.RunConsistent` | vm/vm.go:578-1137 | so does every run of calls and cache losses, from any consistent snapshot, and the chain has only grown |
| `BlockSteps.ShownAccepted` | vm/vm.go:822-846 | a block that is not in consensus is shown as accepted if and only if its decided entry says so, or it has neither a decided nor an unverified entry and is stored |
| `BlockSteps.StoredIsSettled` | vm/types/state/utils.go:68-191 | every stored block is at or below the last height and not in consensus |
| `BlockSteps.StaysSettled` | vm/vm.go:578-1137 | and no call brings such a block back into consensus |
| `BlockSteps.ParseForgetsIff` | vm/vm.go:749-807 | when parsing makes an accepted block be shown otherwise |
| `BlockSteps.GetForgetsIff` | vm/vm.go:810-871 | when getting a block does |
| `BlockSteps.RejectForgetsIff` | vm/vm.go:1119-1137 | when rejecting a block does |
| `BlockSteps.AcceptForgetsIff` | vm/vm.go:1056-1117 | when accepting another block does, by pruning or by what the put pushes out |
| `BlockSteps.StaysAcceptedIff` | vm/vm.go:578-1137 | for every call: a settled block shown as accepted stays so if and only if the call is none of these: a parse of its unremembered bytes, marked rejected or processing, while it is uncached and that the cache keeps; a reject while it is cached; a put that pushes out its decided entry and uncovers an unverified one, or nothing stored; an accept that prunes it while no decided entry is left |
| `BlockSteps.RunStaysAcceptedIff` | vm/vm.go:578-1137 | for every run: it is shown as accepted all along if and only if no call of the run is one of these in the state in which it is made |
| `BlockSteps.HarmlessForgetsNothing` | vm/vm.go:578-1137 | calls that do not reject the block, parse it under another status or prune it never do that to a stored block without an unverified entry, whatever the caches push out |
| `BlockSteps.HarmlessRun` | vm/vm.go:578-1137 | after every run of such calls the block is still stored and shown as accepted |
| `BlockRuns.GetFound` | vm/vm.go:810-871 | `GetBlock` finds exactly the blocks shown under a known status; what it hands out decodes to the block asked for; whether, and with which status, the block is in a cache afterwards |
| `BlockRuns.GetThenParse` | vm/vm.go:749-871 | the bytes `GetBlock` hands out, for exactly the blocks shown under a known status, parse back if and only if `GetBlock` left the block in a cache or the bytes were not remembered; then to the id asked for, with the same parent and height, and the same status unless an entry was uncovered |
| `BlockRuns.ParseUnkept` | vm/vm.go:749-871 | a stored block that the decided cache does not keep parses from what `GetBlock` hands out if and only if its bytes were not remembered |
| `BlockRuns.SecondParseFails` | utils/cache/lru_sized_cache.go:73-78 | a stored block that the decided cache never keeps can be got and parsed once, if its bytes are not remembered, and is refused the second time |
| `BlockRuns.ReparseCanFail` | vm/vm.go:759-791 | bytes just accepted are refused when their block is lost and the bytes are still remembered |
| `BlockRuns.ReparseForgetsAcceptance` | vm/vm.go:777-797 | after the caches lose an accepted block, parsing it from bytes marked processing makes `GetBlock` and the oracle's answer show it as processing, while the oracle still succeeds |
| `BlockRuns.RejectForgetsAcceptance` | vm/vm.go:1119-1137 | a block just accepted can be rejected; it is then shown as rejected while it is in the store |
| `BlockRuns.SnapPictures` | vm/vm.go:578-1137 | every valid VM has exactly one snapshot |
| `BlockRuns.ShownAlike` | vm/types/state/wrapped_block.go:80-94 | a snapshot shows of every id what the VM does |
| `BlockRuns.StepParse` | vm/vm.go:749-807 | `ParseBlock` makes the step that the theorems speak of |
| `BlockRuns.StepBuild` | vm/vm.go:681-746 | so does `BuildBlock` |
| `BlockRuns.StepGet` | vm/vm.go:810-871 | so does `GetBlock` |
| `BlockRuns.StepVerify` | vm/vm.go:1023-1052 | so does `BlockVerify` |
| `BlockRuns.StepAccept` | vm/vm.go:1056-1117 | so does `BlockAccept`, when the state can be saved |
| `BlockRuns.StepReject` | vm/vm.go:1119-1137 | so does `BlockReject`, through the pointer that caches may share |
| `BlockRuns.PerformOther` | vm/vm.go:578-871 | so does every call that leaves the chain alone and marks no entry |
| `BlockRuns.Perform` | vm/vm.go:578-1137 | so does every call and cache loss |
| `BlockRuns.RunCalls` | vm/vm.go:578-1137 | every run of calls on the VM, from any valid state, makes exactly the steps of that run and ends in a valid state |
| `BlockRuns.RunThenAsk` | warp/block_client.go:29-46 | after every run of lifecycle calls and cache losses with successful saves, the chain has only grown and the oracle answers exactly for the hashes of the blocks in the store that the run leads to |
| `LinkedList.List.PushBack` | utils/linkedhashmap/linkedhashmap.go:99-102 | a new node is linked behind the last one |
| `LinkedList.List.Remove` | utils/linkedhashmap/linkedhashmap.go:114-121 | the node is unlinked, all others keep their order |
| `LinkedList.List.MoveToBack` | utils/linkedhashmap/linkedhashmap.go:91-97 | the node becomes the last, all others keep their order |
| `LinkedHashmap.Hashmap.constructor` | utils/linkedhashmap/linkedhashmap.go:42-47 | a new map is empty |
| `LinkedHashmap.Hashmap.ContentsUnique` | utils/linkedhashmap/linkedhashmap.go:91-121 | the list holds each key once, and exactly the keys of the map |
| `LinkedHashmap.Hashmap.Rebind` | utils/linkedhashmap/linkedhashmap.go:91-97 | putting a present key moves its own node to the back and overwrites it |
| `LinkedHashmap.Hashmap.Insert` | utils/linkedhashmap/linkedhashmap.go:99-103 | putting a new key adds a node at the back |
| `LinkedHashmap.Hashmap.Put` | utils/linkedhashmap/linkedhashmap.go:91-104 | the key is bound to the value and newest, all other pairs keep their order; map and list stay in step |
| `LinkedHashmap.Hashmap.Get` | utils/linkedhashmap/linkedhashmap.go:106-112 | the value bound to the key in the abstract sequence, or none |
| `LinkedHashmap.Hashmap.Delete` | utils/linkedhashmap/linkedhashmap.go:114-121 | the pair leaves, the others keep their order, and the result says whether it was there |
| `LinkedHashmap.Hashmap.Oldest` | utils/linkedhashmap/linkedhashmap.go:127-133 | the first pair of the sequence, or none |
| `LinkedHashmap.Hashmap.Newest` | utils/linkedhashmap/linkedhashmap.go:135-141 | the last pair of the sequence, or none |
| `LinkedHashmap.Hashmap.Len` | utils/linkedhashmap/linkedhashmap.go:123-125 | the size of the map is the length of the sequence |
| `LinkedHashmap.Hashmap.Locate` | utils/linkedhashmap/iterator.go:56-65 | following a node's next link leads from a pair to the one after it, and to nothing from the newest |
| `LinkedHashmap.Iter.constructor` | utils/linkedhashmap/linkedhashmap.go:143-145 | a new iterator has everything ahead of it |
| `LinkedHashmap.Iter.Next` | utils/linkedhashmap/iterator.go:30-65 | it yields the first of the remaining pairs and keeps the rest, or reports the end and stays there |
| `LinkedHashmap.Iter.DeleteVisited` | utils/linkedhashmap/iterator.go:30-65 | deleting a key that is no longer ahead leaves what remains as it was |
| `LinkedHashmapRuns.ReplayBindings` | utils/linkedhashmap/linkedhashmap.go:91-121 | after any operations a key is bound to the value of its last put, unless deleted since |
| `LinkedHashmapRuns.ReplayOrder` | utils/linkedhashmap/linkedhashmap.go:91-141 | the pairs are unique and sorted by the time of the last operation on their key |
| `LinkedHashmapRuns.OthersStayOrdered` | utils/linkedhashmap/linkedhashmap.go:114-121 | taking a key out keeps the others in that order |
| `LinkedHashmapRuns.RunOps` | utils/linkedhashmap/linkedhashmap.go:42-141 | the class after any sequence of operations: exactly the keys last put, with their last values, in the order of those puts |
| `LinkedHashmap.Iter.RemainingUnique` | utils/linkedhashmap/iterator.go:12-20 | no key is ahead of an iterator twice |
| `LinkedHashmapRuns.WalkedNext` | utils/linkedhashmap/iterator.go:30-65 | one step of a walk: a call of `Next` moves the first remaining pair to those seen, a deletion of a seen key only takes it out of the map |
| `LinkedHashmapRuns.LeftFinds` | utils/linkedhashmap/iterator.go:30-65 | a walk leaves every key bound as it was, except the keys that some step deletes after a `Next` has yielded them |
| `LinkedHashmapRuns.Walk` | utils/linkedhashmap/iterator.go:30-65 | under any interleaving of `Next` with deletions of visited keys, the pairs seen are as many of those ahead at the start as there were calls of `Next`, oldest first, all of them if there were enough; the others remain, and the map has lost exactly the keys deleted once they had been seen |
| `LRU.Shrink` | utils/cache/lru_cache.go:117-120 | the loop leaves exactly the newest pairs that fit |
| `LRU.LRU.constructor` | utils/cache/lru_cache.go:15-20 | a new cache is empty, with the given Size and no element map |
| `LRU.LRU.Resize` | utils/cache/lru_cache.go:110-121 | a nil element map becomes empty, a size that is not positive becomes 1 and any other stays, and the newest pairs that fit stay, in order |
| `LRU.PutKept` | utils/cache/lru_cache.go:64-72 | a put after the resize: a full cache drops its oldest pair, then the key is bound and newest |
| `LRU.LRU.Put` | utils/cache/lru_cache.go:64-72 | the same after the resize, with Size made positive; the pair put is the newest |
| `LRU.LRU.Get` | utils/cache/lru_cache.go:74-83 | the value among the pairs that fit; a hit becomes the newest pair |
| `LRU.LRU.Evict` | utils/cache/lru_cache.go:85-89 | the key leaves, after the resize, and is not found any more |
| `LRU.LRU.Flush` | utils/cache/lru_cache.go:91-93 | the cache is empty |
| `LRU.InsertKeepsSuffix` | utils/cache/lru_cache.go:64-72 | a put keeps the cache a suffix of the unbounded recency list and within its size, also when it drops an extra entry |
| `LRU.TouchKeepsSuffix` | utils/cache/lru_cache.go:74-83 | so does a hit |
| `LRU.StepKeepsSuffix` | utils/cache/lru_cache.go:64-121 | so does every operation, whatever Size was set to |
| `LRU.CacheIsSuffix` | utils/cache/lru_cache.go:64-121 | in every run the cache is a suffix of the recency list of puts, hits and evictions since the last flush, and within its size after every put, get and evict |
| `LRU.StepBinds` | utils/cache/lru_cache.go:64-93 | only a put or an evict of a key, or a flush, changes what the recency list says of it |
| `LRU.LogIsLatest` | utils/cache/lru_cache.go:64-93 | in every run that is the value of the last put, unless evicted or flushed since |
| `LRU.CacheIsFresh` | utils/cache/lru_cache.go:74-83 | in every run a cached value is the value of the key's last put, which was not evicted or flushed since |
| `LRU.PutDropsAnotherIff` | utils/cache/lru_cache.go:64-72 | putting a present key costs another entry its place if and only if the cache is full and the key is not the oldest |
| `LRU.PutKeepsIff` | utils/cache/lru_cache.go:64-72 | a put keeps every other pair, with its value, except exactly the oldest of a full cache |
| `LRU.Perform` | utils/cache/lru_cache.go:64-121 | each call on the class is one step of the run |
| `LRU.RunCache` | utils/cache/lru_cache.go:64-121 | the class after any operations holds what the run says |
| `SizedLRU.TotalWithout` | utils/cache/lru_sized_cache.go:105-110 | removing a key takes exactly its size out of the total |
| `SizedLRU.DropsPast` | utils/cache/lru_sized_cache.go:84-89 | the eviction loop goes past a pair exactly when the recorded size is still too large before it |
| `SizedLRU.DropsSuffice` | utils/cache/lru_sized_cache.go:84-89 | the loop ends because the recorded size fits, not because the list ran out |
| `SizedLRU.TrimStep` | utils/cache/lru_sized_cache.go:84-89 | whenever the loop goes on the list is not empty, and dropping its oldest pair leads to the same end |
| `SizedLRU.InsertSound` | utils/cache/lru_sized_cache.go:73-93 | a put keeps the recorded size at or below the true total, and within the maximum if the entry fits at all |
| `SizedLRU.InsertTotals` | utils/cache/lru_sized_cache.go:73-93 | how a put moves the recorded and the true size, according to whether the loop evicted the key itself |
| `SizedLRU.TrimTotals` | utils/cache/lru_sized_cache.go:84-89 | the eviction loop takes the same out of the recorded and of the true size |
| `SizedLRU.KeyIsEvictedIff` | utils/cache/lru_sized_cache.go:84-89 | the loop evicts the key being put if and only if the recorded size, with everything older than the key gone, is still too large |
| `SizedLRU.InsertExactIff` | utils/cache/lru_sized_cache.go:73-93 | exact accounting survives a put if and only if the key is absent, has size 0, or the newer pairs leave room (or the entry exceeds the maximum by itself); otherwise the recorded size falls short by exactly the old entry's size |
| `SizedLRU.ShrinkingPutIsExact` | utils/cache/lru_sized_cache.go:73-93 | a put that does not grow a present key keeps exact accounting |
| `SizedLRU.DriftOverfills` | utils/cache/lru_sized_cache.go:73-93 | a concrete cache of maximum 10 that a growing put leaves holding 11 while it records 7 |
| `SizedLRU.StepSound` | utils/cache/lru_sized_cache.go:73-115 | every operation keeps the recorded size at or below the true total |
| `SizedLRU.RunSound` | utils/cache/lru_sized_cache.go:73-115 | so in every run, with non-negative sizes |
| `SizedLRU.RunExact` | utils/cache/lru_sized_cache.go:73-115 | in every run without a put that evicts its own key, the recorded size is the true total and at most the maximum |
| `SizedLRU.InsertSlips` | utils/cache/lru_sized_cache.go:73-93 | from any state, exact or not, a put widens the gap between true and recorded size by exactly the old size of its key if the loop evicts that key, and else not at all |
| `SizedLRU.RunLags` | utils/cache/lru_sized_cache.go:73-115 | in every run the recorded size is within the maximum and falls short of the true total by exactly what the puts since the last flush subtracted twice |
| `SizedLRU.RunExactIff` | utils/cache/lru_sized_cache.go:73-115 | a run leaves the accounting exact if and only if that is 0 |
| `SizedLRU.GainOne` | utils/cache/lru_sized_cache.go:73-93 | growing the oldest entry of a full cache and shrinking it again makes room for one more |
| `SizedLRU.OverfillIsUnbounded` | utils/cache/lru_sized_cache.go:73-93 | for every n some run of puts leaves a cache of maximum 2 holding n more than that |
| `SizedLRU.NeverGrowsIsSteady` | utils/cache/lru_sized_cache.go:73-93 | runs that never grow a present key are such runs |
| `SizedLRU.InsertIsLossy` | utils/cache/lru_sized_cache.go:73-93 | after a put a key is bound as the put says, as before, or not at all |
| `SizedLRU.PutIsKeptIff` | utils/cache/lru_sized_cache.go:73-93 | the put key is bound, as the newest pair, if and only if its entry is not larger than the maximum; if it is, nothing is kept and nothing recorded |
| `SizedLRU.PutKeepsIff` | utils/cache/lru_sized_cache.go:73-93 | a put keeps another pair if and only if the recorded size, without the key's old entry and without everything older than the pair, leaves room for the new entry |
| `SizedLRU.InsertKeepsSuffix` | utils/cache/lru_sized_cache.go:73-93 | a put keeps the cache a suffix of the recency list |
| `SizedLRU.CacheIsSuffix` | utils/cache/lru_sized_cache.go:73-115 | in every run the cache is a suffix of the recency list of puts, hits and evictions since the last flush |
| `SizedLRU.StepFresh` | utils/cache/lru_sized_cache.go:73-115 | what is bound after an operation was put by it or was bound before, and was not evicted or flushed by it |
| `SizedLRU.CacheIsFresh` | utils/cache/lru_sized_cache.go:95-103 | in every run a cached value is the value of the key's last put, which was not evicted or flushed since |
| `SizedLRU.RemoveEvicts` | utils/cache/lru_sized_cache.go:105-110 | an eviction takes the key out, leaves every other key bound as it was and in its order, and takes exactly the size of the value that left out of the recorded size |
| `SizedLRU.MakeRoom` | utils/cache/lru_sized_cache.go:84-89 | the loop terminates, always finds a pair to drop, and ends where the specification says |
| `SizedLRU.Uncharge` | utils/cache/lru_sized_cache.go:80-82 | the size of the value being replaced is taken out, and nothing for a new key |
| `SizedLRU.FitIn` | utils/cache/lru_sized_cache.go:80-89 | the first half of a put arrives where the specification says |
| `SizedLRU.Store` | utils/cache/lru_sized_cache.go:80-93 | putting an entry that fits: old size out, room made, entry stored, size added |
| `SizedLRU.Replace` | utils/cache/lru_sized_cache.go:80-93 | its steps: old size out and room made, then entry stored and size added |
| `SizedLRU.Expel` | utils/cache/lru_sized_cache.go:105-110 | the body of `evict` arrives where the specification says |
| `SizedLRU.SizedLRU.constructor` | utils/cache/lru_sized_cache.go:23-29 | a new cache is empty and records 0 |
| `SizedLRU.SizedLRU.Put` | utils/cache/lru_sized_cache.go:73-93 | the whole new value, the flush of an entry larger than the maximum included |
| `SizedLRU.SizedLRU.Get` | utils/cache/lru_sized_cache.go:95-103 | the value found, which becomes the newest pair; the recorded size stays |
| `SizedLRU.SizedLRU.Evict` | utils/cache/lru_sized_cache.go:105-110 | the key is found no more; every other key is bound as it was, in its old order; the recorded size is less by exactly the size of the value that left, or the same if the key was absent |
| `SizedLRU.SizedLRU.Flush` | utils/cache/lru_sized_cache.go:112-115 | empty, recording 0 |
| `SizedLRU.Perform` | utils/cache/lru_sized_cache.go:73-115 | each call on the class is one step of the run |
| `SizedLRU.RunCache` | utils/cache/lru_sized_cache.go:73-115 | the class after any operations: its recorded size is within the maximum and falls short of the true total by exactly the run's lag |
| `EvictableLRU.EvictDown` | utils/cache/unique_cache.go:44-53 | the loop evicts exactly the excess, oldest first, and leaves the newest |
| `EvictableLRU.FreeOldest` | utils/cache/unique_cache.go:62-66 | the oldest node moves to the back and its key leaves the map |
| `EvictableLRU.Recycle` | utils/cache/unique_cache.go:61-69 | a full cache evicts its oldest object and reuses its node for the new one |
| `EvictableLRU.Lodge` | utils/cache/unique_cache.go:59-80 | a known key returns its cached object and becomes the newest; an unknown one is cached |
| `EvictableLRU.EvictableLRU.constructor` | utils/cache/unique_cache.go:11-16 | an unused cache is empty and has evicted nothing |
| `EvictableLRU.EvictableLRU.Init` | utils/cache/unique_cache.go:32-42 | a size that is not positive becomes 1, nothing else changes |
| `EvictableLRU.EvictableLRU.Resize` | utils/cache/unique_cache.go:44-53 | the excess leaves list and map and is evicted in order |
| `EvictableLRU.EvictableLRU.Deduplicate` | utils/cache/unique_cache.go:55-81 | the whole new value, eviction callbacks included, and the object returned, which is now the newest under its key |
| `EvictableLRU.EvictableLRU.Flush` | utils/cache/unique_cache.go:83-90 | everything is evicted and Size is as it was after init |
| `EvictableLRU.AdmitConserves` | utils/cache/unique_cache.go:55-81 | cached and evicted objects together are what they were, plus the new object if its key was unknown |
| `EvictableLRU.RenewPermutes` | utils/cache/unique_cache.go:74-79 | making an object the newest neither loses nor adds one |
| `EvictableLRU.AdmitKeys` | utils/cache/unique_cache.go:55-81 | no two cached objects share a key, and each is under its own |
| `EvictableLRU.ShrunkConserves` | utils/cache/unique_cache.go:44-53 | a resize evicts, in order, what comes before the objects it leaves, which are as many as fit |
| `EvictableLRU.RunConserves` | utils/cache/unique_cache.go:32-90 | in every run each insertion is matched by one cached object or one eviction, never both; keys are unique; the cache is within Size after a deduplicate |
| `EvictableLRU.AdmitFits` | utils/cache/unique_cache.go:55-81 | a cache within its size stays so |
| `EvictableLRU.AdmitEvictsIff` | utils/cache/unique_cache.go:55-81 | an object is evicted if and only if the key is unknown and the cache full; then it is the oldest, and every other object stays |
| `EvictableLRU.AdmitKeepsSuffix` | utils/cache/unique_cache.go:55-81 | a deduplicate keeps the cache a suffix of the recency list |
| `EvictableLRU.CacheIsSuffix` | utils/cache/unique_cache.go:32-90 | in every run the cache holds the most recently used objects: a suffix of the recency list since the last flush |
| `EvictableLRU.FlushEmpties` | utils/cache/unique_cache.go:83-90 | flush evicts all objects, oldest first, and restores Size |
| `EvictableLRU.Perform` | utils/cache/unique_cache.go:32-90 | each call on the class is one step of the run |
| `EvictableLRU.RunOps` | utils/cache/unique_cache.go:32-90 | the class after any operations holds, and has evicted, what the run says |
| `EvictableLRU.RunCache` | utils/cache/unique_cache.go:32-90 | so insertions are the cached objects and the evictions together |
| `Bloom.ContainsIff` | utils/bloom/filter.go:120-134 | a hash is contained if and only if the probes of the added hashes cover its probes |
| `Bloom.NoFalseNegatives` | utils/bloom/filter.go:62-75 | an added hash is always contained |
| `Bloom.PositivesAreKept` | utils/bloom/filter.go:62-75 | what is contained stays contained after any further additions |
| `Bloom.SameHashesSameBytes` | utils/bloom/filter.go:62-75 | the bytes depend only on which hashes were added, not on order or repetition |
| `Bloom.MixBit` | utils/bloom/filter.go:68 | one round takes bit i of the hash to bit i + 17, around the end of the word, and flips it where the seed has a bit |
| `Bloom.RoundsInjective` | utils/bloom/filter.go:67-68 | whatever the seeds, different hashes stay different after every round |
| `Bloom.ProbesOfSome` | utils/bloom/filter.go:67-69 | probes of some hashes worked out, with the seeds in their order |
| `Bloom.OneIsNotTheOther` | utils/bloom/filter.go:67-69 | with one zero seed and 64 bits, adding 1 sets bit 0 and not bit 1, and 2 to the 47 is not contained |
| `Bloom.Contains` | utils/bloom/filter.go:120-134 | the accumulator loop with its early exit answers whether all probed bits are set |
| `Bloom.Filter.constructor` | utils/bloom/filter.go:54-59 | a new filter has no bit set |
| `Bloom.Filter.New` | utils/bloom/filter.go:44-60 | it accepts exactly at least one entry and 1 to 16 hashes, with the error of the first test that fails; the seeds are the random numbers drawn, in order |
| `Bloom.Filter.Add` | utils/bloom/filter.go:62-75 | bit j is set if and only if some added hash probes it, the new hash included |
| `Bloom.Filter.Has` | utils/bloom/filter.go:86-91 | the answer after any additions, in terms of the probes of the added hashes |
| `Bloom.Filter.SetBit` | utils/bloom/filter.go:69-72 | the byte of the bit is ORed with the bit, so that exactly one bit is added |
| `Bloom.CoverOneMore` | utils/bloom/filter.go:62-75 | setting the bits one hash probes represents one more added hash |
| `Bloom.Uint64RoundTrip` | utils/bloom/filter.go:136-147 | a number survives big-endian encoding and decoding |
| `Bloom.PutUint64RoundTrip` | utils/bloom/read_filter.go:53-55 | eight bytes survive decoding and encoding |
| `Bloom.BigEndian` | utils/bloom/filter.go:143 | the most significant byte comes first: a number times 256 plus a byte has the bytes of the number moved one to the front, and then that byte |
| `Bloom.EncodeInjective` | utils/bloom/filter.go:136-147 | equally many seeds with the same bytes are the same seeds |
| `Bloom.WireInjective` | utils/bloom/filter.go:136-147 | filters with equally many seeds and the same bytes are the same |
| `Bloom.Marshal` | utils/bloom/filter.go:136-147 | the buffer filled in place holds the seed count in one byte, the seeds with eight bytes each and the entries, at their places |
| `Bloom.WireLayout` | utils/bloom/filter.go:136-147 | where count, seeds and entries are in the wire format |
| `Bloom.Parse` | utils/bloom/read_filter.go:34-57 | the accepted byte strings, each error, and that an accepted one marshals back to itself |
| `Bloom.DecodeSeeds` | utils/bloom/read_filter.go:53-55 | the decoded seeds encode to the bytes read |
| `Bloom.WireCounts` | utils/bloom/filter.go:141 | up to 255 seeds, the first byte of the wire format says how many there are |
| `Bloom.MarshalThenParse` | utils/bloom/read_filter.go:34-65 | a filter parsed from its own bytes is itself if and only if it has 1 to 16 seeds and an entry byte |
| `Bloom.ParsedAnswersAlike` | utils/bloom/read_filter.go:59-61 | the parsed filter answers as the original does, and contains every added hash |
| `Bloom.EmptyAndFull` | utils/bloom/read_filter.go:11-26 | `EmptyFilter` contains no hash and `FullFilter` every hash |
| `IdBits.MaskBits` | utils/ids/bits.go:35-43 | the 64-bit masks let through exactly the bits of the range within a byte |
| `IdBits.TrailingZeros8` | utils/ids/bits.go:83-92 | the index of the lowest set bit, 8 if there is none |
| `IdBits.DifferenceInId` | utils/ids/bits.go:83-92 | a bit of the masked difference of two bytes is set if and only if it is in the range and the ids differ there |
| `IdBits.ByteAgrees` | utils/ids/bits.go:83-92 | a masked byte difference vanishes if and only if the ids agree on those bits, and its trailing zeros point at the first difference |
| `IdBits.BytesAgree` | utils/ids/bits.go:27-33 | whole bytes are equal if and only if the ids agree on all their bits |
| `IdBits.EqualBytesIff` | utils/ids/bits.go:30-58 | the bytes between two bytes are equal and so are those two under their masks, if and only if the ids agree on the bits from one to the other |
| `IdBits.EqualSubsetIff` | utils/ids/bits.go:18-59 | for all ids and ranges with a start above -8: true if and only if the range is empty, or ends within the id and all its bits agree, where a negative start skips the first byte |
| `IdBits.EqualSubsetPanicsIff` | utils/ids/bits.go:18-59 | for a start of -8 or less: exactly when the function panics, and what it returns otherwise |
| `IdBits.Scan` | utils/ids/bits.go:79-124 | the first difference between two bits, byte by byte |
| `IdBits.FirstDifferenceSubset` | utils/ids/bits.go:64-125 | the least differing bit of the range; found if and only if the range ends within the id and the ids differ on it; a negative start skips the first byte, and exactly when it is -8 or less and the range is neither empty nor too long, the function panics |
| `IdBits.DifferenceIn` | utils/ids/bits.go:83-92 | the same within one masked byte |
| `IdBits.Xor` | utils/ids/id.go:110-115 | the set bits of the XOR are the differences |
| `IdBits.CompareBoth` | utils/ids/bits.go:18-125 | with a start above -8 the two functions agree if and only if the range is empty or ends within the id, and what is found is the first set bit of the XOR; with any other start the second panics exactly on the ranges that are neither empty nor too long |
| `ContinuousAverager.WeightShifts` | utils/math/continuous_averager.go:42-66 | a weight seen from another time is the weight of the old anchor times the old weight |
| `ContinuousAverager.SumsShift` | utils/math/continuous_averager.go:42-66 | moving the anchor scales both closed-form sums by one factor |
| `ContinuousAverager.LaterSum` | utils/math/continuous_averager.go:45-53 | a later observation scales the old weighted sum down and adds the value |
| `ContinuousAverager.LaterNormalizer` | utils/math/continuous_averager.go:45-53 | and the normalizer likewise, adding 1 |
| `ContinuousAverager.NormalizerPositive` | utils/math/continuous_averager.go:68-70 | with any observation the normalizer is positive, so reading never divides by 0 |
| `ContinuousAverager.SumPermutes` | utils/math/continuous_averager.go:42-66 | a sum of terms does not depend on the order of the observations |
| `ContinuousAverager.MeanPermutes` | utils/math/continuous_averager.go:42-70 | the weighted mean does not depend on the order of the observations |
| `ContinuousAverager.MeanIsBounded` | utils/math/continuous_averager.go:68-70 | the mean lies between the least and the greatest value |
| `ContinuousAverager.HalfTheWeight` | utils/math/continuous_averager.go:35 | with the natural exponential an observation one halflife old weighs half as much as a new one, to three digits |
| `ContinuousAverager.Averager.constructor` | utils/math/continuous_averager.go:29-40 | the initial prediction is the first observation |
| `ContinuousAverager.Averager.ObserveLater` | utils/math/continuous_averager.go:45-53 | an observation in order keeps both fields equal to the closed forms anchored at the latest time |
| `ContinuousAverager.Averager.ObserveEarlier` | utils/math/continuous_averager.go:59-64 | so does one out of order |
| `ContinuousAverager.Averager.Observe` | utils/math/continuous_averager.go:42-66 | so does every observation, one at the same time included |
| `ContinuousAverager.Averager.Read` | utils/math/continuous_averager.go:68-70 | the weighted mean of everything observed |
| `ContinuousAverager.ReadAfter` | utils/math/continuous_averager.go:29-70 | the reading after any sequence of observations is the closed form |
| `ContinuousAverager.ReadInTwoOrders` | utils/math/continuous_averager.go:29-70 | two averagers fed the same observations in any two orders read the same, within the range of the values |
| `ContinuousAverager.ReadAfterHalflife` | utils/math/continuous_averager.go:29-70 | a value observed one halflife after the initial prediction counts twice as much in the reading, to three digits |
| `BiMap.InverseFacts` | utils/bimap/bimap.go:29-33 | a map with an inverse is injective, the inverse is unique and as large |
| `BiMap.ValuesCount` | utils/bimap/bimap.go:143-149 | a map has as many values as keys if and only if it is injective |
| `BiMap.BiMap.constructor` | utils/bimap/bimap.go:36-41 | a new map is empty |
| `BiMap.BiMap.Put` | utils/bimap/bimap.go:48-67 | the two maps stay mutually inverse; the entries returned are exactly the old ones sharing the key or the value, each once, that of the key first; no other entry changes |
| `BiMap.BiMap.GetKey` | utils/bimap/bimap.go:70-73 | the key bound to a value, or none if and only if no key is |
| `BiMap.BiMap.DeleteKey` | utils/bimap/bimap.go:94-102 | the entry leaves both maps, and its value is returned |
| `BiMap.BiMap.DeleteValue` | utils/bimap/bimap.go:105-113 | the entry leaves both maps, and its key is returned |
| `BiMap.BiMap.Unmarshal` | utils/bimap/bimap.go:135-154 | accepted if and only if null or an injective object; anything refused leaves the map as it was |
| `BiMap.BiMap.Invert` | utils/bimap/bimap.go:144-146 | the loop, in any order, finds a key for exactly the values of the map |
| `BiMap.RoundTrip` | utils/bimap/bimap.go:131-154 | unmarshalling what was marshalled always succeeds and restores both maps |
| `Paging.ValidatePerPage` | vm/rpc.go:486-498 | 1 to 100 in every case, the value given if it is in that range, 100 above it, 30 otherwise |
| `Paging.ValidatePage` | vm/rpc.go:500-519 | an error for a page size below 1; page 1 if none is asked for; a number is accepted if and only if it is 1 or its page starts inside the results |
| `Paging.ValidateSkipCount` | vm/rpc.go:521-527 | the results before a page, never negative |
| `Paging.LastPage` | vm/rpc.go:509-512 | there is at least one page, the last one starts inside the results and reaches their end |
| `Paging.WindowInRange` | vm/rpc.go:521-527 | every accepted page has its window inside the results, so no index is out of range |
| `Paging.FirstPagesArePrefix` | vm/rpc.go:648-649 | the first n pages together are a prefix of the results |
| `Paging.PagesPartition` | vm/rpc.go:640-649 | all pages together are the whole, the empty result included |
| `Paging.Window` | vm/rpc.go:545-561 | the page of the validators, or an error exactly when the page number is out of range |
| `Paging.SortSpec` | vm/rpc.go:619-637 | sorting yields a sorted permutation |
| `Paging.SortedIsUnique` | vm/rpc.go:619-637 | with unique (height, index) pairs there is one sorted arrangement |
| `Paging.SortPermutes` | vm/rpc.go:619-637 | so results that arrive in another order sort to the same sequence, whatever the sorting algorithm |
| `Paging.SortedRunsOneWay` | vm/rpc.go:619-637 | along a sorted sequence (height, index) never falls, or never rises |
| `Paging.PageOfSorted` | vm/rpc.go:640-649 | a page of sorted results is sorted and made of them |
| `Paging.TxSearch` | vm/rpc.go:602-676 | for every sorting algorithm: the requested page of the sorted results and their number; (height, index) never falls along the answer for "asc" and the empty string and never rises for "desc"; an order error if and only if the string is none of the three, and a page error exactly for a page out of range |
| `Paging.Paginate` | vm/rpc.go:640-673 | the loop over the window collects exactly that page |
| `Paging.OnePage` | vm/rpc.go:602-676 | one of several calls answers with its page of the same sorted results, in whatever order it got them |
| `Paging.AllPages` | vm/rpc.go:602-676 | for every sorting algorithm and unique (height, index) pairs: pages 1 to n from independent calls, each with its own arrival order, concatenate to all results, along which (height, index) never falls for "asc" and the empty string and never rises for "desc" |

## Left out

- Several consumers calling one iterator at the same time: the iterator is modelled with one.
- Memory ordering inside `err`, which the source guards with a lock: each read and write of it is one step.
- `end` and reverse order of `Database.Iterator`: the client never applies them, so nothing about a range scan is claimed; which batches the server answers with is arbitrary.
- RPC plumbing, the server side and the mapping of error codes of the database client.
- The cloning of byte slices in the write batch: keys and values are immutable here.
- Block encoding and hashing: ids are abstract values rather than 32 bytes, so that collision freedom is consistent; a malformed id is `None`, and encoding is taken to succeed.
- Conversions between signed and unsigned heights and the timestamps of responses.
- BlockLifecycle.LandslideVM.Initialize: models only the block branch at its end; networking, indexers, mempool and handshake of `Initialize` are not part of this model, and neither is a second start on what a failed save left behind.
- BlockLifecycle.LandslideVM.BlockAccept: says what a failed save leaves behind, but no call on that state is modelled.
- Validation beyond height and last block id, execution, events and mempool updates of `ApplyBlock`: abstract parameters of `Env`.
- The byte bounds of the VM's LRU caches, and that `cachedBlockSize` may change for an entry that is mutated in place: covered by letting every put push out any entries and any entry vanish at any time.
- The ring of container/list: modelled as a list from front to back without its sentinel.
- Mutexes of the map, the caches and the filter: each locked method is atomic.
- LinkedHashmap.Iter.DeleteVisited: asks that the key is not ahead of the iterator, because the source demands that of its callers; deleting a key ahead of it is not modelled.
- `Len` and `PortionFilled` of the caches: easy members, and floats.
- EvictableLRU.EvictableLRU.Deduplicate: keeps each object next to its key and logs evictions in a field instead of calling back, so an `Evict` that re-enters the cache and keys that change over time are not modelled.
- SizedLRU.SizedLRU.constructor: asks for non-negative sizes, because with negative ones the eviction loop can find the list empty, which the source does not guard against.
- Random seed generation of the bloom filter: the seeds are a parameter; `Count` and the optimal parameters are left out.
- ContinuousAverager.Averager.constructor: reals instead of floats, exact durations, and a halflife other than 0, by which the source divides; `NewUninitializedAverager` is left out.
- JSON decoding itself, in `BiMap.BiMap.Unmarshal`: its outcome is a parameter.
- Paging.TxSearch: `sort.Slice` is a function on values given by the environment, so its update in place is not captured; query parsing, the indexer and proofs are left out, and so is block search.
- Warp signing, JSON-RPC dispatch, HTTP, codecs, base58 and text forms of ids, generated protobuf code, safe arithmetic and sorting helpers: libraries, plumbing, or easy members.
