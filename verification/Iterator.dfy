/** The RPC database iterator: a `fetch` goroutine and one consumer that meet
    over unbuffered channels (database/iterator.go).

    Both threads are small-step programs with a program counter.  A rendezvous
    on an unbuffered channel is one joint action; everything else is an action
    of one thread.  What an RPC answers is chosen by the environment, and the
    database may be closed by another thread at any moment.  The theorems at the
    end hold of every run, that is, of every interleaving. */
module DatabaseIterator {
  import opened Options

  type Bytes = seq<bv8>
  datatype Entry = Entry(key: Bytes, value: Bytes)
  type Batch = seq<Entry>

  datatype Err = ErrClosed | RpcError(code: nat)

  /** The requests the client can send for one server-side iterator. */
  datatype Request = NextRequest | ErrorRequest | ReleaseRequest

  /** Where the fetch goroutine is. */
  datatype FetchPc =
    | CallNext                                         // top of the outer loop
    | AwaitNext                                        // IteratorNext outstanding
    | NextFailed(e: Err)                               // about to record a failed IteratorNext
    | Offer(batch: Batch)                              // blocked in the select
    | CallError(batch: Batch)                          // took an update request
    | AwaitError(batch: Batch)                         // IteratorError outstanding
    | ErrorReply(batch: Batch, answer: Option<Err>)    // about to record its answer
    | Notify(batch: Batch)                             // about to close onUpdated
    | CallRelease                                      // the deferred function starts
    | AwaitRelease                                     // IteratorRelease outstanding
    | ReleaseReply(answer: Option<Err>)                // about to record its answer
    | CloseFetched                                     // about to close fetchedData
    | CloseClosed                                      // about to close onClosed
    | Exited

  datatype Caller = FromError | FromClose

  /** Where the consumer is; Idle means outside every call. */
  datatype ConsumerPc =
    | Idle
    | NextEntry                     // about to test db.closed
    | NextMarkClosed                // about to record ErrClosed
    | NextShift                     // about to shift the held batch
    | NextReceive                   // blocked on fetchedData
    | ErrorEntry(who: Caller)        // about to read err
    | ErrorSend(who: Caller)         // blocked in the select of Error
    | ErrorAwait(who: Caller)        // blocked on onUpdated
    | ErrorReread(who: Caller)       // about to read err again
    | CloseEntry                    // about to enter once.Do
    | CloseAwait                    // blocked on onClosed

  predicate InError(pc: ConsumerPc) {
    pc.ErrorEntry? || pc.ErrorSend? || pc.ErrorAwait? || pc.ErrorReread?
  }

  predicate InNext(pc: ConsumerPc) {
    pc.NextEntry? || pc.NextMarkClosed? || pc.NextShift? || pc.NextReceive?
  }

  predicate Updating(pc: FetchPc) {
    pc.CallError? || pc.AwaitError? || pc.ErrorReply? || pc.Notify?
  }

  predicate Holding(pc: FetchPc) {
    pc.Offer? || Updating(pc)
  }

  predicate Fetching(pc: FetchPc) {
    pc.CallNext? || pc.AwaitNext? || pc.NextFailed?
  }

  predicate Releasing(pc: FetchPc) {
    pc.CallRelease? || pc.AwaitRelease? || pc.ReleaseReply? || pc.CloseFetched? || pc.CloseClosed?
  }

  predicate ReleaseSent(pc: FetchPc) {
    pc.AwaitRelease? || pc.ReleaseReply? || pc.CloseFetched? || pc.CloseClosed? || pc.Exited?
  }

  datatype Call = CallIterNext | CallIterError | CallIterClose

  /** Which channels are closed; onUpdated is the one of the current Error call. */
  datatype Channels = Channels(onClose: bool, onUpdated: bool, fetchedData: bool, onClosed: bool)

  /** What has happened so far. */
  datatype History = History(
    requests: seq<Request>,      // sent to the server, in order
    outstanding: int,            // sent and not yet answered
    replies: seq<Reply>,         // what came back, in order
    calls: seq<Call>,            // calls the consumer has begun, in order
    failures: seq<Err>,          // errors answered by the RPCs, in order
    foundClosed: nat,            // calls of Next that found the database closed
    served: seq<Batch>,          // non-empty batches the server answered with
    exhausted: bool,             // the server answered with an empty batch
    delivered: seq<Batch>,       // batches received by Next
    exposed: seq<Batch>,         // `data` at the end of each completed Next
    results: seq<Option<Err>>,   // what Error and Close returned
    closeReturns: nat)           // completed calls of Close

  datatype State = State(
    fetch: FetchPc,
    consumer: ConsumerPc,
    data: Batch,
    err: Option<Err>,
    dbClosed: bool,
    onceDone: bool,
    ch: Channels,
    log: History)

  function Init(): State {
    State(CallNext, Idle, [], None, false, false, Channels(false, false, false, false),
          History([], 0, [], [], [], 0, [], false, [], [], [], 0))
  }

  datatype Reply = Failed(e: Err) | Data(batch: Batch) | Status(answer: Option<Err>)

  datatype Action =
    | Fetch(reply: Reply)      // the goroutine steps alone; reply is read when an RPC returns
    | Consume(call: Call)      // the consumer steps alone; call is read when it is idle
    | HandOver                 // rendezvous on fetchedData
    | RequestUpdate            // rendezvous on reqUpdateError
    | CloseDatabase            // some other thread calls Database.Close

  predicate Enabled(s: State, a: Action) {
    match a
    case Fetch(reply) =>
      (match s.fetch
       case AwaitNext => reply.Failed? || reply.Data?
       case AwaitError(_) => reply.Failed? || reply.Status?
       case AwaitRelease => reply.Failed? || reply.Status?
       case Offer(_) => s.ch.onClose
       case Exited => false
       case _ => true)
    case Consume(_) =>
      (match s.consumer
       case NextReceive => s.ch.fetchedData
       case ErrorSend(_) => s.ch.onClosed
       case ErrorAwait(_) => s.ch.onUpdated
       case CloseAwait => s.ch.onClosed
       case _ => true)
    case HandOver => s.fetch.Offer? && s.consumer.NextReceive?
    case RequestUpdate => s.fetch.Offer? && s.consumer.ErrorSend?
    case CloseDatabase => true
  }

  /** setError: the first error wins. */
  function SetError(err: Option<Err>, e: Option<Err>): Option<Err> {
    if err.None? then e else err
  }

  /** The answer to IteratorError or IteratorRelease: a transport failure, or the
      error the response maps to (which may be none). */
  function Answer(reply: Reply): Option<Err>
    requires reply.Failed? || reply.Status?
  {
    if reply.Failed? then Some(reply.e) else reply.answer
  }

  function Send(s: State, r: Request, pc: FetchPc): State {
    s.(fetch := pc, log := s.log.(requests := s.log.requests + [r], outstanding := s.log.outstanding + 1))
  }

  function Answered(log: History, reply: Reply, e: Option<Err>): History {
    log.(outstanding := log.outstanding - 1, replies := log.replies + [reply],
         failures := if e.Some? then log.failures + [e.value] else log.failures)
  }

  /** The body of the outer loop of fetch, with the onClose arm of its select. */
  function LoopStep(s: State, reply: Reply): State
    requires Enabled(s, Fetch(reply)) && (Fetching(s.fetch) || s.fetch.Offer?)
  {
    match s.fetch
    case CallNext => Send(s, NextRequest, AwaitNext)
    case AwaitNext =>
      var log := Answered(s.log, reply, if reply.Failed? then Some(reply.e) else None);
      if reply.Failed? then s.(fetch := NextFailed(reply.e), log := log)
      else if |reply.batch| == 0 then s.(fetch := CallRelease, log := log.(exhausted := true))
      else s.(fetch := Offer(reply.batch), log := log.(served := log.served + [reply.batch]))
    case NextFailed(e) => s.(fetch := CallRelease, err := SetError(s.err, Some(e)))
    case Offer(_) => s.(fetch := CallRelease)
  }

  /** The reqUpdateError arm: updateError, then close(onUpdated). */
  function UpdateStep(s: State, reply: Reply): State
    requires Enabled(s, Fetch(reply)) && Updating(s.fetch)
  {
    match s.fetch
    case CallError(batch) => Send(s, ErrorRequest, AwaitError(batch))
    case AwaitError(batch) => s.(fetch := ErrorReply(batch, Answer(reply)), log := Answered(s.log, reply, Answer(reply)))
    case ErrorReply(batch, answer) => s.(fetch := Notify(batch), err := SetError(s.err, answer))
    case Notify(batch) => s.(fetch := Offer(batch), ch := s.ch.(onUpdated := true))
  }

  /** The deferred function of fetch. */
  function ReleaseStep(s: State, reply: Reply): State
    requires Enabled(s, Fetch(reply)) && Releasing(s.fetch)
  {
    match s.fetch
    case CallRelease => Send(s, ReleaseRequest, AwaitRelease)
    case AwaitRelease => s.(fetch := ReleaseReply(Answer(reply)), log := Answered(s.log, reply, Answer(reply)))
    case ReleaseReply(answer) => s.(fetch := CloseFetched, err := SetError(s.err, answer))
    case CloseFetched => s.(fetch := CloseClosed, ch := s.ch.(fetchedData := true))
    case CloseClosed => s.(fetch := Exited, ch := s.ch.(onClosed := true))
  }

  /** Error, or the Close that called it, returns e. */
  function Return(s: State, who: Caller, e: Option<Err>): State {
    s.(consumer := Idle,
       log := s.log.(results := s.log.results + [e],
                     closeReturns := if who == FromClose then s.log.closeReturns + 1 else s.log.closeReturns))
  }

  function NextStep(s: State): State
    requires InNext(s.consumer) && (s.consumer.NextReceive? ==> s.ch.fetchedData)
  {
    match s.consumer
    case NextEntry =>
      if s.dbClosed then
        s.(consumer := NextMarkClosed, data := [], log := s.log.(foundClosed := s.log.foundClosed + 1))
      else s.(consumer := NextShift)
    case NextMarkClosed => s.(consumer := NextShift, err := SetError(s.err, Some(ErrClosed)))
    case NextShift => s.(consumer := NextReceive, data := if |s.data| > 1 then s.data[1..] else s.data)
    case NextReceive => s.(consumer := Idle, data := [], log := s.log.(exposed := s.log.exposed + [[]]))
  }

  function ErrorStep(s: State): State
    requires InError(s.consumer)
  {
    match s.consumer
    case ErrorEntry(who) => if s.err.Some? then Return(s, who, s.err) else s.(consumer := ErrorSend(who))
    case ErrorSend(who) => s.(consumer := ErrorReread(who))
    case ErrorAwait(who) => s.(consumer := ErrorReread(who))
    case ErrorReread(who) => Return(s, who, s.err)
  }

  function CloseStep(s: State): State
    requires s.consumer.CloseEntry? || s.consumer.CloseAwait?
  {
    if s.consumer.CloseEntry? && !s.onceDone then
      s.(consumer := CloseAwait, onceDone := true, ch := s.ch.(onClose := true))
    else
      s.(consumer := ErrorEntry(FromClose))
  }

  function Begin(s: State, call: Call): State {
    s.(log := s.log.(calls := s.log.calls + [call]),
       consumer := match call
                   case CallIterNext => NextEntry
                   case CallIterError => ErrorEntry(FromError)
                   case CallIterClose => CloseEntry)
  }

  function Step(s: State, a: Action): State
    requires Enabled(s, a)
  {
    match a
    case Fetch(reply) =>
      if Updating(s.fetch) then UpdateStep(s, reply)
      else if Releasing(s.fetch) then ReleaseStep(s, reply)
      else LoopStep(s, reply)
    case Consume(call) =>
      if s.consumer.Idle? then Begin(s, call)
      else if InNext(s.consumer) then NextStep(s)
      else if InError(s.consumer) then ErrorStep(s)
      else CloseStep(s)
    case HandOver =>
      s.(fetch := CallNext, consumer := Idle, data := s.fetch.batch,
         log := s.log.(delivered := s.log.delivered + [s.fetch.batch], exposed := s.log.exposed + [s.fetch.batch]))
    case RequestUpdate =>
      s.(fetch := CallError(s.fetch.batch), consumer := ErrorAwait(s.consumer.who),
         ch := s.ch.(onUpdated := false))
    case CloseDatabase => s.(dbClosed := true)
  }

  /** acts is a run from s: each action is enabled where it happens. */
  ghost predicate Run(s: State, acts: seq<Action>)
    decreases |acts|
  {
    acts == [] || (Enabled(s, acts[0]) && Run(Step(s, acts[0]), acts[1..]))
  }

  ghost function Exec(s: State, acts: seq<Action>): State
    requires Run(s, acts)
    decreases |acts|
  {
    if acts == [] then s else Exec(Step(s, acts[0]), acts[1..])
  }

  // ---------------------------------------------------------------- invariant

  /** (Next|Error)* followed by at most one Release, which is then last. */
  predicate WellFormedRequests(rs: seq<Request>) {
    forall i :: 0 <= i < |rs| && rs[i] == ReleaseRequest ==> i == |rs| - 1
  }

  ghost predicate RequestsInv(s: State) {
    && s.log.outstanding == (if s.fetch.AwaitNext? || s.fetch.AwaitError? || s.fetch.AwaitRelease? then 1 else 0)
    && WellFormedRequests(s.log.requests)
    && (ReleaseRequest in s.log.requests <==> ReleaseSent(s.fetch))
  }

  ghost predicate ChannelInv(s: State) {
    && (s.ch.fetchedData <==> s.fetch.CloseClosed? || s.fetch.Exited?)
    && (s.ch.onClosed <==> s.fetch.Exited?)
    && s.ch.onClose == s.onceDone
    && (s.consumer.CloseAwait? ==> s.onceDone)
    && (s.onceDone && !s.consumer.CloseAwait? ==> s.ch.onClosed)
    && (Updating(s.fetch) ==> s.consumer.ErrorAwait? && !s.ch.onUpdated)
    && (s.consumer.ErrorAwait? ==> s.ch.onUpdated || Updating(s.fetch))
    && (s.log.closeReturns > 0 ==> s.ch.onClosed)
    && (InError(s.consumer) && s.consumer.who == FromClose ==> s.ch.onClosed)
  }

  ghost predicate DeliveryInv(s: State) {
    && (forall i :: 0 <= i < |s.log.served| ==> s.log.served[i] != [])
    && (Holding(s.fetch) ==> s.log.served == s.log.delivered + [s.fetch.batch])
    && (Fetching(s.fetch) ==> s.log.served == s.log.delivered)
    && (s.log.exhausted ==> !Holding(s.fetch) && !Fetching(s.fetch) && s.log.served == s.log.delivered)
    && (!Holding(s.fetch) && !Fetching(s.fetch) ==>
          || ((s.log.exhausted || s.err.Some?) && s.log.served == s.log.delivered)
          || (s.ch.onClose && |s.log.served| == |s.log.delivered| + 1 && s.log.delivered == s.log.served[..|s.log.delivered|]))
  }

  ghost predicate ExposureInv(s: State) {
    && |s.log.delivered| <= |s.log.exposed|
    && s.log.exposed[..|s.log.delivered|] == s.log.delivered
    && (forall i :: |s.log.delivered| <= i < |s.log.exposed| ==> s.log.exposed[i] == [])
    && (|s.log.delivered| < |s.log.exposed| ==> s.ch.fetchedData)
    && (!s.consumer.NextMarkClosed? && !s.consumer.NextShift? && !s.consumer.NextReceive? ==>
          s.data == if s.log.exposed == [] then [] else s.log.exposed[|s.log.exposed| - 1])
  }

  ghost predicate ResultsInv(s: State) {
    forall i, j :: 0 <= i <= j < |s.log.results| && s.log.results[i].Some? ==> s.log.results[j] == s.log.results[i] == s.err
  }

  /** An answered error the goroutine has not recorded yet. */
  function Unrecorded(pc: FetchPc): seq<Err> {
    if pc.NextFailed? then [pc.e]
    else if (pc.ErrorReply? || pc.ReleaseReply?) && pc.answer.Some? then [pc.answer.value]
    else []
  }

  /** How many calls of Next are about to record that the database is closed. */
  function Marking(pc: ConsumerPc): nat {
    if pc.NextMarkClosed? then 1 else 0
  }

  ghost predicate ErrInv(s: State) {
    && (s.err.None? ==> s.log.failures == Unrecorded(s.fetch) && s.log.foundClosed == Marking(s.consumer))
    && (s.err.Some? ==>
          || (s.log.foundClosed > Marking(s.consumer) && s.err.value == ErrClosed)
          || (|s.log.failures| > |Unrecorded(s.fetch)| && s.err.value == s.log.failures[0]))
    && Marking(s.consumer) <= s.log.foundClosed && |Unrecorded(s.fetch)| <= |s.log.failures|
    && (s.log.foundClosed > 0 ==> s.dbClosed)
  }

  /** The error a reply carries, whatever was asked. */
  function ErrorIn(reply: Reply): seq<Err> {
    match reply
    case Failed(e) => [e]
    case Status(answer) => if answer.Some? then [answer.value] else []
    case Data(_) => []
  }

  /** All errors the server and the transport have answered with. */
  function ErrorsIn(replies: seq<Reply>): seq<Err> {
    if replies == [] then [] else ErrorsIn(replies[..|replies| - 1]) + ErrorIn(replies[|replies| - 1])
  }

  /** All batches with entries in them that the server has answered with. */
  function BatchesIn(replies: seq<Reply>): seq<Batch> {
    if replies == [] then [] else BatchesIn(replies[..|replies| - 1]) + BatchIn(replies[|replies| - 1])
  }

  function BatchIn(reply: Reply): seq<Batch> {
    match reply
    case Data(batch) => if batch == [] then [] else [batch]
    case _ => []
  }

  /** The reply answers the request: data is what Next asks for, a status anything else. */
  predicate Answers(reply: Reply, request: Request) {
    reply.Failed? || (reply.Data? <==> request == NextRequest)
  }

  /** Each reply answers the request of the same position, and the errors and batches
      noted are those of the replies. */
  ghost predicate LogInv(log: History) {
    && |log.replies| + log.outstanding == |log.requests| && 0 <= log.outstanding <= 1
    && (forall i :: 0 <= i < |log.replies| ==> Answers(log.replies[i], log.requests[i]))
    && log.failures == ErrorsIn(log.replies) && log.served == BatchesIn(log.replies)
    && (log.exhausted <==> Data([]) in log.replies)
  }

  /** The request whose reply the goroutine awaits. */
  function Awaited(pc: FetchPc): Option<Request> {
    if pc.AwaitNext? then Some(NextRequest)
    else if pc.AwaitError? then Some(ErrorRequest)
    else if pc.AwaitRelease? then Some(ReleaseRequest)
    else None
  }

  /** What the goroutine awaits or is about to record is the last thing in the log. */
  ghost predicate PcInv(pc: FetchPc, log: History)
    requires LogInv(log)
  {
    && log.outstanding == (if Awaited(pc).Some? then 1 else 0)
    && (Awaited(pc).Some? ==> log.requests[|log.requests| - 1] == Awaited(pc).value)
    && (Answering(pc).Some? ==>
          && log.replies != [] && ErrorIn(log.replies[|log.replies| - 1]) == Unrecorded(pc)
          && log.requests[|log.replies| - 1] == Answering(pc).value)
  }

  ghost predicate RepliesInv(s: State) {
    LogInv(s.log) && PcInv(s.fetch, s.log)
  }

  /** The request whose reply the goroutine is about to record. */
  function Answering(pc: FetchPc): Option<Request> {
    if pc.NextFailed? then Some(NextRequest)
    else if pc.ErrorReply? then Some(ErrorRequest)
    else if pc.ReleaseReply? then Some(ReleaseRequest)
    else None
  }

  /** The consumer is in Close, or in the Error that Close calls. */
  predicate InClose(pc: ConsumerPc) {
    pc.CloseEntry? || pc.CloseAwait? || (InError(pc) && pc.who == FromClose)
  }

  /** Every call begun has returned as what it was, except the one under way. */
  ghost predicate CallsMatch(calls: seq<Call>, nexts: nat, answers: nat, closes: nat, pc: ConsumerPc) {
    && multiset(calls)[CallIterNext] == nexts + (if InNext(pc) then 1 else 0)
    && multiset(calls)[CallIterClose] == closes + (if InClose(pc) then 1 else 0)
    && multiset(calls)[CallIterError] + closes == answers + (if InError(pc) && pc.who == FromError then 1 else 0)
  }

  ghost predicate CallsInv(s: State) {
    CallsMatch(s.log.calls, |s.log.exposed|, |s.log.results|, s.log.closeReturns, s.consumer)
  }

  ghost predicate CoreInv(s: State) {
    RequestsInv(s) && ChannelInv(s) && DeliveryInv(s) && ExposureInv(s)
  }

  ghost predicate Inv(s: State) {
    CoreInv(s) && ResultsInv(s) && ErrInv(s) && RepliesInv(s) && CallsInv(s)
  }

  lemma LoopKeepsRequests(s: State, reply: Reply)
    requires RequestsInv(s) && Enabled(s, Fetch(reply)) && (Fetching(s.fetch) || s.fetch.Offer?)
    ensures RequestsInv(LoopStep(s, reply))
  {
  }

  lemma LoopKeepsChannels(s: State, reply: Reply)
    requires ChannelInv(s) && Enabled(s, Fetch(reply)) && (Fetching(s.fetch) || s.fetch.Offer?)
    ensures ChannelInv(LoopStep(s, reply))
  {
  }

  lemma LoopKeepsDelivery(s: State, reply: Reply)
    requires DeliveryInv(s) && Enabled(s, Fetch(reply)) && (Fetching(s.fetch) || s.fetch.Offer?)
    ensures DeliveryInv(LoopStep(s, reply))
  {
  }

  lemma LoopKeepsExposure(s: State, reply: Reply)
    requires ExposureInv(s) && Enabled(s, Fetch(reply)) && (Fetching(s.fetch) || s.fetch.Offer?)
    ensures ExposureInv(LoopStep(s, reply))
  {
    var t := LoopStep(s, reply);
    assert t.data == s.data && t.ch == s.ch && t.consumer == s.consumer;
    assert t.log.exposed == s.log.exposed && t.log.delivered == s.log.delivered;
  }

  lemma UpdateKeepsInv(s: State, reply: Reply)
    requires CoreInv(s) && Enabled(s, Fetch(reply)) && Updating(s.fetch)
    ensures CoreInv(UpdateStep(s, reply))
  {
  }

  lemma ReleaseKeepsControl(s: State, reply: Reply)
    requires CoreInv(s) && Enabled(s, Fetch(reply)) && Releasing(s.fetch)
    ensures RequestsInv(ReleaseStep(s, reply)) && ChannelInv(ReleaseStep(s, reply))
  {
  }

  lemma ReleaseKeepsBatches(s: State, reply: Reply)
    requires CoreInv(s) && Enabled(s, Fetch(reply)) && Releasing(s.fetch)
    ensures DeliveryInv(ReleaseStep(s, reply)) && ExposureInv(ReleaseStep(s, reply))
  {
  }

  lemma NextKeepsInv(s: State)
    requires CoreInv(s) && InNext(s.consumer) && (s.consumer.NextReceive? ==> s.ch.fetchedData)
    ensures CoreInv(NextStep(s))
  {
  }

  lemma ErrorKeepsControl(s: State)
    requires CoreInv(s) && Enabled(s, Consume(CallIterError)) && InError(s.consumer)
    ensures RequestsInv(ErrorStep(s)) && ChannelInv(ErrorStep(s))
  {
  }

  lemma ErrorKeepsBatches(s: State)
    requires CoreInv(s) && Enabled(s, Consume(CallIterError)) && InError(s.consumer)
    ensures DeliveryInv(ErrorStep(s)) && ExposureInv(ErrorStep(s))
  {
    var t := ErrorStep(s);
    assert t.data == s.data && t.err == s.err && t.ch == s.ch && t.fetch == s.fetch;
    assert t.log.(results := [], closeReturns := 0) == s.log.(results := [], closeReturns := 0);
  }

  lemma CloseKeepsInv(s: State)
    requires CoreInv(s) && Enabled(s, Consume(CallIterClose)) && (s.consumer.CloseEntry? || s.consumer.CloseAwait?)
    ensures CoreInv(CloseStep(s))
  {
  }

  lemma JointKeepsInv(s: State, a: Action)
    requires CoreInv(s) && Enabled(s, a) && !a.Fetch? && !a.Consume?
    ensures CoreInv(Step(s, a))
  {
  }

  lemma StepKeepsResults(s: State, a: Action)
    requires ResultsInv(s) && Enabled(s, a)
    ensures ResultsInv(Step(s, a))
  {
    if a.Consume? && (s.consumer.ErrorEntry? || s.consumer.ErrorReread?) {
      assert Step(s, a).log.results == s.log.results || Step(s, a).log.results == s.log.results + [s.err];
    } else {
      assert Step(s, a).log.results == s.log.results;
    }
  }

  lemma LoopKeepsErr(s: State, reply: Reply)
    requires ErrInv(s) && Enabled(s, Fetch(reply)) && (Fetching(s.fetch) || s.fetch.Offer?)
    ensures ErrInv(LoopStep(s, reply))
  {
  }

  lemma UpdateKeepsErr(s: State, reply: Reply)
    requires ErrInv(s) && Enabled(s, Fetch(reply)) && Updating(s.fetch)
    ensures ErrInv(UpdateStep(s, reply))
  {
  }

  lemma ReleaseKeepsErr(s: State, reply: Reply)
    requires ErrInv(s) && Enabled(s, Fetch(reply)) && Releasing(s.fetch)
    ensures ErrInv(ReleaseStep(s, reply))
  {
  }

  lemma StepKeepsErr(s: State, a: Action)
    requires ErrInv(s) && Enabled(s, a)
    ensures ErrInv(Step(s, a))
  {
    if a.Fetch? {
      if Updating(s.fetch) { UpdateKeepsErr(s, a.reply); }
      else if Releasing(s.fetch) { ReleaseKeepsErr(s, a.reply); }
      else { LoopKeepsErr(s, a.reply); }
    } else {
      assert Step(s, a).log.failures == s.log.failures;
    }
  }

  lemma RepliesSnoc(replies: seq<Reply>, reply: Reply)
    ensures ErrorsIn(replies + [reply]) == ErrorsIn(replies) + ErrorIn(reply)
    ensures BatchesIn(replies + [reply]) == BatchesIn(replies) + BatchIn(reply)
  {
    assert (replies + [reply])[..|replies|] == replies;
  }

  ghost function Sent(log: History, r: Request): History {
    log.(requests := log.requests + [r], outstanding := log.outstanding + 1)
  }

  lemma SendKeepsLog(log: History, r: Request, pc: FetchPc)
    requires LogInv(log) && log.outstanding == 0 && Awaited(pc) == Some(r) && Answering(pc).None?
    ensures LogInv(Sent(log, r)) && PcInv(pc, Sent(log, r))
  {
  }

  /** The log with one more reply. */
  ghost function Noted(log: History, reply: Reply): History {
    log.(outstanding := log.outstanding - 1, replies := log.replies + [reply],
         failures := log.failures + ErrorIn(reply), served := log.served + BatchIn(reply),
         exhausted := log.exhausted || reply == Data([]))
  }

  lemma AnswerKeepsLog(log: History, reply: Reply)
    requires LogInv(log) && log.outstanding == 1 && Answers(reply, log.requests[|log.requests| - 1])
    ensures LogInv(Noted(log, reply))
  {
    RepliesSnoc(log.replies, reply);
  }

  /** Where the goroutine goes with a reply, it is to record the error in it. */
  lemma AnswerKeepsPc(log: History, reply: Reply, before: FetchPc, pc: FetchPc)
    requires LogInv(log) && LogInv(Noted(log, reply)) && PcInv(before, log) && Awaited(before).Some?
    requires Awaited(pc).None? && (Answering(pc).Some? ==> Answering(pc) == Awaited(before) && Unrecorded(pc) == ErrorIn(reply))
    ensures PcInv(pc, Noted(log, reply))
  {
  }

  lemma LoopNotes(s: State, reply: Reply)
    requires s.fetch.AwaitNext? && Enabled(s, Fetch(reply))
    ensures LoopStep(s, reply).log == Noted(s.log, reply)
  {
    assert s.log.failures + [] == s.log.failures && s.log.served + [] == s.log.served;
  }

  lemma AnswerNotes(log: History, reply: Reply)
    requires reply.Failed? || reply.Status?
    ensures Answered(log, reply, Answer(reply)) == Noted(log, reply)
  {
    assert log.failures + [] == log.failures && log.served + [] == log.served;
  }

  /** What the log says of requests and replies. */
  predicate SameReplies(a: History, b: History) {
    && a.requests == b.requests && a.outstanding == b.outstanding && a.replies == b.replies
    && a.failures == b.failures && a.served == b.served && a.exhausted == b.exhausted
  }

  lemma SendKeepsReplies(s: State, r: Request, pc: FetchPc)
    requires RepliesInv(s) && Awaited(s.fetch).None? && Awaited(pc) == Some(r) && Answering(pc).None?
    ensures RepliesInv(Send(s, r, pc))
  {
    SendKeepsLog(s.log, r, pc);
  }

  lemma AnswerKeepsReplies(s: State, t: State, reply: Reply)
    requires RepliesInv(s) && Awaited(s.fetch).Some? && Answers(reply, Awaited(s.fetch).value)
    requires t.log == Noted(s.log, reply) && Awaited(t.fetch).None?
    requires Answering(t.fetch).Some? ==> Answering(t.fetch) == Awaited(s.fetch) && Unrecorded(t.fetch) == ErrorIn(reply)
    ensures RepliesInv(t)
  {
    AnswerKeepsLog(s.log, reply);
    AnswerKeepsPc(s.log, reply, s.fetch, t.fetch);
  }

  lemma QuietKeepsReplies(s: State, t: State)
    requires RepliesInv(s) && SameReplies(s.log, t.log) && Awaited(s.fetch).None? && Awaited(t.fetch).None?
    requires Answering(t.fetch).None?
    ensures RepliesInv(t)
  {
  }

  lemma LoopKeepsReplies(s: State, reply: Reply)
    requires RepliesInv(s) && Enabled(s, Fetch(reply)) && (Fetching(s.fetch) || s.fetch.Offer?)
    ensures RepliesInv(LoopStep(s, reply))
  {
    if s.fetch.CallNext? {
      SendKeepsReplies(s, NextRequest, AwaitNext);
    } else if s.fetch.AwaitNext? {
      LoopNotes(s, reply);
      AnswerKeepsReplies(s, LoopStep(s, reply), reply);
    } else {
      QuietKeepsReplies(s, LoopStep(s, reply));
    }
  }

  lemma UpdateKeepsReplies(s: State, reply: Reply)
    requires RepliesInv(s) && Enabled(s, Fetch(reply)) && Updating(s.fetch)
    ensures RepliesInv(UpdateStep(s, reply))
  {
    if s.fetch.CallError? {
      SendKeepsReplies(s, ErrorRequest, AwaitError(s.fetch.batch));
    } else if s.fetch.AwaitError? {
      AnswerNotes(s.log, reply);
      AnswerKeepsReplies(s, UpdateStep(s, reply), reply);
    } else {
      QuietKeepsReplies(s, UpdateStep(s, reply));
    }
  }

  lemma ReleaseKeepsReplies(s: State, reply: Reply)
    requires RepliesInv(s) && Enabled(s, Fetch(reply)) && Releasing(s.fetch)
    ensures RepliesInv(ReleaseStep(s, reply))
  {
    if s.fetch.CallRelease? {
      SendKeepsReplies(s, ReleaseRequest, AwaitRelease);
    } else if s.fetch.AwaitRelease? {
      AnswerNotes(s.log, reply);
      AnswerKeepsReplies(s, ReleaseStep(s, reply), reply);
    } else {
      QuietKeepsReplies(s, ReleaseStep(s, reply));
    }
  }

  lemma FetchKeepsReplies(s: State, reply: Reply)
    requires RepliesInv(s) && Enabled(s, Fetch(reply))
    ensures RepliesInv(Step(s, Fetch(reply)))
  {
    if Updating(s.fetch) { UpdateKeepsReplies(s, reply); }
    else if Releasing(s.fetch) { ReleaseKeepsReplies(s, reply); }
    else { LoopKeepsReplies(s, reply); }
  }

  lemma ConsumeKeepsLog(s: State, a: Action)
    requires Enabled(s, a) && !a.Fetch?
    ensures SameReplies(Step(s, a).log, s.log) && Awaited(Step(s, a).fetch) == Awaited(s.fetch)
    ensures Answering(Step(s, a).fetch) == Answering(s.fetch) && Unrecorded(Step(s, a).fetch) == Unrecorded(s.fetch)
  {
  }

  lemma StepKeepsReplies(s: State, a: Action)
    requires RepliesInv(s) && Enabled(s, a)
    ensures RepliesInv(Step(s, a))
  {
    if a.Fetch? {
      FetchKeepsReplies(s, a.reply);
    } else {
      ConsumeKeepsLog(s, a);
    }
  }

  lemma BeginKeepsCalls(s: State, call: Call)
    requires CallsInv(s) && s.consumer.Idle?
    ensures CallsInv(Begin(s, call))
  {
    var t := Begin(s, call);
    assert multiset(t.log.calls) == multiset(s.log.calls) + multiset{call};
  }

  lemma NextKeepsCalls(s: State)
    requires CallsInv(s) && InNext(s.consumer) && (s.consumer.NextReceive? ==> s.ch.fetchedData)
    ensures CallsInv(NextStep(s))
  {
  }

  lemma ErrorKeepsCalls(s: State)
    requires CallsInv(s) && InError(s.consumer)
    ensures CallsInv(ErrorStep(s))
  {
    var t := ErrorStep(s);
    assert t.log.calls == s.log.calls && t.log.exposed == s.log.exposed;
    if t.consumer.Idle? { assert |t.log.results| == |s.log.results| + 1; }
  }

  lemma CloseKeepsCalls(s: State)
    requires CallsInv(s) && (s.consumer.CloseEntry? || s.consumer.CloseAwait?)
    ensures CallsInv(CloseStep(s))
  {
  }

  lemma ConsumeKeepsCalls(s: State, call: Call)
    requires CallsInv(s) && Enabled(s, Consume(call))
    ensures CallsInv(Step(s, Consume(call)))
  {
    if s.consumer.Idle? { BeginKeepsCalls(s, call); }
    else if InNext(s.consumer) { NextKeepsCalls(s); }
    else if InError(s.consumer) { ErrorKeepsCalls(s); }
    else { CloseKeepsCalls(s); }
  }

  /** What the consumer has done so far. */
  predicate SameCalls(a: State, b: State) {
    && a.consumer == b.consumer && a.log.calls == b.log.calls && a.log.exposed == b.log.exposed
    && a.log.results == b.log.results && a.log.closeReturns == b.log.closeReturns
  }

  lemma LoopLeavesCalls(s: State, reply: Reply)
    requires Enabled(s, Fetch(reply)) && (Fetching(s.fetch) || s.fetch.Offer?)
    ensures SameCalls(LoopStep(s, reply), s)
  {
  }

  lemma UpdateLeavesCalls(s: State, reply: Reply)
    requires Enabled(s, Fetch(reply)) && Updating(s.fetch)
    ensures SameCalls(UpdateStep(s, reply), s)
  {
  }

  lemma ReleaseLeavesCalls(s: State, reply: Reply)
    requires Enabled(s, Fetch(reply)) && Releasing(s.fetch)
    ensures SameCalls(ReleaseStep(s, reply), s)
  {
  }

  lemma FetchKeepsCalls(s: State, reply: Reply)
    requires CallsInv(s) && Enabled(s, Fetch(reply))
    ensures CallsInv(Step(s, Fetch(reply)))
  {
    if Updating(s.fetch) { UpdateLeavesCalls(s, reply); }
    else if Releasing(s.fetch) { ReleaseLeavesCalls(s, reply); }
    else { LoopLeavesCalls(s, reply); }
  }

  lemma StepKeepsCalls(s: State, a: Action)
    requires CallsInv(s) && Enabled(s, a)
    ensures CallsInv(Step(s, a))
  {
    match a
    case Fetch(reply) => FetchKeepsCalls(s, reply);
    case Consume(call) => ConsumeKeepsCalls(s, call);
    case _ => assert Step(s, a).log.calls == s.log.calls;
  }

  lemma FetchKeepsCore(s: State, reply: Reply)
    requires CoreInv(s) && Enabled(s, Fetch(reply))
    ensures CoreInv(Step(s, Fetch(reply)))
  {
    if Updating(s.fetch) { UpdateKeepsInv(s, reply); }
    else if Releasing(s.fetch) { ReleaseKeepsControl(s, reply); ReleaseKeepsBatches(s, reply); }
    else {
      LoopKeepsRequests(s, reply);
      LoopKeepsChannels(s, reply);
      LoopKeepsDelivery(s, reply);
      LoopKeepsExposure(s, reply);
    }
  }

  lemma BeginKeepsInv(s: State, call: Call)
    requires CoreInv(s) && s.consumer.Idle?
    ensures CoreInv(Begin(s, call))
  {
  }

  lemma ConsumeKeepsCore(s: State, call: Call)
    requires CoreInv(s) && Enabled(s, Consume(call))
    ensures CoreInv(Step(s, Consume(call)))
  {
    if s.consumer.Idle? { BeginKeepsInv(s, call); }
    else if InNext(s.consumer) { NextKeepsInv(s); }
    else if InError(s.consumer) { ErrorKeepsControl(s); ErrorKeepsBatches(s); }
    else { CloseKeepsInv(s); }
  }

  lemma StepKeepsInv(s: State, a: Action)
    requires Inv(s) && Enabled(s, a)
    ensures Inv(Step(s, a))
  {
    StepKeepsResults(s, a);
    StepKeepsErr(s, a);
    StepKeepsReplies(s, a);
    StepKeepsCalls(s, a);
    match a
    case Fetch(reply) => FetchKeepsCore(s, reply);
    case Consume(call) => ConsumeKeepsCore(s, call);
    case _ => JointKeepsInv(s, a);
  }

  lemma {:induction false} RunKeepsInv(s: State, acts: seq<Action>)
    requires Inv(s) && Run(s, acts)
    ensures Inv(Exec(s, acts))
    decreases |acts|
  {
    if acts != [] {
      StepKeepsInv(s, acts[0]);
      RunKeepsInv(Step(s, acts[0]), acts[1..]);
    }
  }

  /** s is the state some run from the start has got to. */
  ghost predicate Reachable(s: State) {
    exists acts :: Run(Init(), acts) && Exec(Init(), acts) == s
  }

  lemma ReachableInv(s: State)
    requires Reachable(s)
    ensures Inv(s)
  {
    var acts :| Run(Init(), acts) && Exec(Init(), acts) == s;
    InitInv();
    RunKeepsInv(Init(), acts);
  }

  lemma InitInv()
    ensures Inv(Init())
  {
  }

  // ------------------------------------------------------------------- safety

  /** In every run the requests for the iterator are (Next|Error)* followed by at
      most one Release, with never two outstanding; a Close returns only after the
      Release was answered and both channels were closed; and all non-nil errors
      that Error and Close ever return are one and the same, with nil never
      returned after it. */
  lemma RequestsAreSequential(s: State)
    requires Reachable(s)
    ensures forall i :: 0 <= i < |s.log.requests| - 1 ==> s.log.requests[i] != ReleaseRequest
    ensures 0 <= s.log.outstanding <= 1
    ensures (s.log.closeReturns > 0 ==>
                  && s.log.outstanding == 0 && ReleaseRequest in s.log.requests
                  && s.ch.onClosed && s.ch.fetchedData)
    ensures (forall i, j :: 0 <= i <= j < |s.log.results| && s.log.results[i].Some? ==>
                  s.log.results[j] == s.log.results[i])
  {
    ReachableInv(s);
  }

  /** Every call the consumer begins returns as what it was: outside every call, each Next
      has left something exposed, each Close has returned, and each Error and Close has
      given a result. */
  lemma CallsAreAnswered(s: State)
    requires Reachable(s) && s.consumer.Idle?
    ensures multiset(s.log.calls)[CallIterNext] == |s.log.exposed|
    ensures multiset(s.log.calls)[CallIterClose] == s.log.closeReturns
    ensures multiset(s.log.calls)[CallIterError] + multiset(s.log.calls)[CallIterClose] == |s.log.results|
  {
    ReachableInv(s);
  }

  /** The i-th reply answers the i-th request, and what is noted of the replies is all
      that was in them: every batch with entries, whole and in order, and every error. */
  lemma RepliesAreKept(s: State)
    requires Reachable(s)
    ensures |s.log.requests| - 1 <= |s.log.replies| <= |s.log.requests|
    ensures forall i :: 0 <= i < |s.log.replies| ==>
              s.log.replies[i].Failed? || (s.log.replies[i].Data? <==> s.log.requests[i] == NextRequest)
    ensures s.log.served == BatchesIn(s.log.replies) && s.log.failures == ErrorsIn(s.log.replies)
    ensures s.log.exhausted <==> Data([]) in s.log.replies
    ensures forall b :: b in s.log.served <==> b != [] && Data(b) in s.log.replies
    ensures forall e :: e in s.log.failures <==> Failed(e) in s.log.replies || Status(Some(e)) in s.log.replies
  {
    ReachableInv(s);
    NotedAreInReplies(s.log.replies);
  }

  /** What is noted of some replies, without saying how it is collected. */
  lemma {:induction false} NotedAreInReplies(replies: seq<Reply>)
    ensures forall b :: b in BatchesIn(replies) <==> b != [] && Data(b) in replies
    ensures forall e :: e in ErrorsIn(replies) <==> Failed(e) in replies || Status(Some(e)) in replies
  {
    if replies != [] {
      var last := |replies| - 1;
      NotedAreInReplies(replies[..last]);
      assert replies == replies[..last] + [replies[last]];
    }
  }

  lemma {:induction false} ErrorsAddUp(replies: seq<Reply>, i: nat)
    requires i < |replies|
    ensures |ErrorsIn(replies)| >= |ErrorIn(replies[i])|
    ensures i < |replies| - 1 ==> |ErrorsIn(replies)| >= |ErrorIn(replies[i])| + |ErrorIn(replies[|replies| - 1])|
  {
    if i < |replies| - 1 {
      ErrorsAddUp(replies[..|replies| - 1], i);
    }
  }

  /** As long as err is nil no reply carried an error, except perhaps the last one, if the
      goroutine is about to record it. */
  lemma NilMeansNoError(s: State, i: nat)
    requires Reachable(s) && s.err.None? && i < |s.log.replies|
    requires i < |s.log.replies| - 1 || !(s.fetch.NextFailed? || s.fetch.ErrorReply? || s.fetch.ReleaseReply?)
    ensures s.log.replies[i].Data? || s.log.replies[i] == Status(None)
  {
    ReachableInv(s);
    NoErrorMissed(s, i);
  }

  /** Some IteratorError sent at or after position n was answered, and what it answered
      has been recorded. */
  ghost predicate Asked(s: State, n: nat) {
    exists i :: n <= i < |s.log.replies| && i < |s.log.requests| && AskedAt(s, i)
  }

  ghost predicate AskedAt(s: State, i: nat)
    requires i < |s.log.replies| && i < |s.log.requests|
  {
    s.log.requests[i] == ErrorRequest && (ErrorIn(s.log.replies[i]) != [] ==> s.err.Some?)
  }

  /** How far a call of Error, begun after n requests and with these results, has got. */
  ghost predicate Asking(s: State, n: nat, results: seq<Option<Err>>) {
    && n <= |s.log.requests|
    && match s.consumer
       case ErrorEntry(_) => s.log.results == results
       case ErrorSend(_) => s.log.results == results
       case ErrorAwait(_) =>
         && s.log.results == results
         && (match s.fetch
             case CallError(_) => n <= |s.log.replies|
             case AwaitError(_) => n <= |s.log.replies|
             case ErrorReply(_, _) => n < |s.log.replies|
             case _ => Asked(s, n))
       case ErrorReread(_) => s.log.results == results && (s.ch.onClosed || Asked(s, n))
       case Idle => s.log.results == results + [s.err] && (s.err.None? ==> s.ch.onClosed || Asked(s, n))
       case _ => false
  }

  predicate Grows(s: State, t: State) {
    && s.log.requests <= t.log.requests && s.log.replies <= t.log.replies
    && (s.err.Some? ==> t.err == s.err) && (s.ch.onClosed ==> t.ch.onClosed)
  }

  lemma FetchGrows(s: State, reply: Reply)
    requires Enabled(s, Fetch(reply))
    ensures Grows(s, Step(s, Fetch(reply)))
    ensures Step(s, Fetch(reply)).consumer == s.consumer && Step(s, Fetch(reply)).log.results == s.log.results
  {
    if Updating(s.fetch) {
      assert Grows(s, UpdateStep(s, reply));
    } else if Releasing(s.fetch) {
      assert Grows(s, ReleaseStep(s, reply));
    } else {
      assert Grows(s, LoopStep(s, reply));
    }
  }

  lemma LogsGrow(s: State, a: Action)
    requires Enabled(s, a)
    ensures Grows(s, Step(s, a))
  {
    if a.Fetch? { FetchGrows(s, a.reply); } else { ConsumeKeepsLog(s, a); }
  }

  lemma StaysAsked(s: State, a: Action, n: nat)
    requires Enabled(s, a) && Asked(s, n)
    ensures Asked(Step(s, a), n)
  {
    LogsGrow(s, a);
    var i :| n <= i < |s.log.replies| && i < |s.log.requests| && AskedAt(s, i);
    assert AskedAt(Step(s, a), i);
  }

  lemma RecordedIsAsked(s: State, reply: Reply, n: nat)
    requires RepliesInv(s) && s.fetch.ErrorReply? && n < |s.log.replies|
    ensures Asked(UpdateStep(s, reply), n)
  {
    assert AskedAt(UpdateStep(s, reply), |s.log.replies| - 1);
  }

  lemma FetchKeepsAsking(s: State, reply: Reply, n: nat, results: seq<Option<Err>>)
    requires ChannelInv(s) && RepliesInv(s) && Enabled(s, Fetch(reply)) && Asking(s, n, results) && !s.consumer.Idle?
    ensures Asking(Step(s, Fetch(reply)), n, results)
  {
    FetchGrows(s, reply);
    if Asked(s, n) {
      StaysAsked(s, Fetch(reply), n);
    } else if s.consumer.ErrorAwait? {
      if s.fetch.ErrorReply? { RecordedIsAsked(s, reply, n); }
    }
  }

  lemma StepKeepsAsking(s: State, a: Action, n: nat, results: seq<Option<Err>>)
    requires ChannelInv(s) && RepliesInv(s) && Enabled(s, a) && Asking(s, n, results) && !s.consumer.Idle?
    ensures Asking(Step(s, a), n, results)
  {
    if a.Fetch? {
      FetchKeepsAsking(s, a.reply, n, results);
    } else {
      if Asked(s, n) { StaysAsked(s, a, n); }
    }
  }

  lemma {:induction false} RunKeepsAsking(s: State, acts: seq<Action>, n: nat, results: seq<Option<Err>>)
    requires Inv(s) && Run(s, acts) && Busy(s, acts) && Asking(s, n, results)
    ensures Asking(Exec(s, acts), n, results)
    decreases |acts|
  {
    if acts != [] {
      StepKeepsInv(s, acts[0]);
      StepKeepsAsking(s, acts[0], n, results);
      RunKeepsAsking(Step(s, acts[0]), acts[1..], n, results);
    }
  }

  /** While nothing is about to be recorded, nil means that no reply carried an error. */
  lemma NoErrorMissed(s: State, i: nat)
    requires ErrInv(s) && RepliesInv(s) && s.err.None? && i < |s.log.replies|
    requires i < |s.log.replies| - 1 || Answering(s.fetch).None?
    ensures ErrorIn(s.log.replies[i]) == []
  {
    ErrorsAddUp(s.log.replies, i);
  }

  /** Outside an Error call the goroutine is not recording an answer to IteratorError. */
  lemma NoErrorAnswerMissed(s: State, i: nat)
    requires ErrInv(s) && RepliesInv(s) && ChannelInv(s) && s.consumer.Idle?
    requires s.err.None? && i < |s.log.replies| && s.log.requests[i] == ErrorRequest
    ensures s.log.replies[i] == Status(None)
  {
    NoErrorMissed(s, i);
  }

  /** What a nil result says about the server, when the call began after n requests. */
  ghost predicate NilWasEarned(t: State, n: nat) {
    && |t.log.replies| <= |t.log.requests|
    && (t.ch.onClosed
        || exists i :: n <= i < |t.log.replies| && t.log.requests[i] == ErrorRequest && t.log.replies[i] == Status(None))
    && (forall i :: 0 <= i < |t.log.replies| && t.log.requests[i] == ErrorRequest ==> t.log.replies[i] == Status(None))
  }

  lemma NilIsEarned(t: State, n: nat)
    requires ErrInv(t) && RepliesInv(t) && ChannelInv(t) && t.consumer.Idle? && t.err.None?
    requires t.ch.onClosed || Asked(t, n)
    ensures NilWasEarned(t, n)
  {
    forall i | 0 <= i < |t.log.replies| && t.log.requests[i] == ErrorRequest
      ensures t.log.replies[i] == Status(None)
    {
      NoErrorAnswerMissed(t, i);
    }
    if !t.ch.onClosed {
      var i :| n <= i < |t.log.replies| && i < |t.log.requests| && AskedAt(t, i);
      assert t.log.requests[i] == ErrorRequest;
    }
  }

  /** Error gives the error known when it returns.  Nil is given only when the goroutine is
      gone, or after a request of this very call was answered without an error; and then
      no IteratorError was ever answered with one. */
  lemma ErrorAsksTheServer(s: State, acts: seq<Action>)
    requires Reachable(s) && s.consumer.ErrorEntry? && Run(s, acts) && Busy(s, acts) && Exec(s, acts).consumer.Idle?
    ensures var t := Exec(s, acts);
            t.log.results == s.log.results + [t.err] && (t.err.None? ==> NilWasEarned(t, |s.log.requests|))
  {
    var t := Exec(s, acts);
    ReachableInv(s);
    RunKeepsAsking(s, acts, |s.log.requests|, s.log.results);
    RunKeepsInv(s, acts);
    if t.err.None? { NilIsEarned(t, |s.log.requests|); }
  }

  /** An error that is known already is given at once, and nothing is sent. */
  lemma KnownErrorIsGivenAtOnce(s: State, call: Call)
    requires s.consumer.ErrorEntry? && s.err.Some?
    ensures var t := Step(s, Consume(call));
            t.consumer.Idle? && t.log.results == s.log.results + [s.err] && t.log.requests == s.log.requests
  {
  }

  /** A database that was closed stays closed. */
  lemma {:induction false} ClosedForGood(s: State, acts: seq<Action>)
    requires Run(s, acts) && (s.dbClosed || CloseDatabase in acts)
    ensures Exec(s, acts).dbClosed
    decreases |acts|
  {
    if acts != [] {
      ClosedForGood(Step(s, acts[0]), acts[1..]);
    }
  }

  /** No channel is closed twice (Go would panic), wherever a run has got to. */
  lemma ChannelsCloseOnce(s: State)
    requires Reachable(s)
    ensures s.fetch.Notify? ==> !s.ch.onUpdated
    ensures s.fetch.CloseFetched? ==> !s.ch.fetchedData
    ensures s.fetch.CloseClosed? ==> !s.ch.onClosed
    ensures s.consumer.CloseEntry? && !s.onceDone ==> !s.ch.onClose
  {
    ReachableInv(s);
  }

  /** No answered error is lost and none is made up: err is nil exactly as long as every
      answered RPC error is one about to be recorded and every Next that found the
      database closed is about to record that; otherwise it is the first RPC error, or
      ErrClosed after such a Next. */
  lemma ErrorsAreReported(s: State)
    requires Reachable(s)
    ensures s.err.None? <==> s.log.failures == Unrecorded(s.fetch) && s.log.foundClosed == Marking(s.consumer)
    ensures s.err.Some? ==>
              || (s.log.foundClosed > 0 && s.dbClosed && s.err.value == ErrClosed)
              || (s.log.failures != [] && s.err.value == s.log.failures[0])
  {
    ReachableInv(s);
  }

  /** A Next that starts on a closed database leaves an error behind, whatever
      happens before it returns. */
  lemma {:induction false} ClosedDatabaseIsReported(s: State, acts: seq<Action>)
    requires Run(s, acts) && s.dbClosed
    requires s.consumer.NextEntry? || s.consumer.NextMarkClosed? || s.err.Some?
    ensures var t := Exec(s, acts);
            t.consumer.NextEntry? || t.consumer.NextMarkClosed? || t.err.Some?
    decreases |acts|
  {
    if acts != [] {
      ClosedDatabaseIsReported(Step(s, acts[0]), acts[1..]);
    }
  }

  /** err, once set, keeps its value for the rest of every run. */
  lemma {:induction false} ErrNeverChanges(s: State, acts: seq<Action>)
    requires Run(s, acts) && s.err.Some?
    ensures Exec(s, acts).err == s.err
    decreases |acts|
  {
    if acts != [] {
      ErrNeverChanges(Step(s, acts[0]), acts[1..]);
    }
  }

  lemma QuietStep(s: State, a: Action)
    requires RequestsInv(s) && ChannelInv(s) && Enabled(s, a) && s.log.closeReturns > 0
    ensures var t := Step(s, a);
            t.log.requests == s.log.requests && t.log.delivered == s.log.delivered && t.log.closeReturns >= s.log.closeReturns
  {
  }

  /** After a Close has returned, no request is ever sent and no batch delivered,
      whatever else the consumer calls: repeated Close releases nothing twice. */
  lemma {:induction false} QuietAfterClose(s: State, acts: seq<Action>)
    requires Inv(s) && Run(s, acts) && s.log.closeReturns > 0
    ensures var t := Exec(s, acts);
            && t.log.requests == s.log.requests
            && t.log.delivered == s.log.delivered
            && t.log.closeReturns >= s.log.closeReturns
    decreases |acts|
  {
    if acts != [] {
      StepKeepsInv(s, acts[0]);
      QuietStep(s, acts[0]);
      QuietAfterClose(Step(s, acts[0]), acts[1..]);
    }
  }

  // ----------------------------------------------------------------- delivery

  /** What Key and Value show of a sequence of batches: the head of each. */
  function Heads(bs: seq<Batch>): seq<Entry> {
    if bs == [] then [] else Head(bs[0]) + Heads(bs[1..])
  }

  function Head(b: Batch): seq<Entry> {
    if b == [] then [] else [b[0]]
  }

  function Flatten(bs: seq<Batch>): seq<Entry> {
    if bs == [] then [] else bs[0] + Flatten(bs[1..])
  }

  lemma {:induction false} HeadsOfConcat(a: seq<Batch>, b: seq<Batch>)
    ensures Heads(a + b) == Heads(a) + Heads(b)
  {
    if a == [] {
      assert a + b == b;
    } else {
      assert (a + b)[0] == a[0] && (a + b)[1..] == a[1..] + b;
      calc {
        Heads(a + b);
        Head(a[0]) + Heads(a[1..] + b);
        { HeadsOfConcat(a[1..], b); }
        Head(a[0]) + (Heads(a[1..]) + Heads(b));
        (Head(a[0]) + Heads(a[1..])) + Heads(b);
      }
    }
  }

  /** The heads of batches with entries are their first entries, in order. */
  lemma {:induction false} HeadsAt(bs: seq<Batch>)
    requires forall i :: 0 <= i < |bs| ==> bs[i] != []
    ensures |Heads(bs)| == |bs| && forall i :: 0 <= i < |bs| ==> Heads(bs)[i] == bs[i][0]
  {
    if bs != [] {
      HeadsAt(bs[1..]);
      forall i | 0 < i < |bs| ensures Heads(bs)[i] == bs[i][0] {
        assert Heads(bs)[i] == Heads(bs[1..])[i - 1] && bs[i] == bs[1..][i - 1];
      }
    }
  }

  lemma {:induction false} NoHeads(bs: seq<Batch>)
    requires forall i :: 0 <= i < |bs| ==> bs[i] == []
    ensures Heads(bs) == []
  {
    if bs != [] {
      NoHeads(bs[1..]);
    }
  }

  lemma ExposedHeads(s: State)
    requires ExposureInv(s)
    ensures Heads(s.log.exposed) == Heads(s.log.delivered)
  {
    var n := |s.log.delivered|;
    assert s.log.exposed == s.log.delivered + s.log.exposed[n..];
    HeadsOfConcat(s.log.delivered, s.log.exposed[n..]);
    NoHeads(s.log.exposed[n..]);
  }

  /** Batches reach the consumer in the server's order, each once and with at most
      one left behind; none is left behind when the channel closes with no error
      recorded and no Close called, and then the server had run out.  What Key and
      Value show over the run is exactly the heads of the delivered batches. */
  lemma DeliveryInOrder(s: State)
    requires Reachable(s)
    ensures s.log.delivered <= s.log.served
    ensures |s.log.served| <= |s.log.delivered| + 1
    ensures (s.ch.fetchedData && s.err.None? && !s.ch.onClose ==>
                  s.log.exhausted && s.log.delivered == s.log.served)
    ensures Heads(s.log.exposed) == Heads(s.log.delivered)
  {
    ReachableInv(s);
    ExposedHeads(s);
  }

  lemma {:induction false} FlattenIsLong(bs: seq<Batch>)
    requires forall i :: 0 <= i < |bs| ==> bs[i] != []
    ensures |Flatten(bs)| >= |bs| == |Heads(bs)|
    ensures |Flatten(bs)| == |bs| ==> forall i :: 0 <= i < |bs| ==> |bs[i]| == 1
  {
    if bs != [] {
      FlattenIsLong(bs[1..]);
      if |Flatten(bs)| == |bs| {
        forall i | 0 <= i < |bs| ensures |bs[i]| == 1 {
          if i > 0 { assert bs[i] == bs[1..][i - 1]; }
        }
      }
    }
  }

  lemma {:induction false} SingletonsFlatten(bs: seq<Batch>)
    requires forall i :: 0 <= i < |bs| ==> |bs[i]| == 1
    ensures Heads(bs) == Flatten(bs)
  {
    if bs != [] {
      SingletonsFlatten(bs[1..]);
    }
  }

  /** The consumer sees every entry of the batches it received exactly when each
      of them has a single entry: Next drops the tail of a longer batch. */
  lemma AllEntriesSeenIff(s: State)
    requires Reachable(s)
    ensures Heads(s.log.exposed) == Flatten(s.log.delivered) <==>
            forall i :: 0 <= i < |s.log.delivered| ==> |s.log.delivered[i]| == 1
  {
    ReachableInv(s);
    DeliveryInOrder(s);
    forall i | 0 <= i < |s.log.delivered| ensures s.log.delivered[i] != [] {
      assert s.log.delivered[i] == s.log.served[i];
    }
    FlattenIsLong(s.log.delivered);
    if forall i :: 0 <= i < |s.log.delivered| ==> |s.log.delivered[i]| == 1 {
      SingletonsFlatten(s.log.delivered);
    }
  }

  // ----------------------------------------------------------------- liveness

  /** How many steps the goroutine can still take on its own. */
  function Rank(pc: FetchPc): nat {
    match pc
    case CallError(_) => 12
    case AwaitError(_) => 11
    case ErrorReply(_, _) => 10
    case Notify(_) => 9
    case CallNext => 8
    case AwaitNext => 7
    case NextFailed(_) => 6
    case Offer(_) => 6
    case CallRelease => 5
    case AwaitRelease => 4
    case ReleaseReply(_) => 3
    case CloseFetched => 2
    case CloseClosed => 1
    case Exited => 0
  }

  /** How many of its own steps the consumer still has before its call returns. */
  function Stage(pc: ConsumerPc): nat {
    match pc
    case CloseEntry => 8
    case CloseAwait => 7
    case ErrorEntry(_) => 6
    case ErrorSend(_) => 5
    case ErrorAwait(_) => 4
    case ErrorReread(_) => 3
    case NextEntry => 4
    case NextMarkClosed => 3
    case NextShift => 2
    case NextReceive => 1
    case Idle => 0
  }

  function Measure(s: State): nat {
    13 * Stage(s.consumer) + Rank(s.fetch)
  }

  /** No deadlock: while the consumer is inside a call, some action of the two
      threads is enabled (an outstanding RPC counts as able to return). */
  lemma CallNeverStuck(s: State)
    requires ChannelInv(s) && !s.consumer.Idle?
    ensures exists a :: Enabled(s, a) && !a.CloseDatabase?
  {
    var fetchOnly := Fetch(if s.fetch.AwaitNext? then Data([]) else Status(None));
    if Enabled(s, fetchOnly) {
    } else if Enabled(s, Consume(CallIterNext)) {
    } else if s.consumer.NextReceive? {
      assert Enabled(s, HandOver);
    } else {
      assert Enabled(s, RequestUpdate);
    }
  }

  lemma FetchDescends(s: State, reply: Reply)
    requires Enabled(s, Fetch(reply))
    ensures Rank(Step(s, Fetch(reply)).fetch) < Rank(s.fetch)
    ensures Step(s, Fetch(reply)).consumer == s.consumer
  {
  }

  /** Every action of the two threads inside a call brings its return closer. */
  lemma CallAdvances(s: State, a: Action)
    requires ChannelInv(s) && !s.consumer.Idle? && Enabled(s, a) && !a.CloseDatabase?
    ensures Measure(Step(s, a)) < Measure(s)
  {
    if a.Fetch? { FetchDescends(s, a.reply); }
  }

  /** The consumer is inside a call in every state of the run but perhaps the last. */
  ghost predicate Busy(s: State, acts: seq<Action>)
    requires Run(s, acts)
    decreases |acts|
  {
    acts == [] || (!s.consumer.Idle? && Busy(Step(s, acts[0]), acts[1..]))
  }

  function ThreadSteps(acts: seq<Action>): nat {
    if acts == [] then 0 else (if acts[0].CloseDatabase? then 0 else 1) + ThreadSteps(acts[1..])
  }

  lemma {:induction false} BusyRunIsBounded(s: State, acts: seq<Action>)
    requires Inv(s) && Run(s, acts) && Busy(s, acts)
    ensures ThreadSteps(acts) + Measure(Exec(s, acts)) <= Measure(s)
    decreases |acts|
  {
    if acts != [] {
      StepKeepsInv(s, acts[0]);
      if acts[0] != CloseDatabase {
        CallAdvances(s, acts[0]);
      }
      BusyRunIsBounded(Step(s, acts[0]), acts[1..]);
    }
  }

  /** Next, Error and Close always return: from any reachable state, under every
      interleaving, the two threads take at most 116 steps before the consumer's
      call is over, and until then one of them can move. */
  lemma EveryCallReturns(s: State, acts: seq<Action>)
    requires Reachable(s) && Run(s, acts) && Busy(s, acts)
    ensures ThreadSteps(acts) <= 116
    ensures Exec(s, acts).consumer.Idle? || exists a :: Enabled(Exec(s, acts), a) && !a.CloseDatabase?
  {
    ReachableInv(s);
    BusyRunIsBounded(s, acts);
    MeasureBound(s);
    RunKeepsChannels(s, acts);
    if !Exec(s, acts).consumer.Idle? {
      CallNeverStuck(Exec(s, acts));
    }
  }

  lemma MeasureBound(s: State)
    ensures Measure(s) <= 116
  {
  }

  lemma RunKeepsChannels(s: State, acts: seq<Action>)
    requires Inv(s) && Run(s, acts)
    ensures ChannelInv(Exec(s, acts))
  {
    RunKeepsInv(s, acts);
  }
}
