/**
 The delivery protocol of transport.go as a step system.

 Every atomic, lock or channel operation of `enqueue`, `Flush`, `Shutdown`, `shutdownExporter`
 and `run` is one step, so any interleaving of any number of callers is a sequence of `Action`s.
 `managedExporter` is the general machine; `HTTPTransport` is the same machine with no lifecycle
 hooks and no early look at the `stopped` channel (see `HttpConfig`).
 */
module Transport {
  import opened Prelude

  /** What is fixed when the transport is built. */
  datatype Config = Config(
    capacity: nat,          // cap(t.queue)
    usable: bool,           // exporter != nil, or key != ""
    peeksStopped: bool,     // Shutdown looks at `stopped` before taking the lock
    flushHook: bool,        // the exporter implements ExporterFlusher
    shutdownHook: bool      // the exporter implements ExporterShutdown
  )

  predicate HttpConfig(cfg: Config) {
    !cfg.peeksStopped && !cfg.flushHook && !cfg.shutdownHook
  }

  /** A batch; `routable` is false for an HTTP batch whose url is empty. */
  datatype Batch = Batch(tag: int, routable: bool)

  datatype Settlement = Settlement(batch: Batch, ok: bool)

  /** State of a sync.Once. */
  datatype Once = Fresh | Running(runner: nat) | Finished

  /** Program counter of the worker goroutine `run`. */
  datatype WorkerPc =
    | Selecting
    | Received(batch: Batch)               // before inFlight.Store(1)
    | Exporting(batch: Batch)              // inside export
    | Exported(batch: Batch, ok: bool)     // before delivered.Add or failed.Add
    | Clearing                             // before inFlight.Store(0)
    | Releasing                            // before pending.Add(-1)
    | Stopping                             // took <-done, before the deferred close(stopped)
    | Stopped

  datatype Role = Sender(batch: Batch) | Flusher | Stopper

  /** The batch of a call to enqueue; the other calls carry none. */
  function CarriedBy(role: Role): Batch {
    if role.Sender? then role.batch else Batch(0, false)
  }

  /** Program counter of a caller: the operation it performs next. */
  datatype Pc =
    // enqueue
    | SendLock                  // acceptMu.Lock
    | SendCheck                 // closed.Load
    | SendReject                // dropped.Add(1) after the check failed
    | SendReserve               // pending.Add(1)
    | SendPush                  // select on the queue
    | SendCount                 // accepted.Add(1)
    | SendUndo                  // pending.Add(-1)
    | SendDrop                  // dropped.Add(1) after the queue was full
    | SendUnlock(sent: bool)    // deferred Unlock
    // Shutdown, up to its Flush
    | StopPeek                  // select on stopped, with default
    | StopLock
    | StopClose                 // closed.Store(true)
    | StopUnlock
    // Flush
    | DrainPoll                 // pending.Load
    | DrainWait                 // select on ctx.Done and the ticker
    | FlushCall                 // the flush hook returns, or ctx ends
    // Shutdown, after its Flush
    | StopOnce                  // stopOnce.Do
    | StopSignal                // close(done)
    | StopMark                  // stopOnce becomes done
    | AwaitStopped              // select on stopped and ctx.Done
    // shutdownExporter
    | HookOnce                  // closeOnce.Do
    | HookCall                  // the shutdown hook is started
    | HookWait                  // the hook returns, or ctx ends
    | HookStore(ok: bool)       // closeOK.Store
    | HookSignal                // close(closeDone)
    | HookMark                  // closeOnce becomes done
    | AwaitHook                 // select on closeDone and ctx.Done
    | HookRead                  // closeOK.Load
    // the call is over; a sender's result says whether its batch was accepted
    | Returned(result: bool)

  /** A call in progress. `begun` is the number of batches accepted before the call began. */
  datatype Proc = Proc(role: Role, pc: Pc, begun: nat)

  /** The fields of the transport, with the history that no step reads. */
  datatype Shared = Shared(
    queue: seq<Batch>,
    lock: Option<nat>,       // acceptMu and its holder
    closed: bool,
    pending: int,
    inFlight: int,
    accepted: int,
    delivered: int,
    dropped: int,
    failed: int,
    done: bool,              // the channel is closed
    stopped: bool,
    stopOnce: Once,
    closeOnce: Once,
    closeDone: bool,
    closeOK: bool,
    worker: WorkerPc,
    pushed: seq<Batch>,      // history: accepted batches, in order
    settled: seq<Settlement>,
    hookCalls: nat,
    hookResult: Option<bool>
  )

  /** The whole system: the transport and every call ever made on it. */
  datatype State = State(sh: Shared, procs: map<nat, Proc>)

  /** newManagedExporter: the worker is started, nothing has been called. */
  function Init(): State {
    State(Shared([], None, false, 0, 0, 0, 0, 0, 0, false, false, Fresh, Fresh, false, true,
                 Selecting, [], [], 0, None), map[])
  }

  /** What a step of a caller leaves: the transport and the caller's next operation. */
  datatype Moved = Moved(sh: Shared, pc: Pc)

  /** `choice` settles what the step leaves open: a select with two ready cases, the outcome of an
      export or a hook, or the end of a context (false). */
  datatype Action = Call(id: nat, role: Role) | Work(choice: bool) | Step(id: nat, choice: bool)

  function FirstPc(cfg: Config, role: Role): Pc {
    match role
    case Sender(_) => SendLock
    case Flusher => DrainPoll
    case Stopper => if cfg.peeksStopped then StopPeek else StopLock
  }

  /** Where a drained Flush goes on: back to its caller, or on with Shutdown. */
  function AfterFlush(role: Role): Pc {
    if role.Stopper? then StopOnce else Returned(true)
  }

  /** Where Shutdown goes once the worker has stopped. */
  function AfterStopped(cfg: Config): Pc {
    if cfg.shutdownHook then HookOnce else Returned(true)
  }

  predicate WorkEnabled(sh: Shared, choice: bool) {
    match sh.worker
    case Selecting => if choice then sh.queue != [] else sh.done
    case Stopped => false
    case _ => true
  }

  predicate StepEnabled(sh: Shared, pc: Pc, choice: bool) {
    match pc
    case SendLock => sh.lock.None?
    case StopLock => sh.lock.None?
    case StopOnce => !sh.stopOnce.Running?
    case AwaitStopped => choice ==> sh.stopped
    case HookOnce => !sh.closeOnce.Running?
    case AwaitHook => choice ==> sh.closeDone
    case Returned(_) => false
    case _ => true
  }

  predicate Enabled(s: State, a: Action) {
    match a
    case Call(id, _) => id !in s.procs
    case Work(choice) => WorkEnabled(s.sh, choice)
    case Step(id, choice) => id in s.procs && StepEnabled(s.sh, s.procs[id].pc, choice)
  }

  /** The worker receives the oldest batch. */
  function Taken(sh: Shared): Shared
    requires sh.queue != []
  {
    sh.(worker := Received(sh.queue[0]), queue := sh.queue[1..])
  }

  /** The worker counts a batch as delivered or failed. */
  function Counted(sh: Shared, b: Batch, ok: bool): Shared {
    sh.(worker := Clearing, settled := sh.settled + [Settlement(b, ok)],
        delivered := sh.delivered + (if ok then 1 else 0), failed := sh.failed + (if ok then 0 else 1))
  }

  /** A step of `run` and `export`. */
  function Worked(sh: Shared, choice: bool): Shared
    requires WorkEnabled(sh, choice)
  {
    match sh.worker
    case Selecting => if choice then Taken(sh) else sh.(worker := Stopping)
    case Received(b) => sh.(worker := Exporting(b), inFlight := 1)
    case Exporting(b) => sh.(worker := Exported(b, choice))
    case Exported(b, ok) => Counted(sh, b, ok)
    case Clearing => sh.(worker := Releasing, inFlight := 0)
    case Releasing => sh.(worker := Selecting, pending := sh.pending - 1)
    case Stopping => sh.(worker := Stopped, stopped := true)
  }

  // Program counters by the source function they belong to.

  predicate InEnqueue(pc: Pc) {
    pc.SendLock? || pc.SendCheck? || pc.SendReject? || pc.SendReserve? || pc.SendPush? || pc.SendCount?
    || pc.SendUndo? || pc.SendDrop? || pc.SendUnlock?
  }

  predicate InFlush(pc: Pc) {
    pc.DrainPoll? || pc.DrainWait? || pc.FlushCall?
  }

  predicate InShutdown(pc: Pc) {
    pc.StopPeek? || pc.StopLock? || pc.StopClose? || pc.StopUnlock?
    || pc.StopOnce? || pc.StopSignal? || pc.StopMark? || pc.AwaitStopped?
  }

  predicate InHook(pc: Pc) {
    pc.HookOnce? || pc.HookCall? || pc.HookWait? || pc.HookStore? || pc.HookSignal? || pc.HookMark?
    || pc.AwaitHook? || pc.HookRead?
  }

  /** A step of `enqueue`. */
  function EnqueueStep(cfg: Config, sh: Shared, id: nat, batch: Batch, pc: Pc): Moved
    requires InEnqueue(pc)
  {
    match pc
    case SendLock => Moved(sh.(lock := Some(id)), SendCheck)
    case SendCheck => Moved(sh, if sh.closed || !cfg.usable || !batch.routable then SendReject else SendReserve)
    case SendReject => Moved(sh.(dropped := sh.dropped + 1), SendUnlock(false))
    case SendReserve => Moved(sh.(pending := sh.pending + 1), SendPush)
    case SendPush =>
      if |sh.queue| < cfg.capacity
      then Moved(sh.(queue := sh.queue + [batch], pushed := sh.pushed + [batch]), SendCount)
      else Moved(sh, SendUndo)
    case SendCount => Moved(sh.(accepted := sh.accepted + 1), SendUnlock(true))
    case SendUndo => Moved(sh.(pending := sh.pending - 1), SendDrop)
    case SendDrop => Moved(sh.(dropped := sh.dropped + 1), SendUnlock(false))
    case SendUnlock(sent) => Moved(sh.(lock := None), Returned(sent))
  }

  /** A step of `Flush`, called alone or by `Shutdown`. */
  function FlushStep(cfg: Config, sh: Shared, role: Role, pc: Pc, choice: bool): Moved
    requires InFlush(pc)
  {
    match pc
    case DrainPoll =>
      Moved(sh, if sh.pending != 0 then DrainWait else if cfg.flushHook then FlushCall else AfterFlush(role))
    case DrainWait => Moved(sh, if choice then DrainPoll else Returned(false))
    case FlushCall => Moved(sh, if choice then AfterFlush(role) else Returned(false))
  }

  /** A step of `Shutdown` itself. */
  function ShutdownStep(cfg: Config, sh: Shared, id: nat, pc: Pc, choice: bool): Moved
    requires InShutdown(pc)
  {
    match pc
    case StopPeek => Moved(sh, if sh.stopped then AfterStopped(cfg) else StopLock)
    case StopLock => Moved(sh.(lock := Some(id)), StopClose)
    case StopClose => Moved(sh.(closed := true), StopUnlock)
    case StopUnlock => Moved(sh.(lock := None), DrainPoll)
    case StopOnce =>
      if sh.stopOnce.Fresh? then Moved(sh.(stopOnce := Running(id)), StopSignal) else Moved(sh, AwaitStopped)
    case StopSignal => Moved(sh.(done := true), StopMark)
    case StopMark => Moved(sh.(stopOnce := Finished), AwaitStopped)
    case AwaitStopped => Moved(sh, if choice then AfterStopped(cfg) else Returned(false))
  }

  /** A step of `shutdownExporter`. */
  function HookStep(sh: Shared, id: nat, pc: Pc, choice: bool): Moved
    requires InHook(pc)
  {
    match pc
    case HookOnce =>
      if sh.closeOnce.Fresh? then Moved(sh.(closeOnce := Running(id)), HookCall) else Moved(sh, AwaitHook)
    case HookCall => Moved(sh.(hookCalls := sh.hookCalls + 1), HookWait)
    case HookWait => Moved(sh.(hookResult := Some(choice)), HookStore(choice))
    case HookStore(ok) => Moved(sh.(closeOK := ok), HookSignal)
    case HookSignal => Moved(sh.(closeDone := true), HookMark)
    case HookMark => Moved(sh.(closeOnce := Finished), AwaitHook)
    case AwaitHook => Moved(sh, if choice then HookRead else Returned(false))
    case HookRead => Moved(sh, Returned(sh.closeOK))
  }

  /** The step of any caller. */
  function CallerStep(cfg: Config, sh: Shared, id: nat, p: Proc, choice: bool): Moved
    requires StepEnabled(sh, p.pc, choice)
  {
    if InEnqueue(p.pc) then EnqueueStep(cfg, sh, id, CarriedBy(p.role), p.pc)
    else if InFlush(p.pc) then FlushStep(cfg, sh, p.role, p.pc, choice)
    else if InShutdown(p.pc) then ShutdownStep(cfg, sh, id, p.pc, choice)
    else HookStep(sh, id, p.pc, choice)
  }

  function Apply(cfg: Config, s: State, a: Action): State
    requires Enabled(s, a)
  {
    match a
    case Call(id, role) => State(s.sh, s.procs[id := Proc(role, FirstPc(cfg, role), |s.sh.pushed|)])
    case Work(choice) => State(Worked(s.sh, choice), s.procs)
    case Step(id, choice) =>
      var p := s.procs[id];
      var m := CallerStep(cfg, s.sh, id, p, choice);
      State(m.sh, s.procs[id := p.(pc := m.pc)])
  }

  /** Every action of the run is enabled when its turn comes. */
  predicate Runs(cfg: Config, s: State, run: seq<Action>)
    decreases |run|
  {
    run == [] || (Enabled(s, run[0]) && Runs(cfg, Apply(cfg, s, run[0]), run[1..]))
  }

  /** The state a run ends in. */
  function After(cfg: Config, s: State, run: seq<Action>): State
    requires Runs(cfg, s, run)
    decreases |run|
  {
    if run == [] then s else After(cfg, Apply(cfg, s, run[0]), run[1..])
  }

  ghost predicate Reachable(cfg: Config, s: State) {
    exists run :: Runs(cfg, Init(), run) && After(cfg, Init(), run) == s
  }
}
