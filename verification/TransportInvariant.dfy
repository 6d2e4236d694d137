/** The inductive invariant of the delivery protocol, kept by every single step of every run. */
module TransportInvariant {
  import opened Prelude
  import opened Transport

  // ---------- vocabulary ----------

  /** Program counters at which the caller holds acceptMu. */
  predicate Locks(pc: Pc) {
    (InEnqueue(pc) && !pc.SendLock?) || pc.StopClose? || pc.StopUnlock?
  }

  /** A sender that has seen `closed` false and may still push or count. */
  predicate PastCheck(pc: Pc) {
    pc.SendReserve? || pc.SendPush? || pc.SendCount? || pc.SendUndo?
  }

  /** The part of Shutdown before its Flush. */
  predicate Closing(pc: Pc) {
    pc.StopPeek? || pc.StopLock? || pc.StopClose? || pc.StopUnlock?
  }

  /** The first half of shutdownExporter. */
  predicate Calling(pc: Pc) {
    pc.HookOnce? || pc.HookCall? || pc.HookWait? || pc.HookStore?
  }

  /** The part of enqueue before its push. */
  predicate Checking(pc: Pc) {
    pc.SendLock? || pc.SendCheck? || pc.SendReject? || pc.SendReserve?
  }

  /** The part of Shutdown after its Flush and before shutdownExporter. */
  predicate Signalling(pc: Pc) {
    pc.StopOnce? || pc.StopSignal? || pc.StopMark? || pc.AwaitStopped?
  }

  /** The caller that runs the function given to stopOnce. */
  predicate StopRunner(pc: Pc) {
    pc.StopSignal? || pc.StopMark?
  }

  /** The caller that runs the function given to closeOnce. */
  predicate HookRunner(pc: Pc) {
    pc.HookCall? || pc.HookWait? || pc.HookStore? || pc.HookSignal? || pc.HookMark?
  }

  /** The batch the worker holds and has not yet counted as delivered or failed. */
  function Held(w: WorkerPc): seq<Batch> {
    if w.Received? || w.Exporting? || w.Exported? then [w.batch] else []
  }

  /** 1 while the worker has taken a batch it has not yet un-counted from `pending`. */
  function Ticket(w: WorkerPc): nat {
    if w.Selecting? || w.Stopping? || w.Stopped? then 0 else 1
  }

  /** 1 for a lock holder that has raised `pending` but neither pushed nor undone. */
  function Reserved(pc: Pc): nat {
    if pc.SendPush? || pc.SendUndo? then 1 else 0
  }

  /** 1 for a lock holder that has pushed but not yet raised `accepted`. */
  function Uncounted(pc: Pc): nat {
    if pc.SendCount? then 1 else 0
  }

  /** What the holder of acceptMu does next; a finished call when it is free. */
  function HolderPc(s: State): Pc {
    if s.sh.lock.Some? && s.sh.lock.value in s.procs then s.procs[s.sh.lock.value].pc else Returned(false)
  }

  function Oks(settled: seq<Settlement>): nat {
    if settled == [] then 0
    else Oks(settled[..|settled| - 1]) + if settled[|settled| - 1].ok then 1 else 0
  }

  /** The batches settled so far, in the order in which they were settled. */
  function Batches(settled: seq<Settlement>): (r: seq<Batch>)
    ensures |r| == |settled|
    ensures forall i :: 0 <= i < |r| ==> r[i] == settled[i].batch
  {
    if settled == [] then []
    else Batches(settled[..|settled| - 1]) + [settled[|settled| - 1].batch]
  }

  /** Closed with nothing left to do: the state that Shutdown waits for and that never ends. */
  predicate Drained(sh: Shared) {
    sh.closed && sh.queue == [] && Ticket(sh.worker) == 0
  }

  // ---------- the invariant ----------

  /** Batches leave in the order they were accepted, and none is lost, doubled or retried. */
  predicate InOrder(sh: Shared) {
    sh.pushed == Batches(sh.settled) + (Held(sh.worker) + sh.queue)
  }

  /** `pending` is what is queued, what the worker has taken, and what the lock holder has announced. */
  predicate PendingLaw(sh: Shared, holder: Pc) {
    sh.pending == |sh.queue| + Ticket(sh.worker) + Reserved(holder)
  }

  predicate AcceptedLaw(sh: Shared, holder: Pc) {
    sh.accepted + Uncounted(holder) == |sh.pushed|
  }

  predicate WorkerLaw(cfg: Config, sh: Shared) {
    && sh.inFlight == (if sh.worker.Exporting? || sh.worker.Exported? || sh.worker.Clearing? then 1 else 0)
    && |sh.queue| <= cfg.capacity
  }

  /** The conservation laws; `holder` is what the holder of acceptMu does next. */
  predicate Conserved(cfg: Config, sh: Shared, holder: Pc) {
    PendingLaw(sh, holder) && AcceptedLaw(sh, holder) && WorkerLaw(cfg, sh)
  }

  /** The totals count the settlements. */
  predicate Tallied(sh: Shared) {
    sh.delivered == Oks(sh.settled) && sh.delivered + sh.failed == |sh.settled|
  }

  predicate ChannelsAgree(cfg: Config, sh: Shared) {
    && (sh.worker.Stopping? || sh.worker.Stopped? ==> sh.done)
    && (sh.stopped <==> sh.worker.Stopped?)
    && (sh.done ==> Drained(sh) && !sh.stopOnce.Fresh?)
    && (sh.stopOnce.Finished? ==> sh.done)
    && (sh.closeOnce.Fresh? ==> sh.hookCalls == 0 && sh.hookResult.None? && sh.closeOK && !sh.closeDone)
    && (sh.closeOnce.Finished? ==> sh.closeDone)
    && (!sh.closeOnce.Fresh? ==> sh.stopped && cfg.shutdownHook)
    && (sh.closeDone ==> sh.hookResult == Some(sh.closeOK))
    && (sh.hookResult.Some? ==> sh.hookCalls == 1)
    && sh.hookCalls <= 1
  }

  /** A taken lock and a running Once belong to a caller that is at the matching place. */
  predicate Owned(s: State) {
    && (s.sh.lock.Some? ==> s.sh.lock.value in s.procs && Locks(s.procs[s.sh.lock.value].pc))
    && (s.sh.stopOnce.Running? ==>
          s.sh.stopOnce.runner in s.procs && StopRunner(s.procs[s.sh.stopOnce.runner].pc))
    && (s.sh.closeOnce.Running? ==>
          s.sh.closeOnce.runner in s.procs && HookRunner(s.procs[s.sh.closeOnce.runner].pc))
  }

  predicate RoleClause(cfg: Config, p: Proc) {
    && (InEnqueue(p.pc) ==> p.role.Sender?)
    && (InFlush(p.pc) ==> !p.role.Sender?)
    && (InShutdown(p.pc) || InHook(p.pc) ==> p.role.Stopper?)
    && (InHook(p.pc) ==> cfg.shutdownHook)
    && (PastCheck(p.pc) ==> cfg.usable && CarriedBy(p.role).routable)
  }

  predicate LockClause(sh: Shared, id: nat, p: Proc) {
    && (Locks(p.pc) ==> sh.lock == Some(id))
    && (PastCheck(p.pc) ==> !sh.closed)
  }

  predicate StopClause(sh: Shared, id: nat, p: Proc) {
    && (p.role.Stopper? && (p.pc.StopUnlock? || InFlush(p.pc)) ==> sh.closed)
    && (p.role.Stopper? && (p.pc.FlushCall? || Signalling(p.pc)) ==> Drained(sh))
    && (StopRunner(p.pc) ==> sh.stopOnce == Running(id) && (sh.done <==> p.pc.StopMark?))
    && (p.pc.AwaitStopped? ==> sh.done)
  }

  predicate HookClause(cfg: Config, sh: Shared, id: nat, p: Proc) {
    && (InHook(p.pc) ==> sh.stopped)
    && (HookRunner(p.pc) ==> sh.closeOnce == Running(id) && (sh.closeDone <==> p.pc.HookMark?))
    && (p.pc.HookCall? ==> sh.hookCalls == 0)
    && (p.pc.HookWait? ==> sh.hookCalls == 1 && sh.hookResult.None?)
    && (p.pc.HookStore? ==> sh.hookResult == Some(p.pc.ok))
    && (p.pc.HookSignal? ==> sh.hookResult == Some(sh.closeOK))
    && (p.pc.AwaitHook? || p.pc.HookRead? ==> sh.closeOnce.Finished?)
    && (p.role.Stopper? && p.pc == Returned(true) ==> sh.stopped && (cfg.shutdownHook ==> sh.closeDone && sh.closeOK))
  }

  /** A flush that has seen `pending` at zero has seen every batch settled that was there at its start. */
  predicate FlushClause(sh: Shared, p: Proc) {
    && p.begun <= |sh.pushed|
    && (!p.role.Sender? && (p.pc.FlushCall? || Signalling(p.pc) || InHook(p.pc) || p.pc == Returned(true))
        ==> p.begun <= |sh.settled|)
  }

  /** What one caller's position says about the transport. */
  predicate Agrees(cfg: Config, sh: Shared, id: nat, p: Proc) {
    RoleClause(cfg, p) && LockClause(sh, id, p) && StopClause(sh, id, p) && HookClause(cfg, sh, id, p)
    && FlushClause(sh, p)
  }

  predicate SharedInv(cfg: Config, sh: Shared, holder: Pc) {
    InOrder(sh) && Tallied(sh) && Conserved(cfg, sh, holder) && ChannelsAgree(cfg, sh)
  }

  ghost predicate Inv(cfg: Config, s: State) {
    && SharedInv(cfg, s.sh, HolderPc(s))
    && Owned(s)
    && forall id :: id in s.procs ==> Agrees(cfg, s.sh, id, s.procs[id])
  }

  // ---------- the worker's steps ----------

  lemma SettlingGrows(settled: seq<Settlement>, x: Settlement)
    ensures Oks(settled + [x]) == Oks(settled) + if x.ok then 1 else 0
    ensures Batches(settled + [x]) == Batches(settled) + [x.batch]
  {
    assert (settled + [x])[..|settled|] == settled;
  }

  lemma TakenKeepsOrder(sh: Shared)
    requires InOrder(sh) && sh.worker.Selecting? && sh.queue != []
    ensures InOrder(Taken(sh))
  {
    assert [sh.queue[0]] + sh.queue[1..] == [] + sh.queue;
  }

  lemma CountedKeepsOrder(sh: Shared, b: Batch, ok: bool)
    requires InOrder(sh) && sh.worker == Exported(b, ok)
    ensures InOrder(Counted(sh, b, ok))
  {
    SettlingGrows(sh.settled, Settlement(b, ok));
    hide Batches;
    OneOver(Batches(sh.settled), b, sh.queue);
  }

  lemma OneOver(x: seq<Batch>, b: Batch, y: seq<Batch>)
    ensures (x + [b]) + ([] + y) == x + ([b] + y)
  {
  }

  lemma WorkKeepsOrder(sh: Shared, choice: bool)
    requires InOrder(sh) && WorkEnabled(sh, choice)
    ensures InOrder(Worked(sh, choice))
  {
    if sh.worker.Selecting? {
      if choice { TakenKeepsOrder(sh); }
    } else if sh.worker.Exported? {
      CountedKeepsOrder(sh, sh.worker.batch, sh.worker.ok);
    }
  }

  lemma WorkKeepsTally(sh: Shared, choice: bool)
    requires Tallied(sh) && WorkEnabled(sh, choice)
    ensures Tallied(Worked(sh, choice))
  {
    if sh.worker.Exported? { SettlingGrows(sh.settled, Settlement(sh.worker.batch, sh.worker.ok)); }
  }

  lemma SelectingKeepsPending(sh: Shared, holder: Pc, choice: bool)
    requires PendingLaw(sh, holder) && WorkEnabled(sh, choice) && sh.worker.Selecting?
    ensures PendingLaw(Worked(sh, choice), holder)
  {
  }

  lemma ExportingKeepsPending(sh: Shared, holder: Pc, choice: bool)
    requires PendingLaw(sh, holder) && (sh.worker.Received? || sh.worker.Exporting? || sh.worker.Exported?)
    ensures PendingLaw(Worked(sh, choice), holder)
  {
  }

  lemma ClearingKeepsPending(sh: Shared, holder: Pc, choice: bool)
    requires PendingLaw(sh, holder) && (sh.worker.Clearing? || sh.worker.Releasing? || sh.worker.Stopping?)
    ensures PendingLaw(Worked(sh, choice), holder)
  {
  }

  lemma WorkKeepsPending(sh: Shared, holder: Pc, choice: bool)
    requires PendingLaw(sh, holder) && WorkEnabled(sh, choice)
    ensures PendingLaw(Worked(sh, choice), holder)
  {
    hide PendingLaw, Worked;
    match sh.worker
    case Selecting => SelectingKeepsPending(sh, holder, choice);
    case Received(_) | Exporting(_) | Exported(_, _) => ExportingKeepsPending(sh, holder, choice);
    case Clearing | Releasing | Stopping => ClearingKeepsPending(sh, holder, choice);
  }

  lemma WorkKeepsInFlight(cfg: Config, sh: Shared, choice: bool)
    requires WorkerLaw(cfg, sh) && WorkEnabled(sh, choice)
    ensures WorkerLaw(cfg, Worked(sh, choice))
  {
  }

  lemma WorkKeepsChannels(cfg: Config, sh: Shared, choice: bool)
    requires ChannelsAgree(cfg, sh) && WorkEnabled(sh, choice)
    ensures ChannelsAgree(cfg, Worked(sh, choice))
  {
  }

  lemma WorkKeepsShared(cfg: Config, sh: Shared, holder: Pc, choice: bool)
    requires SharedInv(cfg, sh, holder) && WorkEnabled(sh, choice)
    ensures SharedInv(cfg, Worked(sh, choice), holder)
  {
    WorkKeepsOrder(sh, choice);
    WorkKeepsTally(sh, choice);
    WorkKeepsPending(sh, holder, choice);
    WorkKeepsInFlight(cfg, sh, choice);
    WorkKeepsChannels(cfg, sh, choice);
  }

  lemma WorkKeepsCaller(cfg: Config, sh: Shared, holder: Pc, choice: bool, j: nat, q: Proc)
    requires SharedInv(cfg, sh, holder) && WorkEnabled(sh, choice) && Agrees(cfg, sh, j, q)
    ensures Agrees(cfg, Worked(sh, choice), j, q)
  {
  }

  // ---------- the callers' steps ----------

  /** What the lock holder does after a step: the stepping caller's next operation if it has the lock. */
  function NextHolder(m: Moved, holder: Pc, id: nat): Pc {
    if m.sh.lock == Some(id) then m.pc else if m.sh.lock.None? then Returned(false) else holder
  }

  /** The lock is held by `id` exactly when its position says so. */
  predicate HolderAgrees(sh: Shared, holder: Pc, id: nat, p: Proc) {
    && (sh.lock.None? ==> holder == Returned(false))
    && (sh.lock == Some(id) ==> holder == p.pc && Locks(p.pc))
  }

  lemma EnqueueKeepsOrder(cfg: Config, sh: Shared, id: nat, batch: Batch, pc: Pc)
    requires InOrder(sh) && InEnqueue(pc)
    ensures InOrder(EnqueueStep(cfg, sh, id, batch, pc).sh)
  {
    if pc.SendPush? {
      assert Batches(sh.settled) + (Held(sh.worker) + (sh.queue + [batch]))
          == Batches(sh.settled) + (Held(sh.worker) + sh.queue) + [batch];
    }
  }

  lemma EnqueueKeepsShared(cfg: Config, sh: Shared, holder: Pc, id: nat, p: Proc)
    requires SharedInv(cfg, sh, holder) && Agrees(cfg, sh, id, p) && HolderAgrees(sh, holder, id, p)
    requires InEnqueue(p.pc) && StepEnabled(sh, p.pc, true)
    ensures var m := EnqueueStep(cfg, sh, id, CarriedBy(p.role), p.pc); SharedInv(cfg, m.sh, NextHolder(m, holder, id))
  {
    EnqueueKeepsOrder(cfg, sh, id, CarriedBy(p.role), p.pc);
  }

  lemma EnqueueKeepsCaller(cfg: Config, sh: Shared, holder: Pc, id: nat, p: Proc)
    requires SharedInv(cfg, sh, holder) && Agrees(cfg, sh, id, p) && HolderAgrees(sh, holder, id, p)
    requires InEnqueue(p.pc) && StepEnabled(sh, p.pc, true)
    ensures var m := EnqueueStep(cfg, sh, id, CarriedBy(p.role), p.pc); Agrees(cfg, m.sh, id, p.(pc := m.pc))
  {
  }

  lemma CheckingKeepsOthers(cfg: Config, sh: Shared, id: nat, p: Proc, j: nat, q: Proc)
    requires Agrees(cfg, sh, id, p) && j != id && Agrees(cfg, sh, j, q) && StepEnabled(sh, p.pc, true)
    requires Checking(p.pc)
    ensures Agrees(cfg, EnqueueStep(cfg, sh, id, CarriedBy(p.role), p.pc).sh, j, q)
  {
  }

  lemma PushingKeepsOthers(cfg: Config, sh: Shared, id: nat, p: Proc, j: nat, q: Proc)
    requires Agrees(cfg, sh, id, p) && j != id && Agrees(cfg, sh, j, q) && StepEnabled(sh, p.pc, true)
    requires InEnqueue(p.pc) && !Checking(p.pc)
    ensures Agrees(cfg, EnqueueStep(cfg, sh, id, CarriedBy(p.role), p.pc).sh, j, q)
  {
  }

  lemma EnqueueKeepsOthers(cfg: Config, sh: Shared, id: nat, p: Proc, j: nat, q: Proc)
    requires Agrees(cfg, sh, id, p) && j != id && Agrees(cfg, sh, j, q)
    requires InEnqueue(p.pc) && StepEnabled(sh, p.pc, true)
    ensures Agrees(cfg, EnqueueStep(cfg, sh, id, CarriedBy(p.role), p.pc).sh, j, q)
  {
    hide Agrees, EnqueueStep, StepEnabled;
    if Checking(p.pc) { CheckingKeepsOthers(cfg, sh, id, p, j, q); } else { PushingKeepsOthers(cfg, sh, id, p, j, q); }
  }

  lemma PollKeepsCaller(cfg: Config, sh: Shared, holder: Pc, id: nat, p: Proc, choice: bool)
    requires SharedInv(cfg, sh, holder) && Agrees(cfg, sh, id, p) && HolderAgrees(sh, holder, id, p)
    requires p.pc.DrainPoll?
    ensures var m := FlushStep(cfg, sh, p.role, p.pc, choice);
            m.sh == sh && NextHolder(m, holder, id) == holder && Agrees(cfg, sh, id, p.(pc := m.pc))
  {
  }

  lemma WaitKeepsCaller(cfg: Config, sh: Shared, holder: Pc, id: nat, p: Proc, choice: bool)
    requires SharedInv(cfg, sh, holder) && Agrees(cfg, sh, id, p) && HolderAgrees(sh, holder, id, p)
    requires p.pc.DrainWait? || p.pc.FlushCall?
    ensures var m := FlushStep(cfg, sh, p.role, p.pc, choice);
            m.sh == sh && NextHolder(m, holder, id) == holder && Agrees(cfg, sh, id, p.(pc := m.pc))
  {
  }

  lemma FlushKeepsCaller(cfg: Config, sh: Shared, holder: Pc, id: nat, p: Proc, choice: bool)
    requires SharedInv(cfg, sh, holder) && Agrees(cfg, sh, id, p) && HolderAgrees(sh, holder, id, p)
    requires InFlush(p.pc)
    ensures var m := FlushStep(cfg, sh, p.role, p.pc, choice);
            m.sh == sh && NextHolder(m, holder, id) == holder && Agrees(cfg, sh, id, p.(pc := m.pc))
  {
    hide SharedInv, Agrees, HolderAgrees, FlushStep;
    if p.pc.DrainPoll? { PollKeepsCaller(cfg, sh, holder, id, p, choice); }
    else { WaitKeepsCaller(cfg, sh, holder, id, p, choice); }
  }

  lemma ClosingKeepsShared(cfg: Config, sh: Shared, holder: Pc, id: nat, p: Proc, choice: bool)
    requires SharedInv(cfg, sh, holder) && Agrees(cfg, sh, id, p) && HolderAgrees(sh, holder, id, p)
    requires StepEnabled(sh, p.pc, choice)
    requires Closing(p.pc)
    ensures var m := ShutdownStep(cfg, sh, id, p.pc, choice); SharedInv(cfg, m.sh, NextHolder(m, holder, id))
  {
  }

  lemma StoppingKeepsShared(cfg: Config, sh: Shared, holder: Pc, id: nat, p: Proc, choice: bool)
    requires SharedInv(cfg, sh, holder) && Agrees(cfg, sh, id, p) && HolderAgrees(sh, holder, id, p)
    requires StepEnabled(sh, p.pc, choice)
    requires Signalling(p.pc)
    ensures var m := ShutdownStep(cfg, sh, id, p.pc, choice); SharedInv(cfg, m.sh, NextHolder(m, holder, id))
  {
  }

  lemma ShutdownKeepsShared(cfg: Config, sh: Shared, holder: Pc, id: nat, p: Proc, choice: bool)
    requires SharedInv(cfg, sh, holder) && Agrees(cfg, sh, id, p) && HolderAgrees(sh, holder, id, p)
    requires InShutdown(p.pc) && StepEnabled(sh, p.pc, choice)
    ensures var m := ShutdownStep(cfg, sh, id, p.pc, choice); SharedInv(cfg, m.sh, NextHolder(m, holder, id))
  {
    hide SharedInv, Agrees, HolderAgrees, ShutdownStep, StepEnabled;
    if Closing(p.pc) { ClosingKeepsShared(cfg, sh, holder, id, p, choice); }
    else { StoppingKeepsShared(cfg, sh, holder, id, p, choice); }
  }

  lemma ClosingKeepsCaller(cfg: Config, sh: Shared, holder: Pc, id: nat, p: Proc, choice: bool)
    requires SharedInv(cfg, sh, holder) && Agrees(cfg, sh, id, p) && StepEnabled(sh, p.pc, choice)
    requires Closing(p.pc)
    ensures var m := ShutdownStep(cfg, sh, id, p.pc, choice); Agrees(cfg, m.sh, id, p.(pc := m.pc))
  {
  }

  lemma StoppingKeepsCaller(cfg: Config, sh: Shared, holder: Pc, id: nat, p: Proc, choice: bool)
    requires SharedInv(cfg, sh, holder) && Agrees(cfg, sh, id, p) && StepEnabled(sh, p.pc, choice)
    requires Signalling(p.pc)
    ensures var m := ShutdownStep(cfg, sh, id, p.pc, choice); Agrees(cfg, m.sh, id, p.(pc := m.pc))
  {
  }

  lemma ShutdownKeepsCaller(cfg: Config, sh: Shared, holder: Pc, id: nat, p: Proc, choice: bool)
    requires SharedInv(cfg, sh, holder) && Agrees(cfg, sh, id, p)
    requires InShutdown(p.pc) && StepEnabled(sh, p.pc, choice)
    ensures var m := ShutdownStep(cfg, sh, id, p.pc, choice); Agrees(cfg, m.sh, id, p.(pc := m.pc))
  {
    hide SharedInv, Agrees, ShutdownStep, StepEnabled;
    if Closing(p.pc) { ClosingKeepsCaller(cfg, sh, holder, id, p, choice); }
    else { StoppingKeepsCaller(cfg, sh, holder, id, p, choice); }
  }

  lemma ShutdownKeepsOthers(cfg: Config, sh: Shared, holder: Pc, id: nat, p: Proc, choice: bool, j: nat, q: Proc)
    requires SharedInv(cfg, sh, holder) && Agrees(cfg, sh, id, p) && j != id && Agrees(cfg, sh, j, q)
    requires InShutdown(p.pc) && StepEnabled(sh, p.pc, choice)
    ensures Agrees(cfg, ShutdownStep(cfg, sh, id, p.pc, choice).sh, j, q)
  {
  }

  lemma HookKeepsShared(cfg: Config, sh: Shared, holder: Pc, id: nat, p: Proc, choice: bool)
    requires SharedInv(cfg, sh, holder) && Agrees(cfg, sh, id, p) && HolderAgrees(sh, holder, id, p)
    requires InHook(p.pc) && StepEnabled(sh, p.pc, choice)
    ensures var m := HookStep(sh, id, p.pc, choice); SharedInv(cfg, m.sh, NextHolder(m, holder, id))
  {
  }

  lemma CallingKeepsCaller(cfg: Config, sh: Shared, holder: Pc, id: nat, p: Proc, choice: bool)
    requires SharedInv(cfg, sh, holder) && Agrees(cfg, sh, id, p) && StepEnabled(sh, p.pc, choice)
    requires Calling(p.pc)
    ensures var m := HookStep(sh, id, p.pc, choice); Agrees(cfg, m.sh, id, p.(pc := m.pc))
  {
  }

  lemma SignallingKeepsCaller(cfg: Config, sh: Shared, holder: Pc, id: nat, p: Proc, choice: bool)
    requires SharedInv(cfg, sh, holder) && Agrees(cfg, sh, id, p) && StepEnabled(sh, p.pc, choice)
    requires InHook(p.pc) && !Calling(p.pc)
    ensures var m := HookStep(sh, id, p.pc, choice); Agrees(cfg, m.sh, id, p.(pc := m.pc))
  {
  }

  lemma HookKeepsCaller(cfg: Config, sh: Shared, holder: Pc, id: nat, p: Proc, choice: bool)
    requires SharedInv(cfg, sh, holder) && Agrees(cfg, sh, id, p)
    requires InHook(p.pc) && StepEnabled(sh, p.pc, choice)
    ensures var m := HookStep(sh, id, p.pc, choice); Agrees(cfg, m.sh, id, p.(pc := m.pc))
  {
    hide SharedInv, Agrees, HookStep, StepEnabled;
    if Calling(p.pc) { CallingKeepsCaller(cfg, sh, holder, id, p, choice); }
    else { SignallingKeepsCaller(cfg, sh, holder, id, p, choice); }
  }

  lemma HookKeepsOthers(cfg: Config, sh: Shared, id: nat, p: Proc, choice: bool, j: nat, q: Proc)
    requires Agrees(cfg, sh, id, p) && j != id && Agrees(cfg, sh, j, q)
    requires InHook(p.pc) && StepEnabled(sh, p.pc, choice)
    ensures Agrees(cfg, HookStep(sh, id, p.pc, choice).sh, j, q)
  {
  }

  // ---------- every step ----------

  lemma HolderKnown(cfg: Config, s: State, id: nat)
    requires Inv(cfg, s) && id in s.procs
    ensures HolderAgrees(s.sh, HolderPc(s), id, s.procs[id])
  {
  }

  lemma CallKeepsInv(cfg: Config, s: State, id: nat, role: Role)
    requires Inv(cfg, s) && id !in s.procs
    ensures Inv(cfg, Apply(cfg, s, Call(id, role)))
  {
    var t := Apply(cfg, s, Call(id, role));
    assert HolderPc(t) == HolderPc(s);
    NewCallAgrees(cfg, s.sh, id, role);
    hide Agrees, SharedInv;
  }

  lemma NewCallAgrees(cfg: Config, sh: Shared, id: nat, role: Role)
    ensures Agrees(cfg, sh, id, Proc(role, FirstPc(cfg, role), |sh.pushed|))
  {
  }

  lemma WorkKeepsInv(cfg: Config, s: State, choice: bool)
    requires Inv(cfg, s) && WorkEnabled(s.sh, choice)
    ensures Inv(cfg, Apply(cfg, s, Work(choice)))
  {
    WorkKeepsShared(cfg, s.sh, HolderPc(s), choice);
    forall j | j in s.procs ensures Agrees(cfg, Worked(s.sh, choice), j, s.procs[j]) {
      WorkKeepsCaller(cfg, s.sh, HolderPc(s), choice, j, s.procs[j]);
    }
  }

  lemma CallerKeepsShared(cfg: Config, sh: Shared, holder: Pc, id: nat, p: Proc, choice: bool)
    requires SharedInv(cfg, sh, holder) && Agrees(cfg, sh, id, p) && HolderAgrees(sh, holder, id, p)
    requires StepEnabled(sh, p.pc, choice)
    ensures var m := CallerStep(cfg, sh, id, p, choice); SharedInv(cfg, m.sh, NextHolder(m, holder, id))
  {
    if InEnqueue(p.pc) { EnqueueKeepsShared(cfg, sh, holder, id, p); }
    else if InFlush(p.pc) { FlushKeepsCaller(cfg, sh, holder, id, p, choice); }
    else if InShutdown(p.pc) { ShutdownKeepsShared(cfg, sh, holder, id, p, choice); }
    else { HookKeepsShared(cfg, sh, holder, id, p, choice); }
  }

  lemma CallerKeeps(cfg: Config, sh: Shared, holder: Pc, id: nat, p: Proc, choice: bool)
    requires SharedInv(cfg, sh, holder) && Agrees(cfg, sh, id, p) && HolderAgrees(sh, holder, id, p)
    requires StepEnabled(sh, p.pc, choice)
    ensures var m := CallerStep(cfg, sh, id, p, choice); Agrees(cfg, m.sh, id, p.(pc := m.pc))
  {
    if InEnqueue(p.pc) { EnqueueKeepsCaller(cfg, sh, holder, id, p); }
    else if InFlush(p.pc) { FlushKeepsCaller(cfg, sh, holder, id, p, choice); }
    else if InShutdown(p.pc) { ShutdownKeepsCaller(cfg, sh, holder, id, p, choice); }
    else { HookKeepsCaller(cfg, sh, holder, id, p, choice); }
  }

  lemma OthersKeep(cfg: Config, sh: Shared, holder: Pc, id: nat, p: Proc, choice: bool, j: nat, q: Proc)
    requires SharedInv(cfg, sh, holder) && Agrees(cfg, sh, id, p) && j != id && Agrees(cfg, sh, j, q)
    requires StepEnabled(sh, p.pc, choice)
    ensures Agrees(cfg, CallerStep(cfg, sh, id, p, choice).sh, j, q)
  {
    if InEnqueue(p.pc) { EnqueueKeepsOthers(cfg, sh, id, p, j, q); }
    else if InFlush(p.pc) { assert FlushStep(cfg, sh, p.role, p.pc, choice).sh == sh; }
    else if InShutdown(p.pc) { ShutdownKeepsOthers(cfg, sh, holder, id, p, choice, j, q); }
    else { HookKeepsOthers(cfg, sh, id, p, choice, j, q); }
  }

  /** A step takes or drops the lock and the Onces only for the caller that makes it. */
  predicate OwnsOnlyItself(sh: Shared, m: Moved, id: nat) {
    && (m.sh.lock == Some(id) ==> Locks(m.pc))
    && (m.sh.lock.Some? && m.sh.lock != Some(id) ==> m.sh.lock == sh.lock)
    && (m.sh.stopOnce == Running(id) ==> StopRunner(m.pc))
    && (m.sh.stopOnce.Running? && m.sh.stopOnce != Running(id) ==> m.sh.stopOnce == sh.stopOnce)
    && (m.sh.closeOnce == Running(id) ==> HookRunner(m.pc))
    && (m.sh.closeOnce.Running? && m.sh.closeOnce != Running(id) ==> m.sh.closeOnce == sh.closeOnce)
  }

  /** The caller is at a place that matches what it owns. */
  predicate OwnsRightly(sh: Shared, id: nat, pc: Pc) {
    && (sh.lock == Some(id) ==> Locks(pc))
    && (sh.stopOnce == Running(id) ==> StopRunner(pc))
    && (sh.closeOnce == Running(id) ==> HookRunner(pc))
  }

  lemma EnqueueOwns(cfg: Config, sh: Shared, id: nat, batch: Batch, pc: Pc)
    requires OwnsRightly(sh, id, pc) && InEnqueue(pc)
    ensures OwnsOnlyItself(sh, EnqueueStep(cfg, sh, id, batch, pc), id)
  {
  }

  lemma ShutdownOwns(cfg: Config, sh: Shared, id: nat, pc: Pc, choice: bool)
    requires OwnsRightly(sh, id, pc) && InShutdown(pc) && StepEnabled(sh, pc, choice)
    ensures OwnsOnlyItself(sh, ShutdownStep(cfg, sh, id, pc, choice), id)
  {
  }

  lemma HookOwns(sh: Shared, id: nat, pc: Pc, choice: bool)
    requires OwnsRightly(sh, id, pc) && InHook(pc) && StepEnabled(sh, pc, choice)
    ensures OwnsOnlyItself(sh, HookStep(sh, id, pc, choice), id)
  {
  }

  lemma CallerOwns(cfg: Config, sh: Shared, id: nat, p: Proc, choice: bool)
    requires OwnsRightly(sh, id, p.pc) && StepEnabled(sh, p.pc, choice)
    ensures OwnsOnlyItself(sh, CallerStep(cfg, sh, id, p, choice), id)
  {
    if InEnqueue(p.pc) { EnqueueOwns(cfg, sh, id, CarriedBy(p.role), p.pc); }
    else if InFlush(p.pc) { assert FlushStep(cfg, sh, p.role, p.pc, choice).sh == sh; }
    else if InShutdown(p.pc) { ShutdownOwns(cfg, sh, id, p.pc, choice); }
    else { HookOwns(sh, id, p.pc, choice); }
  }

  lemma StepKeepsOwned(cfg: Config, s: State, id: nat, choice: bool)
    requires Inv(cfg, s) && Enabled(s, Step(id, choice))
    ensures Owned(Apply(cfg, s, Step(id, choice)))
    ensures var m := CallerStep(cfg, s.sh, id, s.procs[id], choice);
            HolderPc(Apply(cfg, s, Step(id, choice))) == NextHolder(m, HolderPc(s), id)
  {
    CallerOwns(cfg, s.sh, id, s.procs[id], choice);
  }

  lemma StepKeepsInv(cfg: Config, s: State, id: nat, choice: bool)
    requires Inv(cfg, s) && Enabled(s, Step(id, choice))
    ensures Inv(cfg, Apply(cfg, s, Step(id, choice)))
  {
    var p := s.procs[id];
    var t := Apply(cfg, s, Step(id, choice));
    HolderKnown(cfg, s, id);
    CallerKeepsShared(cfg, s.sh, HolderPc(s), id, p, choice);
    CallerKeeps(cfg, s.sh, HolderPc(s), id, p, choice);
    StepKeepsOwned(cfg, s, id, choice);
    forall j | j in t.procs ensures Agrees(cfg, t.sh, j, t.procs[j]) {
      if j != id { OthersKeep(cfg, s.sh, HolderPc(s), id, p, choice, j, s.procs[j]); }
    }
  }

  lemma InitInv(cfg: Config)
    ensures Inv(cfg, Init())
  {
    InitShared(cfg);
    hide SharedInv, Agrees;
  }

  lemma InitShared(cfg: Config)
    ensures SharedInv(cfg, Init().sh, Returned(false))
  {
    assert Batches([]) + (Held(Selecting) + []) == [];
  }

  /** The invariant is inductive: any step of anyone keeps it. */
  lemma ApplyKeepsInv(cfg: Config, s: State, a: Action)
    requires Inv(cfg, s) && Enabled(s, a)
    ensures Inv(cfg, Apply(cfg, s, a))
  {
    match a
    case Call(id, role) => CallKeepsInv(cfg, s, id, role);
    case Work(choice) => WorkKeepsInv(cfg, s, choice);
    case Step(id, choice) => StepKeepsInv(cfg, s, id, choice);
  }

  lemma {:induction false} RunKeepsInv(cfg: Config, s: State, run: seq<Action>)
    requires Inv(cfg, s) && Runs(cfg, s, run)
    ensures Inv(cfg, After(cfg, s, run))
    decreases |run|
  {
    if run == [] {
    } else {
      ApplyKeepsInv(cfg, s, run[0]);
      RunKeepsInv(cfg, Apply(cfg, s, run[0]), run[1..]);
    }
  }

  lemma ReachableInv(cfg: Config, s: State)
    requires Reachable(cfg, s)
    ensures Inv(cfg, s)
  {
    var run :| Runs(cfg, Init(), run) && After(cfg, Init(), run) == s;
    InitInv(cfg);
    RunKeepsInv(cfg, Init(), run);
  }
}
