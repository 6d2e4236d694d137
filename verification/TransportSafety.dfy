/** What the invariant of the delivery protocol gives over whole runs: conservation, a shutdown
    that loses nothing, the Flush guarantee, and the shutdown hook's single call. */
module TransportSafety {
  import opened Prelude
  import opened Transport
  import opened TransportInvariant

  /** Everything `pushed` counts is still visible, exactly once, somewhere in the transport. */
  lemma ConservationAtEveryStep(cfg: Config, s: State)
    requires Reachable(cfg, s)
    ensures s.sh.pending == |s.sh.queue| + Ticket(s.sh.worker) + Reserved(HolderPc(s))
    ensures s.sh.accepted + Uncounted(HolderPc(s))
         == s.sh.delivered + s.sh.failed + |s.sh.queue| + |Held(s.sh.worker)|
    ensures s.sh.delivered == Oks(s.sh.settled) && s.sh.delivered + s.sh.failed == |s.sh.settled|
    ensures |s.sh.queue| <= cfg.capacity && 0 <= s.sh.pending
    ensures s.sh.pushed == Batches(s.sh.settled) + (Held(s.sh.worker) + s.sh.queue)
  {
    ReachableInv(cfg, s);
  }

  // ---------- what only grows ----------

  /** The totals and the history only grow, and `closed`, `done` and `stopped` are never taken back. */
  predicate Grows(a: Shared, b: Shared) {
    && a.accepted <= b.accepted && a.delivered <= b.delivered && a.dropped <= b.dropped && a.failed <= b.failed
    && a.pushed <= b.pushed && a.settled <= b.settled
    && (a.closed ==> b.closed) && (a.done ==> b.done) && (a.stopped ==> b.stopped)
  }

  lemma EnqueueGrows(cfg: Config, sh: Shared, id: nat, batch: Batch, pc: Pc)
    requires InEnqueue(pc)
    ensures Grows(sh, EnqueueStep(cfg, sh, id, batch, pc).sh)
  {
  }

  /** Only `enqueue` and the worker touch the queue, the worker and the totals. */
  predicate SameTotals(a: Shared, b: Shared) {
    && a.accepted == b.accepted && a.delivered == b.delivered && a.dropped == b.dropped && a.failed == b.failed
    && a.pushed == b.pushed && a.settled == b.settled && a.queue == b.queue && a.worker == b.worker
    && a.pending == b.pending && a.stopped == b.stopped && (a.closed ==> b.closed) && (a.done ==> b.done)
  }

  lemma ShutdownKeepsTotals(cfg: Config, sh: Shared, id: nat, pc: Pc, choice: bool)
    requires InShutdown(pc)
    ensures SameTotals(sh, ShutdownStep(cfg, sh, id, pc, choice).sh)
  {
  }

  lemma HookKeepsTotals(sh: Shared, id: nat, pc: Pc, choice: bool)
    requires InHook(pc)
    ensures SameTotals(sh, HookStep(sh, id, pc, choice).sh)
  {
  }

  lemma OthersKeepTotals(cfg: Config, sh: Shared, id: nat, p: Proc, choice: bool)
    requires StepEnabled(sh, p.pc, choice) && !InEnqueue(p.pc)
    ensures SameTotals(sh, CallerStep(cfg, sh, id, p, choice).sh)
  {
    if InFlush(p.pc) { assert FlushStep(cfg, sh, p.role, p.pc, choice).sh == sh; }
    else if InShutdown(p.pc) { ShutdownKeepsTotals(cfg, sh, id, p.pc, choice); }
    else { HookKeepsTotals(sh, id, p.pc, choice); }
  }

  lemma CallerGrows(cfg: Config, sh: Shared, id: nat, p: Proc, choice: bool)
    requires StepEnabled(sh, p.pc, choice)
    ensures Grows(sh, CallerStep(cfg, sh, id, p, choice).sh)
  {
    if InEnqueue(p.pc) { EnqueueGrows(cfg, sh, id, CarriedBy(p.role), p.pc); }
    else { OthersKeepTotals(cfg, sh, id, p, choice); }
  }

  lemma ApplyGrows(cfg: Config, s: State, a: Action)
    requires Enabled(s, a)
    ensures Grows(s.sh, Apply(cfg, s, a).sh)
  {
    match a
    case Call(id, role) =>
    case Work(choice) => assert Grows(s.sh, Worked(s.sh, choice));
    case Step(id, choice) => CallerGrows(cfg, s.sh, id, s.procs[id], choice);
  }

  lemma {:induction false} RunGrows(cfg: Config, s: State, run: seq<Action>)
    requires Runs(cfg, s, run)
    ensures Grows(s.sh, After(cfg, s, run).sh)
    decreases |run|
  {
    if run == [] {
    } else {
      ApplyGrows(cfg, s, run[0]);
      RunGrows(cfg, Apply(cfg, s, run[0]), run[1..]);
    }
  }

  // ---------- shutdown loses nothing ----------

  /** When `done` is closed there is nothing left that its receiver could abandon. */
  lemma NothingLeftWhenDone(cfg: Config, s: State)
    requires Reachable(cfg, s) && s.sh.done
    ensures s.sh.queue == [] && Held(s.sh.worker) == [] && s.sh.pending == 0
    ensures Batches(s.sh.settled) == s.sh.pushed
    ensures forall id :: id in s.procs ==> !PastCheck(s.procs[id].pc)
    ensures !WorkEnabled(s.sh, true) || !WorkEnabled(s.sh, false) || !s.sh.worker.Selecting?
  {
    ReachableInv(cfg, s);
    forall id | id in s.procs ensures !PastCheck(s.procs[id].pc) {
      assert LockClause(s.sh, id, s.procs[id]);
    }
    if s.sh.lock.Some? {
      assert LockClause(s.sh, s.sh.lock.value, s.procs[s.sh.lock.value]);
    }
  }

  lemma OnlyPastCheckPushes(cfg: Config, sh: Shared, id: nat, p: Proc, choice: bool)
    requires StepEnabled(sh, p.pc, choice) && !PastCheck(p.pc)
    ensures var m := CallerStep(cfg, sh, id, p, choice);
            m.sh.pushed == sh.pushed && m.sh.accepted == sh.accepted && m.sh.queue == sh.queue
  {
    if !InEnqueue(p.pc) { OthersKeepTotals(cfg, sh, id, p, choice); }
  }

  /** Once the transport is closed, no step accepts a batch. */
  lemma ClosedAcceptsNothing(cfg: Config, s: State, a: Action)
    requires Inv(cfg, s) && Enabled(s, a) && s.sh.closed
    ensures Apply(cfg, s, a).sh.pushed == s.sh.pushed && Apply(cfg, s, a).sh.accepted == s.sh.accepted
  {
    if a.Step? {
      assert LockClause(s.sh, a.id, s.procs[a.id]);
      OnlyPastCheckPushes(cfg, s.sh, a.id, s.procs[a.id], a.choice);
    }
  }

  lemma {:induction false} ClosedStaysClosed(cfg: Config, s: State, run: seq<Action>)
    requires Inv(cfg, s) && Runs(cfg, s, run) && s.sh.closed
    ensures var t := After(cfg, s, run);
            Inv(cfg, t) && t.sh.closed && t.sh.pushed == s.sh.pushed && t.sh.accepted == s.sh.accepted
    decreases |run|
  {
    if run == [] {
    } else {
      ClosedAcceptsNothing(cfg, s, run[0]);
      ApplyKeepsInv(cfg, s, run[0]);
      ApplyGrows(cfg, s, run[0]);
      ClosedStaysClosed(cfg, Apply(cfg, s, run[0]), run[1..]);
    }
  }

  /** After any Shutdown has returned true, every accepted batch has been delivered or has failed, and
      that stays so whatever is called later. */
  lemma ShutdownLosesNothing(cfg: Config, s: State, id: nat, run: seq<Action>)
    requires Reachable(cfg, s) && id in s.procs && s.procs[id].role.Stopper? && s.procs[id].pc == Returned(true)
    requires Runs(cfg, s, run)
    ensures var t := After(cfg, s, run).sh;
            && t.delivered + t.failed == t.accepted == s.sh.accepted
            && Batches(t.settled) == t.pushed == s.sh.pushed
            && t.queue == [] && t.pending == 0 && t.stopped
  {
    ReachableInv(cfg, s);
    assert HookClause(cfg, s.sh, id, s.procs[id]);
    ClosedStaysClosed(cfg, s, run);
    RunGrows(cfg, s, run);
    var t := After(cfg, s, run);
    if t.sh.lock.Some? {
      assert LockClause(t.sh, t.sh.lock.value, t.procs[t.sh.lock.value]);
    }
  }

  // ---------- the Flush guarantee ----------

  lemma StepKeepsCall(cfg: Config, s: State, a: Action, id: nat)
    requires Enabled(s, a) && id in s.procs
    ensures id in Apply(cfg, s, a).procs
    ensures Apply(cfg, s, a).procs[id].begun == s.procs[id].begun
    ensures Apply(cfg, s, a).procs[id].role == s.procs[id].role
  {
  }

  lemma {:induction false} RunKeepsCall(cfg: Config, s: State, run: seq<Action>, id: nat)
    requires Runs(cfg, s, run) && id in s.procs
    ensures id in After(cfg, s, run).procs
    ensures After(cfg, s, run).procs[id].begun == s.procs[id].begun
    ensures After(cfg, s, run).procs[id].role == s.procs[id].role
    decreases |run|
  {
    if run == [] {
    } else {
      StepKeepsCall(cfg, s, run[0], id);
      RunKeepsCall(cfg, Apply(cfg, s, run[0]), run[1..], id);
    }
  }

  /** A Flush (or Shutdown) called in `s` that returns true has seen every batch settled that had been
      accepted in `s`, however many batches other callers kept adding in between. */
  lemma FlushGuarantee(cfg: Config, s: State, id: nat, role: Role, run: seq<Action>)
    requires Reachable(cfg, s) && id !in s.procs && !role.Sender?
    requires Runs(cfg, Apply(cfg, s, Call(id, role)), run)
    requires var t := After(cfg, Apply(cfg, s, Call(id, role)), run);
             id in t.procs && t.procs[id].pc == Returned(true)
    ensures var t := After(cfg, Apply(cfg, s, Call(id, role)), run);
            && s.sh.accepted <= |s.sh.pushed| <= t.sh.delivered + t.sh.failed
            && s.sh.pushed <= Batches(t.sh.settled)
  {
    var c := Apply(cfg, s, Call(id, role));
    var t := After(cfg, c, run);
    ReachableInv(cfg, s);
    ApplyKeepsInv(cfg, s, Call(id, role));
    RunKeepsInv(cfg, c, run);
    RunKeepsCall(cfg, c, run, id);
    RunGrows(cfg, c, run);
    assert FlushClause(t.sh, t.procs[id]);
    assert s.sh.pushed <= t.sh.pushed;
  }

  // ---------- the lifecycle hook and the channels ----------

  /** The shutdown hook is started at most once, and only after the worker has stopped. */
  lemma HookAtMostOnce(cfg: Config, s: State, id: nat)
    requires Reachable(cfg, s)
    ensures s.sh.hookCalls <= 1
    ensures s.sh.hookCalls == 1 ==> s.sh.worker.Stopped?
    ensures id in s.procs && s.procs[id].pc.HookCall? ==>
              s.sh.hookCalls == 0 && s.sh.worker.Stopped? && s.sh.queue == []
  {
    ReachableInv(cfg, s);
    if id in s.procs { assert HookClause(cfg, s.sh, id, s.procs[id]); }
  }

  /** With a stored failure no Shutdown returns true. */
  lemma StoredFailureIsFinal(cfg: Config, s: State, id: nat)
    requires Inv(cfg, s) && s.sh.hookResult == Some(false)
    requires id in s.procs && s.procs[id].role.Stopper?
    ensures s.procs[id].pc != Returned(true)
  {
    assert HookClause(cfg, s.sh, id, s.procs[id]);
  }

  lemma EnqueueKeepsHook(cfg: Config, sh: Shared, id: nat, batch: Batch, pc: Pc)
    requires InEnqueue(pc)
    ensures EnqueueStep(cfg, sh, id, batch, pc).sh.hookResult == sh.hookResult
  {
  }

  lemma ShutdownKeepsHook(cfg: Config, sh: Shared, id: nat, pc: Pc, choice: bool)
    requires InShutdown(pc)
    ensures ShutdownStep(cfg, sh, id, pc, choice).sh.hookResult == sh.hookResult
  {
  }

  lemma FlushKeepsShared(cfg: Config, sh: Shared, role: Role, pc: Pc, choice: bool)
    requires InFlush(pc)
    ensures FlushStep(cfg, sh, role, pc, choice).sh == sh
  {
  }

  lemma WorkKeepsHook(sh: Shared, choice: bool)
    requires WorkEnabled(sh, choice)
    ensures Worked(sh, choice).hookResult == sh.hookResult
  {
  }

  /** Only the runner of closeOnce sets the result, and it does so once. */
  lemma HookStepKeepsResult(cfg: Config, sh: Shared, id: nat, p: Proc, choice: bool)
    requires HookClause(cfg, sh, id, p) && InHook(p.pc) && sh.hookResult.Some?
    ensures HookStep(sh, id, p.pc, choice).sh.hookResult == sh.hookResult
  {
  }

  lemma CallerKeepsResult(cfg: Config, sh: Shared, id: nat, p: Proc, choice: bool)
    requires HookClause(cfg, sh, id, p) && StepEnabled(sh, p.pc, choice) && sh.hookResult.Some?
    ensures CallerStep(cfg, sh, id, p, choice).sh.hookResult == sh.hookResult
  {
    hide EnqueueStep, FlushStep, ShutdownStep, HookStep, HookClause;
    if InEnqueue(p.pc) { EnqueueKeepsHook(cfg, sh, id, CarriedBy(p.role), p.pc); }
    else if InFlush(p.pc) { FlushKeepsShared(cfg, sh, p.role, p.pc, choice); }
    else if InShutdown(p.pc) { ShutdownKeepsHook(cfg, sh, id, p.pc, choice); }
    else { HookStepKeepsResult(cfg, sh, id, p, choice); }
  }

  lemma HookResultIsFinal(cfg: Config, s: State, a: Action)
    requires Inv(cfg, s) && Enabled(s, a) && s.sh.hookResult.Some?
    ensures Apply(cfg, s, a).sh.hookResult == s.sh.hookResult
  {
    hide CallerStep, Worked, HookClause;
    match a
    case Call(_, _) =>
    case Work(choice) => WorkKeepsHook(s.sh, choice);
    case Step(id, choice) =>
      assert Agrees(cfg, s.sh, id, s.procs[id]);
      CallerKeepsResult(cfg, s.sh, id, s.procs[id], choice);
  }

  /** No channel is closed twice, so no close panics. */
  lemma NoDoubleClose(cfg: Config, s: State, id: nat)
    requires Reachable(cfg, s)
    ensures id in s.procs && s.procs[id].pc.StopSignal? ==> !s.sh.done
    ensures id in s.procs && s.procs[id].pc.HookSignal? ==> !s.sh.closeDone
    ensures s.sh.worker.Stopping? ==> !s.sh.stopped
  {
    ReachableInv(cfg, s);
    if id in s.procs {
      assert HookClause(cfg, s.sh, id, s.procs[id]) && StopClause(s.sh, id, s.procs[id]);
    }
  }
}
