/** Progress of the delivery protocol: an exact count of the worker's remaining steps, and when a
    Shutdown can still succeed. */
module TransportProgress {
  import opened Prelude
  import opened Transport
  import opened TransportInvariant
  import opened TransportSafety

  // ---------- the worker's remaining steps ----------

  function Stage(w: WorkerPc): nat {
    match w
    case Received(_) => 7
    case Exporting(_) => 6
    case Exported(_, _) => 5
    case Clearing => 4
    case Releasing => 3
    case Selecting => 2
    case Stopping => 1
    case Stopped => 0
  }

  /** Steps the worker takes until it has settled its backlog and stopped. */
  function WorkLeft(sh: Shared): nat {
    6 * |sh.queue| + Stage(sh.worker)
  }

  /** How many steps of a run are the worker's. */
  function WorkSteps(run: seq<Action>): nat {
    if run == [] then 0 else (if run[0].Work? then 1 else 0) + WorkSteps(run[1..])
  }

  lemma SelectingCounts(sh: Shared, choice: bool)
    requires WorkEnabled(sh, choice) && sh.worker.Selecting?
    ensures WorkLeft(Worked(sh, choice)) + 1 == WorkLeft(sh) && Worked(sh, choice).pushed == sh.pushed
  {
  }

  lemma ExportingCounts(sh: Shared, choice: bool)
    requires sh.worker.Received? || sh.worker.Exporting? || sh.worker.Exported?
    ensures WorkLeft(Worked(sh, choice)) + 1 == WorkLeft(sh) && Worked(sh, choice).pushed == sh.pushed
  {
  }

  lemma ClearingCounts(sh: Shared, choice: bool)
    requires sh.worker.Clearing? || sh.worker.Releasing? || sh.worker.Stopping?
    ensures WorkLeft(Worked(sh, choice)) + 1 == WorkLeft(sh) && Worked(sh, choice).pushed == sh.pushed
  {
  }

  lemma WorkerStepCounts(sh: Shared, choice: bool)
    requires WorkEnabled(sh, choice)
    ensures WorkLeft(Worked(sh, choice)) + 1 == WorkLeft(sh) && Worked(sh, choice).pushed == sh.pushed
  {
    hide Worked, WorkLeft;
    match sh.worker
    case Selecting => SelectingCounts(sh, choice);
    case Received(_) | Exporting(_) | Exported(_, _) => ExportingCounts(sh, choice);
    case Clearing | Releasing | Stopping => ClearingCounts(sh, choice);
  }

  lemma PushCounts(cfg: Config, sh: Shared, id: nat, batch: Batch, pc: Pc)
    requires InEnqueue(pc)
    ensures var m := EnqueueStep(cfg, sh, id, batch, pc);
            |m.sh.queue| - |sh.queue| == |m.sh.pushed| - |sh.pushed| && m.sh.worker == sh.worker
  {
    match pc
    case SendPush =>
    case _ =>
  }

  lemma StepCounts(cfg: Config, s: State, a: Action)
    requires Enabled(s, a)
    ensures var t := Apply(cfg, s, a).sh;
            WorkLeft(t) + (if a.Work? then 1 else 0) == WorkLeft(s.sh) + 6 * (|t.pushed| - |s.sh.pushed|)
  {
    hide Worked, EnqueueStep, FlushStep, ShutdownStep, HookStep, StepEnabled, WorkEnabled;
    match a
    case Call(id, role) =>
    case Work(choice) => WorkerStepCounts(s.sh, choice);
    case Step(id, choice) =>
      var p := s.procs[id];
      if InEnqueue(p.pc) { PushCounts(cfg, s.sh, id, CarriedBy(p.role), p.pc); }
      else { OthersKeepTotals(cfg, s.sh, id, p, choice); }
  }

  /** An exact law of every run: each accepted batch costs the worker six steps, and each worker step
      pays for one. */
  lemma {:induction false} WorkerStepsAreExact(cfg: Config, s: State, run: seq<Action>)
    requires Runs(cfg, s, run)
    ensures var t := After(cfg, s, run).sh;
            WorkLeft(t) + WorkSteps(run) == WorkLeft(s.sh) + 6 * (|t.pushed| - |s.sh.pushed|)
    decreases |run|
  {
    if run == [] {
    } else {
      StepCounts(cfg, s, run[0]);
      WorkerStepsAreExact(cfg, Apply(cfg, s, run[0]), run[1..]);
    }
  }

  /** While anything is pending after the close, the worker has a step to take. */
  lemma WorkerNeverStuck(cfg: Config, s: State)
    requires Reachable(cfg, s) && s.sh.closed && s.sh.pending != 0
    ensures WorkEnabled(s.sh, true)
  {
    ReachableInv(cfg, s);
    ClosedPending(cfg, s);
  }

  lemma ClosedPending(cfg: Config, s: State)
    requires Inv(cfg, s) && s.sh.closed
    ensures s.sh.pending == |s.sh.queue| + Ticket(s.sh.worker)
    ensures s.sh.pending == 0 <==> WorkLeft(s.sh) <= 2
    ensures WorkLeft(s.sh) <= 6 * s.sh.pending + 2
  {
    if s.sh.lock.Some? {
      assert LockClause(s.sh, s.sh.lock.value, s.procs[s.sh.lock.value]);
    }
  }

  /** After the close `pending` reaches zero within six worker steps for each pending batch, whatever
      the other callers do, and not before the worker has done exactly the work that was left. */
  lemma DrainTakesSixStepsPerBatch(cfg: Config, s: State, run: seq<Action>)
    requires Reachable(cfg, s) && s.sh.closed && Runs(cfg, s, run)
    ensures After(cfg, s, run).sh.pending == 0 <==> WorkSteps(run) + 2 >= WorkLeft(s.sh)
    ensures WorkSteps(run) >= 6 * s.sh.pending ==> After(cfg, s, run).sh.pending == 0
  {
    ReachableInv(cfg, s);
    ClosedPending(cfg, s);
    ClosedStaysClosed(cfg, s, run);
    WorkerStepsAreExact(cfg, s, run);
    ClosedPending(cfg, After(cfg, s, run));
  }

  // ---------- a patient Shutdown is only failed by the hook ----------

  /** The caller's context never ends and its hooks succeed. */
  predicate Patient(run: seq<Action>, id: nat) {
    forall i :: 0 <= i < |run| && run[i].Step? && run[i].id == id ==> run[i].choice
  }

  lemma PatientStep(cfg: Config, sh: Shared, id: nat, p: Proc)
    requires Agrees(cfg, sh, id, p) && p.role.Stopper? && ChannelsAgree(cfg, sh) && StepEnabled(sh, p.pc, true)
    ensures CallerStep(cfg, sh, id, p, true).pc == Returned(false) ==> sh.hookResult == Some(false)
  {
  }

  lemma {:induction false} PatientShutdownFailsOnlyByHook(cfg: Config, s: State, id: nat, run: seq<Action>)
    requires Inv(cfg, s) && id in s.procs && s.procs[id].role.Stopper? && Runs(cfg, s, run) && Patient(run, id)
    requires s.procs[id].pc == Returned(false) ==> s.sh.hookResult == Some(false)
    ensures var t := After(cfg, s, run);
            id in t.procs && (t.procs[id].pc == Returned(false) ==> t.sh.hookResult == Some(false))
    decreases |run|
  {
    if run == [] {
    } else {
      var a := run[0];
      var t := Apply(cfg, s, a);
      ApplyKeepsInv(cfg, s, a);
      if s.sh.hookResult.Some? { HookResultIsFinal(cfg, s, a); }
      if a.Step? && a.id == id {
        assert Agrees(cfg, s.sh, id, s.procs[id]);
        PatientStep(cfg, s.sh, id, s.procs[id]);
      }
      assert Patient(run[1..], id) by {
        forall i | 0 <= i < |run[1..]| && run[1..][i].Step? && run[1..][i].id == id ensures run[1..][i].choice {
          assert run[1..][i] == run[i + 1];
        }
      }
      PatientShutdownFailsOnlyByHook(cfg, t, id, run[1..]);
    }
  }

  // ---------- a Shutdown can always still succeed, unless the hook has failed ----------

  /** How many more steps a call takes at most once nothing is pending. */
  function Distance(pc: Pc): nat {
    match pc
    case StopPeek => 19
    case StopLock => 18
    case StopClose => 17
    case StopUnlock => 16
    case DrainWait => 15
    case DrainPoll => 14
    case FlushCall => 13
    case StopOnce => 12
    case StopSignal => 11
    case StopMark => 10
    case AwaitStopped => 9
    case HookOnce => 8
    case HookCall => 7
    case HookWait => 6
    case HookStore(_) => 5
    case HookSignal => 4
    case HookMark => 3
    case AwaitHook => 2
    case HookRead => 1
    case SendLock => 8
    case SendCheck => 7
    case SendReserve => 6
    case SendPush => 5
    case SendUndo => 4
    case SendCount => 3
    case SendReject => 3
    case SendDrop => 3
    case SendUnlock(_) => 2
    case Returned(_) => 0
  }

  /** How far a lock holder is from unlocking. */
  function UnlockDistance(pc: Pc): nat {
    match pc
    case SendCheck => 6
    case SendReserve => 5
    case SendPush => 4
    case SendUndo => 3
    case SendCount => 2
    case SendReject => 2
    case SendDrop => 2
    case SendUnlock(_) => 1
    case StopClose => 2
    case StopUnlock => 1
    case _ => 0
  }

  /** Whose step brings the Shutdown `id` on: its own, or the one it waits for. */
  function Helper(s: State, id: nat): Action
    requires id in s.procs
  {
    match s.procs[id].pc
    case StopLock => if s.sh.lock.Some? then Step(s.sh.lock.value, true) else Step(id, true)
    case DrainPoll => if s.sh.pending != 0 then Work(true) else Step(id, true)
    case StopOnce => if s.sh.stopOnce.Running? then Step(s.sh.stopOnce.runner, true) else Step(id, true)
    case AwaitStopped => if s.sh.stopped then Step(id, true) else Work(false)
    case HookOnce => if s.sh.closeOnce.Running? then Step(s.sh.closeOnce.runner, true) else Step(id, true)
    case _ => Step(id, true)
  }

  /** What is left of the work the Shutdown `id` waits for. */
  function Wait(s: State, id: nat): nat
    requires id in s.procs
  {
    match s.procs[id].pc
    case StopLock => UnlockDistance(HolderPc(s))
    case DrainPoll => WorkLeft(s.sh)
    case StopOnce =>
      if s.sh.stopOnce.Running? && s.sh.stopOnce.runner in s.procs
      then Distance(s.procs[s.sh.stopOnce.runner].pc) else 0
    case AwaitStopped => WorkLeft(s.sh)
    case HookOnce =>
      if s.sh.closeOnce.Running? && s.sh.closeOnce.runner in s.procs
      then Distance(s.procs[s.sh.closeOnce.runner].pc) else 0
    case _ => 0
  }

  /** A Shutdown in progress that no failed hook stands in the way of. */
  ghost predicate Hopeful(cfg: Config, s: State, id: nat) {
    && Inv(cfg, s) && id in s.procs && s.procs[id].role.Stopper?
    && s.sh.hookResult != Some(false) && s.procs[id].pc != Returned(false)
  }

  /** All choices of the run are the favourable ones: no context ends, every hook succeeds. */
  predicate Favourable(run: seq<Action>) {
    forall i :: 0 <= i < |run| && run[i].Step? ==> run[i].choice
  }

  /** A Shutdown that has not returned can step itself, or the one it waits for can. */
  lemma HelperEnabled(cfg: Config, s: State, id: nat)
    requires Inv(cfg, s) && id in s.procs && s.procs[id].role.Stopper? && !s.procs[id].pc.Returned?
    ensures Enabled(s, Helper(s, id))
  {
    assert Agrees(cfg, s.sh, id, s.procs[id]);
    if s.procs[id].pc.DrainPoll? { ClosedPending(cfg, s); }
  }

  lemma FavourableHook(sh: Shared, id: nat, pc: Pc)
    requires InHook(pc) && sh.hookResult != Some(false)
    ensures HookStep(sh, id, pc, true).sh.hookResult != Some(false)
  {
  }

  lemma FavourableStep(cfg: Config, sh: Shared, id: nat, p: Proc)
    requires StepEnabled(sh, p.pc, true) && sh.hookResult != Some(false)
    ensures CallerStep(cfg, sh, id, p, true).sh.hookResult != Some(false)
  {
    hide EnqueueStep, FlushStep, ShutdownStep, HookStep;
    if InEnqueue(p.pc) { EnqueueKeepsHook(cfg, sh, id, CarriedBy(p.role), p.pc); }
    else if InFlush(p.pc) { FlushKeepsShared(cfg, sh, p.role, p.pc, true); }
    else if InShutdown(p.pc) { ShutdownKeepsHook(cfg, sh, id, p.pc, true); }
    else { FavourableHook(sh, id, p.pc); }
  }

  lemma HopefulCaller(cfg: Config, s: State, id: nat)
    requires Inv(cfg, s) && id in s.procs
    ensures Agrees(cfg, s.sh, id, s.procs[id]) && ChannelsAgree(cfg, s.sh)
  {
  }

  lemma HelperKeepsHope(cfg: Config, s: State, id: nat)
    requires Hopeful(cfg, s, id) && s.procs[id].pc != Returned(true) && Enabled(s, Helper(s, id))
    ensures Hopeful(cfg, Apply(cfg, s, Helper(s, id)), id)
  {
    hide Inv, CallerStep, Worked, Agrees, ChannelsAgree;
    var a := Helper(s, id);
    ApplyKeepsInv(cfg, s, a);
    match a
    case Call(_, _) =>
    case Work(choice) => WorkKeepsHook(s.sh, choice);
    case Step(j, _) =>
      HopefulCaller(cfg, s, id);
      FavourableStep(cfg, s.sh, j, s.procs[j]);
      if j == id { PatientStep(cfg, s.sh, id, s.procs[id]); }
  }

  lemma OwnStepNearer(cfg: Config, sh: Shared, id: nat, p: Proc)
    requires Agrees(cfg, sh, id, p) && p.role.Stopper? && StepEnabled(sh, p.pc, true)
    requires p.pc.DrainPoll? ==> sh.pending == 0
    ensures Distance(CallerStep(cfg, sh, id, p, true).pc) < Distance(p.pc)
  {
    hide Distance, FlushStep, ShutdownStep, HookStep, EnqueueStep;
    if InFlush(p.pc) { FlushNearer(cfg, sh, p.role, p.pc, true); }
    else if InShutdown(p.pc) { ShutdownNearer(cfg, sh, id, p.pc, true); }
    else { assert InHook(p.pc); HookNearer(sh, id, p.pc, true); }
  }

  lemma FlushNearer(cfg: Config, sh: Shared, role: Role, pc: Pc, choice: bool)
    requires InFlush(pc) && (pc.DrainPoll? ==> sh.pending == 0)
    ensures Distance(FlushStep(cfg, sh, role, pc, choice).pc) < Distance(pc)
  {
  }

  lemma ShutdownNearer(cfg: Config, sh: Shared, id: nat, pc: Pc, choice: bool)
    requires InShutdown(pc)
    ensures Distance(ShutdownStep(cfg, sh, id, pc, choice).pc) < Distance(pc)
  {
  }

  lemma HookNearer(sh: Shared, id: nat, pc: Pc, choice: bool)
    requires InHook(pc)
    ensures Distance(HookStep(sh, id, pc, choice).pc) < Distance(pc)
  {
  }

  lemma SenderUnlocksSoon(cfg: Config, sh: Shared, id: nat, batch: Batch, pc: Pc)
    requires InEnqueue(pc) && Locks(pc)
    ensures var m := EnqueueStep(cfg, sh, id, batch, pc);
            m.sh.lock.None? || (m.sh.lock == sh.lock && UnlockDistance(m.pc) < UnlockDistance(pc))
    ensures UnlockDistance(pc) > 0
  {
  }

  lemma UnlockNearer(cfg: Config, sh: Shared, id: nat, p: Proc)
    requires Agrees(cfg, sh, id, p) && Locks(p.pc)
    ensures var m := CallerStep(cfg, sh, id, p, true);
            m.sh.lock.None? || (m.sh.lock == sh.lock && UnlockDistance(m.pc) < UnlockDistance(p.pc))
    ensures UnlockDistance(p.pc) > 0
  {
    hide Agrees, EnqueueStep;
    if InEnqueue(p.pc) { SenderUnlocksSoon(cfg, sh, id, CarriedBy(p.role), p.pc); }
  }

  lemma RunnerNearer(cfg: Config, sh: Shared, id: nat, p: Proc)
    requires Agrees(cfg, sh, id, p) && (StopRunner(p.pc) || HookRunner(p.pc))
    ensures StepEnabled(sh, p.pc, true)
    ensures var m := CallerStep(cfg, sh, id, p, true);
            && (StopRunner(p.pc) ==>
                  !m.sh.stopOnce.Running? || (m.sh.stopOnce == sh.stopOnce && Distance(m.pc) < Distance(p.pc)))
            && (HookRunner(p.pc) ==>
                  !m.sh.closeOnce.Running? || (m.sh.closeOnce == sh.closeOnce && Distance(m.pc) < Distance(p.pc)))
    ensures Distance(p.pc) > 0
  {
  }

  lemma HelperNearer(cfg: Config, s: State, id: nat)
    requires Hopeful(cfg, s, id) && s.procs[id].pc != Returned(true) && Enabled(s, Helper(s, id))
    ensures var t := Apply(cfg, s, Helper(s, id));
            id in t.procs &&
            (Distance(t.procs[id].pc) < Distance(s.procs[id].pc)
             || (t.procs[id] == s.procs[id] && Wait(t, id) < Wait(s, id)))
  {
    hide CallerStep, Worked;
    var a := Helper(s, id);
    var p := s.procs[id];
    assert Agrees(cfg, s.sh, id, p);
    match a
    case Call(_, _) =>
    case Work(choice) => WorkerStepCounts(s.sh, choice);
    case Step(j, _) =>
      if j == id {
        OwnStepNearer(cfg, s.sh, id, p);
      } else {
        var q := s.procs[j];
        assert Agrees(cfg, s.sh, j, q);
        if p.pc.StopLock? { UnlockNearer(cfg, s.sh, j, q); } else { RunnerNearer(cfg, s.sh, j, q); }
      }
  }

  /** A Shutdown in progress can be brought to return true, without any context ending. */
  lemma {:induction false} HopeIsFulfilled(cfg: Config, s: State, id: nat) returns (run: seq<Action>)
    requires Hopeful(cfg, s, id)
    ensures Runs(cfg, s, run) && Favourable(run)
    ensures var t := After(cfg, s, run); id in t.procs && t.procs[id].pc == Returned(true)
    decreases Distance(s.procs[id].pc), Wait(s, id)
  {
    if s.procs[id].pc == Returned(true) {
      run := [];
    } else {
      HelperEnabled(cfg, s, id);
      HelperKeepsHope(cfg, s, id);
      HelperNearer(cfg, s, id);
      var a := Helper(s, id);
      var rest := HopeIsFulfilled(cfg, Apply(cfg, s, a), id);
      run := [a] + rest;
      assert run[1..] == rest;
      assert Favourable(run) by {
        forall i | 0 <= i < |run| && run[i].Step? ensures run[i].choice {
          if i > 0 { assert run[i] == rest[i - 1]; }
        }
      }
    }
  }

  /** A call that returns true after a run with no unlucky choice. */
  ghost predicate CanReturnTrue(cfg: Config, s: State, id: nat) {
    exists run :: Runs(cfg, s, run) && Favourable(run)
      && id in After(cfg, s, run).procs && After(cfg, s, run).procs[id].pc == Returned(true)
  }

  lemma {:induction false} FailedHookIsFinal(cfg: Config, s: State, run: seq<Action>)
    requires Inv(cfg, s) && Runs(cfg, s, run) && s.sh.hookResult == Some(false)
    ensures Inv(cfg, After(cfg, s, run)) && After(cfg, s, run).sh.hookResult == Some(false)
    decreases |run|
  {
    if run == [] {
    } else {
      HookResultIsFinal(cfg, s, run[0]);
      ApplyKeepsInv(cfg, s, run[0]);
      FailedHookIsFinal(cfg, Apply(cfg, s, run[0]), run[1..]);
    }
  }

  /** A new Shutdown can still return true exactly when no failure is stored. */
  lemma ShutdownCanReturnTrue(cfg: Config, s: State, id: nat)
    requires Inv(cfg, s) && id !in s.procs
    ensures CanReturnTrue(cfg, Apply(cfg, s, Call(id, Stopper)), id) <==> s.sh.hookResult != Some(false)
  {
    var c := Apply(cfg, s, Call(id, Stopper));
    ApplyKeepsInv(cfg, s, Call(id, Stopper));
    if s.sh.hookResult != Some(false) {
      var run := HopeIsFulfilled(cfg, c, id);
      assert CanReturnTrue(cfg, c, id);
    } else {
      forall run | Runs(cfg, c, run) && id in After(cfg, c, run).procs
        ensures After(cfg, c, run).procs[id].pc != Returned(true)
      {
        FailedHookIsFinal(cfg, c, run);
        RunKeepsCall(cfg, c, run, id);
        var t := After(cfg, c, run);
        assert HookClause(cfg, t.sh, id, t.procs[id]);
      }
    }
  }
}
