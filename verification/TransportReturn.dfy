/** What brings a Shutdown to its return: once the transport is closed and drained, each call in progress and the
    worker have only so many steps left, and as long as a Shutdown has not returned one of them can step. */
module TransportReturn {
  import opened Prelude
  import opened Transport
  import opened TransportInvariant
  import opened TransportSafety
  import opened TransportProgress

  /** How many steps of a run are those of the call `id`. */
  function OwnSteps(run: seq<Action>, id: nat): nat {
    if run == [] then 0 else (if run[0].Step? && run[0].id == id then 1 else 0) + OwnSteps(run[1..], id)
  }

  /** Closed, and nothing is pending. */
  predicate Quiet(sh: Shared) {
    sh.closed && sh.pending == 0
  }

  lemma QuietStays(cfg: Config, s: State, a: Action)
    requires Inv(cfg, s) && Enabled(s, a) && Quiet(s.sh)
    ensures Inv(cfg, Apply(cfg, s, a)) && Quiet(Apply(cfg, s, a).sh)
  {
    hide Inv, Worked, CallerStep, Grows;
    ApplyKeepsInv(cfg, s, a);
    ApplyGrows(cfg, s, a);
    ClosedAcceptsNothing(cfg, s, a);
    StepCounts(cfg, s, a);
    ClosedPending(cfg, s);
    ClosedPending(cfg, Apply(cfg, s, a));
    StillClosed(s.sh, Apply(cfg, s, a).sh);
  }

  lemma StillClosed(a: Shared, b: Shared)
    requires Grows(a, b) && a.closed
    ensures b.closed
  {
  }

  lemma EnqueueNearer(cfg: Config, sh: Shared, id: nat, batch: Batch, pc: Pc)
    requires InEnqueue(pc)
    ensures Distance(EnqueueStep(cfg, sh, id, batch, pc).pc) < Distance(pc)
  {
  }

  /** With nothing pending every step brings its call nearer to its return, whatever the choice. */
  lemma CallerNearer(cfg: Config, sh: Shared, id: nat, p: Proc, choice: bool)
    requires StepEnabled(sh, p.pc, choice) && sh.pending == 0
    ensures Distance(CallerStep(cfg, sh, id, p, choice).pc) < Distance(p.pc)
  {
    hide EnqueueStep, FlushStep, ShutdownStep, HookStep, Distance;
    if InEnqueue(p.pc) { EnqueueNearer(cfg, sh, id, CarriedBy(p.role), p.pc); }
    else if InFlush(p.pc) { FlushNearer(cfg, sh, p.role, p.pc, choice); }
    else if InShutdown(p.pc) { ShutdownNearer(cfg, sh, id, p.pc, choice); }
    else { HookNearer(sh, id, p.pc, choice); }
  }

  lemma OthersStandStill(cfg: Config, s: State, a: Action, id: nat)
    requires Enabled(s, a) && id in s.procs && !(a.Step? && a.id == id)
    ensures id in Apply(cfg, s, a).procs && Apply(cfg, s, a).procs[id] == s.procs[id]
  {
    hide Worked, CallerStep;
  }

  /** The ranking of every call in every run: what it has left and what it has stepped never exceeds what
      it had. */
  lemma {:induction false} EveryCallIsShort(cfg: Config, s: State, id: nat, run: seq<Action>)
    requires Inv(cfg, s) && Quiet(s.sh) && id in s.procs && Runs(cfg, s, run)
    ensures var t := After(cfg, s, run);
            && Inv(cfg, t) && Quiet(t.sh) && id in t.procs
            && Distance(t.procs[id].pc) + OwnSteps(run, id) <= Distance(s.procs[id].pc)
    decreases |run|
  {
    hide Inv, Distance, CallerStep, Worked;
    if run == [] {
    } else {
      var a := run[0];
      QuietStays(cfg, s, a);
      if a.Step? && a.id == id { CallerNearer(cfg, s.sh, id, s.procs[id], a.choice); }
      else { OthersStandStill(cfg, s, a, id); }
      EveryCallIsShort(cfg, Apply(cfg, s, a), id, run[1..]);
    }
  }

  /** So is what the worker has left: it only stops. */
  lemma WorkerIsShort(cfg: Config, s: State, run: seq<Action>)
    requires Inv(cfg, s) && Quiet(s.sh) && Runs(cfg, s, run)
    ensures WorkLeft(After(cfg, s, run).sh) + WorkSteps(run) == WorkLeft(s.sh) <= 2
  {
    hide Inv, Apply;
    ClosedPending(cfg, s);
    ClosedStaysClosed(cfg, s, run);
    WorkerStepsAreExact(cfg, s, run);
  }

  /** The Shutdown `id` has returned, and false only if the shutdown hook has failed. */
  predicate Answered(s: State, id: nat)
    requires id in s.procs
  {
    s.procs[id].pc == Returned(true) || (s.procs[id].pc == Returned(false) && s.sh.hookResult == Some(false))
  }

  // ---------- what a Shutdown may wait for ----------

  /** As long as a Shutdown has not returned somebody can step: it itself, the holder of the lock it waits
      for, the caller that runs the Once it waits for, or the worker; so no schedule gets stuck. */
  lemma UnreturnedIsNotStuck(cfg: Config, s: State, id: nat)
    requires Reachable(cfg, s) && id in s.procs && s.procs[id].role.Stopper? && !s.procs[id].pc.Returned?
    ensures Enabled(s, Helper(s, id)) && !Helper(s, id).Call?
    ensures Helper(s, id).Step? ==> Helper(s, id).id in s.procs && !s.procs[Helper(s, id).id].pc.Returned?
  {
    ReachableInv(cfg, s);
    HelperEnabled(cfg, s, id);
  }

  /** So at any point of any run where that step is not possible, the Shutdown has returned: true unless the
      shutdown hook has failed, if its context has not ended and its own hook calls have succeeded. */
  lemma PatientShutdownReturns(cfg: Config, s: State, id: nat, run: seq<Action>)
    requires Reachable(cfg, s) && id in s.procs && s.procs[id].role.Stopper?
    requires s.procs[id].pc == Returned(false) ==> s.sh.hookResult == Some(false)
    requires Runs(cfg, s, run) && Patient(run, id)
    requires var t := After(cfg, s, run); id in t.procs ==> !Enabled(t, Helper(t, id))
    ensures var t := After(cfg, s, run); id in t.procs && Answered(t, id)
  {
    hide Inv, Reachable, Apply, Helper, Enabled;
    ReachableInv(cfg, s);
    RunKeepsInv(cfg, s, run);
    RunKeepsCall(cfg, s, run, id);
    PatientShutdownFailsOnlyByHook(cfg, s, id, run);
    var t := After(cfg, s, run);
    if !t.procs[id].pc.Returned? {
      HelperEnabled(cfg, t, id);
      assert false;
    }
  }

  /** A run that ends where no call in progress and not the worker can step has returned the Shutdown. Its own
      context need not be able to end. */
  lemma CompleteRunReturns(cfg: Config, s: State, id: nat, run: seq<Action>)
    requires Reachable(cfg, s) && id in s.procs && s.procs[id].role.Stopper?
    requires s.procs[id].pc == Returned(false) ==> s.sh.hookResult == Some(false)
    requires Runs(cfg, s, run) && Patient(run, id)
    requires forall a: Action :: !a.Call? && (a.Step? && a.id == id ==> a.choice) ==> !Enabled(After(cfg, s, run), a)
    ensures var t := After(cfg, s, run); id in t.procs && Answered(t, id)
  {
    hide Inv, Reachable, Apply, Helper, Enabled;
    var t := After(cfg, s, run);
    if id in t.procs { HelperChooses(t, id); }
    PatientShutdownReturns(cfg, s, id, run);
  }

  lemma HttpHasNoHook(cfg: Config, s: State)
    requires Inv(cfg, s) && HttpConfig(cfg)
    ensures s.sh.hookResult.None?
  {
  }

  /** The HTTP transport has no hook that can fail: there the Shutdown has returned true. */
  lemma HttpShutdownReturnsTrue(cfg: Config, s: State, id: nat, run: seq<Action>)
    requires HttpConfig(cfg) && Reachable(cfg, s) && id in s.procs && s.procs[id].role.Stopper?
    requires s.procs[id].pc != Returned(false)
    requires Runs(cfg, s, run) && Patient(run, id)
    requires forall a: Action :: !a.Call? && (a.Step? && a.id == id ==> a.choice) ==> !Enabled(After(cfg, s, run), a)
    ensures var t := After(cfg, s, run); id in t.procs && t.procs[id].pc == Returned(true)
  {
    hide Inv, Reachable, Patient, Apply, Enabled, HttpConfig;
    ReachableInv(cfg, s);
    RunKeepsInv(cfg, s, run);
    HttpHasNoHook(cfg, After(cfg, s, run));
    CompleteRunReturns(cfg, s, id, run);
  }

  lemma HelperChooses(s: State, id: nat)
    requires id in s.procs
    ensures !Helper(s, id).Call? && (Helper(s, id).Step? && Helper(s, id).id == id ==> Helper(s, id).choice)
  {
  }

  // ---------- every schedule runs out ----------

  /** The steps that the calls `ids` have left together. */
  ghost function Together(ids: set<nat>, procs: map<nat, Proc>): nat
    requires ids <= procs.Keys
  {
    if ids == {} then 0
    else
      var id := Any(ids);
      Distance(procs[id].pc) + Together(ids - {id}, procs)
  }

  ghost function Any(ids: set<nat>): (n: nat)
    requires ids != {}
    ensures n in ids
  {
    var n: nat :| n in ids;
    n
  }

  lemma {:induction false} TogetherPick(ids: set<nat>, procs: map<nat, Proc>, id: nat)
    requires ids <= procs.Keys && id in ids
    ensures Together(ids, procs) == Distance(procs[id].pc) + Together(ids - {id}, procs)
    decreases |ids|
  {
    hide Distance, Any;
    var n := Any(ids);
    if n == id {
    } else {
      TogetherPick(ids - {n}, procs, id);
      TogetherPick(ids - {id}, procs, n);
      assert ids - {n} - {id} == ids - {id} - {n};
    }
  }

  lemma {:induction false} TogetherElsewhere(ids: set<nat>, procs: map<nat, Proc>, id: nat, p: Proc)
    requires ids <= procs.Keys && id !in ids
    ensures Together(ids, procs[id := p]) == Together(ids, procs)
    decreases |ids|
  {
    hide Distance, Any;
    if ids == {} {
    } else {
      TogetherElsewhere(ids - {Any(ids)}, procs, id, p);
    }
  }

  lemma {:induction false} TogetherBound(ids: set<nat>, procs: map<nat, Proc>)
    requires ids <= procs.Keys
    ensures Together(ids, procs) <= 19 * |ids|
    decreases |ids|
  {
    if ids == {} {
    } else {
      TogetherBound(ids - {Any(ids)}, procs);
    }
  }

  /** All that can still happen without new calls. */
  ghost function StepsLeft(s: State): nat {
    WorkLeft(s.sh) + Together(s.procs.Keys, s.procs)
  }

  lemma StepUsesUp(cfg: Config, s: State, a: Action)
    requires Inv(cfg, s) && Quiet(s.sh) && Enabled(s, a) && !a.Call?
    ensures StepsLeft(Apply(cfg, s, a)) < StepsLeft(s)
  {
    hide Inv, Distance, CallerStep, Worked, Together;
    QuietStays(cfg, s, a);
    StepCounts(cfg, s, a);
    ClosedAcceptsNothing(cfg, s, a);
    if a.Step? {
      var t := Apply(cfg, s, a);
      CallerNearer(cfg, s.sh, a.id, s.procs[a.id], a.choice);
      TogetherPick(s.procs.Keys, s.procs, a.id);
      TogetherPick(t.procs.Keys, t.procs, a.id);
      assert t.procs.Keys == s.procs.Keys;
      TogetherElsewhere(s.procs.Keys - {a.id}, s.procs, a.id, t.procs[a.id]);
    }
  }

  predicate NoCalls(run: seq<Action>) {
    forall i :: 0 <= i < |run| ==> !run[i].Call?
  }

  /** Once the transport is closed and drained every schedule of the calls in progress runs out: after two
      steps of the worker and nineteen of each call nobody can step, and then every patient Shutdown has
      returned (`CompleteRunReturns`). */
  lemma {:induction false} SchedulesRunOut(cfg: Config, s: State, run: seq<Action>)
    requires Inv(cfg, s) && Quiet(s.sh) && Runs(cfg, s, run) && NoCalls(run)
    ensures |run| <= StepsLeft(s) <= 2 + 19 * |s.procs.Keys|
    decreases |run|
  {
    hide Inv, Together, Worked, CallerStep;
    ClosedPending(cfg, s);
    TogetherBound(s.procs.Keys, s.procs);
    if run == [] {
    } else {
      QuietStays(cfg, s, run[0]);
      StepUsesUp(cfg, s, run[0]);
      SchedulesRunOut(cfg, Apply(cfg, s, run[0]), run[1..]);
    }
  }
}
