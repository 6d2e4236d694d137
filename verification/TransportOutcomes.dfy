/** What the outcomes of exports and hooks become: the totals, the stored result and what each call returns, told
    from the choices of the run alone. */
module TransportOutcomes {
  import opened Prelude
  import opened Transport
  import opened TransportInvariant
  import opened TransportSafety
  import opened TransportProgress

  // ---------- exports ----------

  /** The outcome of an export that ends with this action. */
  function ExportEnding(s: State, a: Action): seq<Settlement> {
    if a.Work? && s.sh.worker.Exporting? then [Settlement(s.sh.worker.batch, a.choice)] else []
  }

  /** The exports of a run, each with its outcome. */
  function ExportsOf(cfg: Config, s: State, run: seq<Action>): seq<Settlement>
    requires Runs(cfg, s, run)
    decreases |run|
  {
    if run == [] then [] else ExportEnding(s, run[0]) + ExportsOf(cfg, Apply(cfg, s, run[0]), run[1..])
  }

  /** The export that is over and not yet counted. */
  function Outstanding(sh: Shared): seq<Settlement> {
    match sh.worker
    case Exported(b, ok) => [Settlement(b, ok)]
    case _ => []
  }

  function Number(settled: seq<Settlement>, ok: bool): nat {
    if settled == [] then 0
    else Number(settled[..|settled| - 1], ok) + if settled[|settled| - 1].ok == ok then 1 else 0
  }

  lemma WorkSettles(sh: Shared, choice: bool)
    requires WorkEnabled(sh, choice)
    ensures Worked(sh, choice).settled == if sh.worker.Exported? then sh.settled + Outstanding(sh) else sh.settled
  {
  }

  lemma WorkEnds(sh: Shared, choice: bool)
    requires WorkEnabled(sh, choice)
    ensures Outstanding(Worked(sh, choice))
         == if sh.worker.Exporting? then [Settlement(sh.worker.batch, choice)] else []
    ensures !sh.worker.Exported? ==> Outstanding(sh) == []
  {
  }

  lemma WorkExports(sh: Shared, choice: bool)
    requires WorkEnabled(sh, choice)
    ensures var t := Worked(sh, choice);
      t.settled + Outstanding(t)
      == sh.settled + Outstanding(sh) + if sh.worker.Exporting? then [Settlement(sh.worker.batch, choice)] else []
  {
    hide *;
    WorkSettles(sh, choice);
    WorkEnds(sh, choice);
  }

  lemma StepExports(cfg: Config, s: State, a: Action)
    requires Enabled(s, a)
    ensures var t := Apply(cfg, s, a).sh;
      t.settled + Outstanding(t) == s.sh.settled + Outstanding(s.sh) + ExportEnding(s, a)
  {
    match a
    case Call(_, _) =>
    case Work(choice) => WorkExports(s.sh, choice);
    case Step(id, choice) =>
      hide CallerStep, StepEnabled;
      CallerKeepsExports(cfg, s.sh, id, s.procs[id], choice);
  }

  lemma CallerKeepsExports(cfg: Config, sh: Shared, id: nat, p: Proc, choice: bool)
    requires StepEnabled(sh, p.pc, choice)
    ensures CallerStep(cfg, sh, id, p, choice).sh.settled == sh.settled
    ensures CallerStep(cfg, sh, id, p, choice).sh.worker == sh.worker
  {
    if !InEnqueue(p.pc) { OthersKeepTotals(cfg, sh, id, p, choice); }
  }

  lemma {:induction false} RunExports(cfg: Config, s: State, run: seq<Action>)
    requires Runs(cfg, s, run)
    ensures var t := After(cfg, s, run).sh;
      t.settled + Outstanding(t) == s.sh.settled + Outstanding(s.sh) + ExportsOf(cfg, s, run)
    decreases |run|
  {
    hide Apply, Enabled, Outstanding, ExportEnding;
    if run == [] {
    } else {
      StepExports(cfg, s, run[0]);
      RunExports(cfg, Apply(cfg, s, run[0]), run[1..]);
    }
  }

  lemma {:induction false} OksAreNumber(settled: seq<Settlement>)
    ensures Oks(settled) == Number(settled, true) && Number(settled, true) + Number(settled, false) == |settled|
  {
    if settled == [] {
    } else {
      OksAreNumber(settled[..|settled| - 1]);
    }
  }

  /** Each export of a run is settled once, in order, with its own outcome; `delivered` counts those that
      succeeded and `failed` those that did not. */
  lemma SettledAsExported(cfg: Config, run: seq<Action>)
    requires Runs(cfg, Init(), run)
    ensures var t := After(cfg, Init(), run).sh;
      && t.settled + Outstanding(t) == ExportsOf(cfg, Init(), run)
      && t.delivered == Number(t.settled, true) && t.failed == Number(t.settled, false)
  {
    hide Inv, Outstanding;
    NothingExported();
    RunExports(cfg, Init(), run);
    InitInv(cfg);
    RunKeepsInv(cfg, Init(), run);
    var t := After(cfg, Init(), run);
    InvTallies(cfg, t);
    OksAreNumber(t.sh.settled);
    hide ExportsOf;
    assert Init().sh.settled + Outstanding(Init().sh) + ExportsOf(cfg, Init(), run) == ExportsOf(cfg, Init(), run);
  }

  lemma NothingExported()
    ensures Init().sh.settled == [] && Outstanding(Init().sh) == []
  {
  }

  lemma InvTallies(cfg: Config, s: State)
    requires Inv(cfg, s)
    ensures s.sh.delivered == Oks(s.sh.settled) && s.sh.delivered + s.sh.failed == |s.sh.settled|
  {
  }

  // ---------- the shutdown hook ----------

  /** The outcome of the shutdown hook, when it ends with this action: an error and a context that ends are false. */
  function HookEnding(s: State, a: Action): seq<bool> {
    if a.Step? && a.id in s.procs && s.procs[a.id].pc.HookWait? then [a.choice] else []
  }

  function HookOutcomes(cfg: Config, s: State, run: seq<Action>): seq<bool>
    requires Runs(cfg, s, run)
    decreases |run|
  {
    if run == [] then [] else HookEnding(s, run[0]) + HookOutcomes(cfg, Apply(cfg, s, run[0]), run[1..])
  }

  function Stored(result: Option<bool>): seq<bool> {
    match result
    case Some(ok) => [ok]
    case None => []
  }

  lemma HookStepStores(cfg: Config, sh: Shared, id: nat, p: Proc, choice: bool)
    requires HookClause(cfg, sh, id, p) && InHook(p.pc)
    ensures Stored(HookStep(sh, id, p.pc, choice).sh.hookResult)
         == Stored(sh.hookResult) + if p.pc.HookWait? then [choice] else []
  {
  }

  lemma StepStores(cfg: Config, s: State, a: Action)
    requires Inv(cfg, s) && Enabled(s, a)
    ensures Stored(Apply(cfg, s, a).sh.hookResult) == Stored(s.sh.hookResult) + HookEnding(s, a)
  {
    hide EnqueueStep, FlushStep, ShutdownStep, HookStep, Worked, WorkEnabled, StepEnabled, HookClause, Stored;
    match a
    case Call(_, _) =>
    case Work(choice) => WorkKeepsHook(s.sh, choice);
    case Step(id, choice) =>
      var p := s.procs[id];
      assert Agrees(cfg, s.sh, id, p);
      hide Inv, Agrees;
      PlaceOf(s.sh, p.pc, choice);
      if InEnqueue(p.pc) { EnqueueKeepsHook(cfg, s.sh, id, CarriedBy(p.role), p.pc); }
      else if InFlush(p.pc) { FlushKeepsShared(cfg, s.sh, p.role, p.pc, choice); }
      else if InShutdown(p.pc) { ShutdownKeepsHook(cfg, s.sh, id, p.pc, choice); }
      else { HookClauseOf(cfg, s, id); HookStepStores(cfg, s.sh, id, p, choice); }
  }

  lemma HookClauseOf(cfg: Config, s: State, id: nat)
    requires Inv(cfg, s) && id in s.procs
    ensures HookClause(cfg, s.sh, id, s.procs[id])
  {
    assert Agrees(cfg, s.sh, id, s.procs[id]);
  }

  lemma PlaceOf(sh: Shared, pc: Pc, choice: bool)
    requires StepEnabled(sh, pc, choice)
    ensures InEnqueue(pc) || InFlush(pc) || InShutdown(pc) || InHook(pc)
    ensures pc.HookWait? ==> InHook(pc) && !InEnqueue(pc) && !InFlush(pc) && !InShutdown(pc)
  {
  }

  lemma {:induction false} RunStores(cfg: Config, s: State, run: seq<Action>)
    requires Inv(cfg, s) && Runs(cfg, s, run)
    ensures Stored(After(cfg, s, run).sh.hookResult) == Stored(s.sh.hookResult) + HookOutcomes(cfg, s, run)
    decreases |run|
  {
    hide Inv, Apply, Enabled, Stored, HookEnding;
    if run == [] {
    } else {
      StepStores(cfg, s, run[0]);
      ApplyKeepsInv(cfg, s, run[0]);
      RunStores(cfg, Apply(cfg, s, run[0]), run[1..]);
    }
  }

  /** The stored result is the outcome of the one hook call of the run, if it is over. */
  lemma HookResultIsOutcome(cfg: Config, run: seq<Action>)
    requires Runs(cfg, Init(), run)
    ensures Stored(After(cfg, Init(), run).sh.hookResult) == HookOutcomes(cfg, Init(), run)
    ensures forall ok :: After(cfg, Init(), run).sh.hookResult == Some(ok) <==> HookOutcomes(cfg, Init(), run) == [ok]
    ensures |HookOutcomes(cfg, Init(), run)| <= 1
  {
    hide Inv, HookOutcomes, Runs, After;
    InitInv(cfg);
    RunStores(cfg, Init(), run);
    assert Stored(Init().sh.hookResult) == [];
  }

  /** Once the hook has failed or timed out, no Shutdown returns true. */
  lemma FailedHookFailsEveryShutdown(cfg: Config, run: seq<Action>, id: nat)
    requires Runs(cfg, Init(), run) && false in HookOutcomes(cfg, Init(), run)
    ensures var t := After(cfg, Init(), run);
      id in t.procs && t.procs[id].role.Stopper? ==> t.procs[id].pc != Returned(true)
  {
    hide HookOutcomes, Inv;
    HookResultIsOutcome(cfg, run);
    InitInv(cfg);
    RunKeepsInv(cfg, Init(), run);
    var t := After(cfg, Init(), run);
    if id in t.procs && t.procs[id].role.Stopper? { StoredFailureIsFinal(cfg, t, id); }
  }

  /** Whatever earlier Shutdowns did, a new one can still return true if and only if no hook call has failed. */
  lemma ShutdownCanStillSucceed(cfg: Config, run: seq<Action>, id: nat)
    requires Runs(cfg, Init(), run) && id !in After(cfg, Init(), run).procs
    ensures CanReturnTrue(cfg, Apply(cfg, After(cfg, Init(), run), Call(id, Stopper)), id)
       <==> false !in HookOutcomes(cfg, Init(), run)
  {
    hide HookOutcomes, Inv, CanReturnTrue, Apply;
    HookResultIsOutcome(cfg, run);
    InitInv(cfg);
    RunKeepsInv(cfg, Init(), run);
    ShutdownCanReturnTrue(cfg, After(cfg, Init(), run), id);
  }

  /** A Shutdown that returns true has seen the shutdown hook called, once and with success, if there is one. */
  lemma ShutdownHookIsCalled(cfg: Config, run: seq<Action>, id: nat)
    requires Runs(cfg, Init(), run)
    requires var t := After(cfg, Init(), run);
             id in t.procs && t.procs[id].role.Stopper? && t.procs[id].pc == Returned(true)
    ensures HookOutcomes(cfg, Init(), run) == if cfg.shutdownHook then [true] else []
  {
    hide HookOutcomes, Inv;
    HookResultIsOutcome(cfg, run);
    InitInv(cfg);
    RunKeepsInv(cfg, Init(), run);
    TrueHasResult(cfg, After(cfg, Init(), run), id);
  }

  lemma TrueHasResult(cfg: Config, s: State, id: nat)
    requires Inv(cfg, s) && id in s.procs && s.procs[id].role.Stopper? && s.procs[id].pc == Returned(true)
    ensures s.sh.hookResult == if cfg.shutdownHook then Some(true) else None
  {
    assert Agrees(cfg, s.sh, id, s.procs[id]);
  }

  // ---------- what a call returns ----------

  /** Where a call may have to give up: its context ends, or its flush hook fails. */
  predicate MayGiveUp(pc: Pc) {
    pc.DrainWait? || pc.FlushCall? || pc.AwaitStopped? || pc.AwaitHook?
  }

  predicate GivesUp(s: State, a: Action, id: nat) {
    a == Step(id, false) && id in s.procs && MayGiveUp(s.procs[id].pc)
  }

  predicate GaveUp(cfg: Config, s: State, run: seq<Action>, id: nat)
    requires Runs(cfg, s, run)
    decreases |run|
  {
    run != [] && (GivesUp(s, run[0], id) || GaveUp(cfg, Apply(cfg, s, run[0]), run[1..], id))
  }

  /** A call has returned false only if it gave up, or the shutdown hook has failed. */
  predicate FalseFor(s: State, id: nat, gaveUp: bool) {
    id in s.procs && !s.procs[id].role.Sender? ==>
      && (gaveUp ==> s.procs[id].pc == Returned(false))
      && (s.procs[id].pc == Returned(false) ==> gaveUp || (s.procs[id].role.Stopper? && s.sh.hookResult == Some(false)))
  }

  lemma CallerFalseFor(cfg: Config, sh: Shared, id: nat, p: Proc, choice: bool)
    requires Agrees(cfg, sh, id, p) && ChannelsAgree(cfg, sh) && StepEnabled(sh, p.pc, choice) && !p.role.Sender?
    ensures var m := CallerStep(cfg, sh, id, p, choice);
      && (!choice && MayGiveUp(p.pc) ==> m.pc == Returned(false))
      && (m.pc == Returned(false) ==>
            (!choice && MayGiveUp(p.pc)) || (p.role.Stopper? && m.sh.hookResult == Some(false)))
  {
    hide InOrder, FlushClause;
  }

  lemma StepFalseFor(cfg: Config, s: State, a: Action, id: nat, gaveUp: bool)
    requires Inv(cfg, s) && Enabled(s, a) && FalseFor(s, id, gaveUp) && (gaveUp ==> id in s.procs)
    ensures FalseFor(Apply(cfg, s, a), id, gaveUp || GivesUp(s, a, id))
  {
    hide CallerStep, Worked, FlushClause, InOrder, Conserved, Tallied;
    if a.Step? && a.id == id {
      if !s.procs[id].role.Sender? {
        assert Agrees(cfg, s.sh, id, s.procs[id]);
        CallerFalseFor(cfg, s.sh, id, s.procs[id], a.choice);
      }
    } else if s.sh.hookResult.Some? {
      HookResultIsFinal(cfg, s, a);
    }
  }

  lemma StepKeepsProcs(cfg: Config, s: State, a: Action, id: nat)
    requires Enabled(s, a) && id in s.procs
    ensures id in Apply(cfg, s, a).procs
  {
  }

  lemma {:induction false} RunFalseFor(cfg: Config, s: State, run: seq<Action>, id: nat, gaveUp: bool)
    requires Inv(cfg, s) && Runs(cfg, s, run) && FalseFor(s, id, gaveUp) && (gaveUp ==> id in s.procs)
    ensures FalseFor(After(cfg, s, run), id, gaveUp || GaveUp(cfg, s, run, id))
    decreases |run|
  {
    hide Inv, Apply, Enabled, FalseFor;
    if run == [] {
    } else {
      StepFalseFor(cfg, s, run[0], id, gaveUp);
      ApplyKeepsInv(cfg, s, run[0]);
      if id in s.procs { StepKeepsProcs(cfg, s, run[0], id); }
      RunFalseFor(cfg, Apply(cfg, s, run[0]), run[1..], id, gaveUp || GivesUp(s, run[0], id));
    }
  }

  /** What a Flush or Shutdown returns, told from the run: true if and only if it did not give up and, for a
      Shutdown, no call of the shutdown hook failed. */
  lemma ResultIff(cfg: Config, run: seq<Action>, id: nat)
    requires Runs(cfg, Init(), run)
    requires var t := After(cfg, Init(), run); id in t.procs && !t.procs[id].role.Sender? && t.procs[id].pc.Returned?
    ensures var p := After(cfg, Init(), run).procs[id];
      p.pc.result <==>
        !GaveUp(cfg, Init(), run, id) && (p.role.Stopper? ==> false !in HookOutcomes(cfg, Init(), run))
  {
    hide Inv, HookOutcomes, GaveUp, Runs, After;
    InitInv(cfg);
    RunFalseFor(cfg, Init(), run, id, false);
    HookResultIsOutcome(cfg, run);
    var t := After(cfg, Init(), run);
    if t.procs[id].role.Stopper? && t.procs[id].pc.result && t.sh.hookResult == Some(false) {
      RunKeepsInv(cfg, Init(), run);
      StoredFailureIsFinal(cfg, t, id);
    }
  }

  // ---------- the flush hook is called ----------

  /** The outcome of the call's flush hook, when it ends with this action. */
  function FlushEnding(s: State, a: Action, id: nat): seq<bool> {
    if a.Step? && a.id == id && id in s.procs && s.procs[id].pc.FlushCall? then [a.choice] else []
  }

  function FlushOutcomes(cfg: Config, s: State, run: seq<Action>, id: nat): seq<bool>
    requires Runs(cfg, s, run)
    decreases |run|
  {
    if run == [] then [] else FlushEnding(s, run[0], id) + FlushOutcomes(cfg, Apply(cfg, s, run[0]), run[1..], id)
  }

  /** With this action the call finds the worker stopped at its start. */
  predicate Peeks(s: State, a: Action, id: nat) {
    a.Step? && a.id == id && id in s.procs && s.procs[id].pc.StopPeek? && s.sh.stopped
  }

  predicate FoundStopped(cfg: Config, s: State, run: seq<Action>, id: nat)
    requires Runs(cfg, s, run)
    decreases |run|
  {
    run != [] && (Peeks(s, run[0], id) || FoundStopped(cfg, Apply(cfg, s, run[0]), run[1..], id))
  }

  function Successes(cfg: Config, found: bool): seq<bool> {
    if cfg.flushHook && !found then [true] else []
  }

  /** Which calls of its flush hook a Flush or Shutdown has behind it. A Shutdown that finds the worker stopped
      goes straight on to the shutdown hook. */
  predicate FlushLaw(cfg: Config, p: Proc, calls: seq<bool>, found: bool) {
    && (InFlush(p.pc) || (InShutdown(p.pc) && !Signalling(p.pc)) ==> calls == [])
    && (p.pc.FlushCall? ==> cfg.flushHook)
    && (InFlush(p.pc) || InShutdown(p.pc) || p.role.Flusher? ==> !found)
    && (Signalling(p.pc) || InHook(p.pc) || p.pc == Returned(true) ==> calls == Successes(cfg, found))
  }

  lemma CallerFlushLaw(cfg: Config, sh: Shared, id: nat, p: Proc, choice: bool, calls: seq<bool>, found: bool)
    requires RoleClause(cfg, p) && StepEnabled(sh, p.pc, choice) && !p.role.Sender? && FlushLaw(cfg, p, calls, found)
    ensures var q := p.(pc := CallerStep(cfg, sh, id, p, choice).pc);
      FlushLaw(cfg, q, calls + (if p.pc.FlushCall? then [choice] else []), found || (p.pc.StopPeek? && sh.stopped))
  {
    assert calls + [] == calls && [] + [choice] == [choice];
  }

  /** The law for the call `id`, if there is one. */
  predicate FlushLawFor(cfg: Config, s: State, id: nat, calls: seq<bool>, found: bool) {
    if id in s.procs then !s.procs[id].role.Sender? ==> FlushLaw(cfg, s.procs[id], calls, found)
    else calls == [] && !found
  }

  lemma StepFlushLaw(cfg: Config, s: State, a: Action, id: nat, calls: seq<bool>, found: bool)
    requires Inv(cfg, s) && Enabled(s, a) && FlushLawFor(cfg, s, id, calls, found)
    ensures FlushLawFor(cfg, Apply(cfg, s, a), id, calls + FlushEnding(s, a, id), found || Peeks(s, a, id))
  {
    hide CallerStep, Worked, FlushLaw, Conserved, InOrder, Tallied;
    assert calls + [] == calls;
    if a.Step? && a.id == id {
      if !s.procs[id].role.Sender? {
        assert Agrees(cfg, s.sh, id, s.procs[id]);
        CallerFlushLaw(cfg, s.sh, id, s.procs[id], a.choice, calls, found);
      }
    } else if a.Call? && a.id == id && !a.role.Sender? {
      FirstFlushLaw(cfg, a.role, |s.sh.pushed|);
    }
  }

  lemma FirstFlushLaw(cfg: Config, role: Role, begun: nat)
    requires !role.Sender?
    ensures FlushLaw(cfg, Proc(role, FirstPc(cfg, role), begun), [], false)
  {
  }

  lemma {:induction false} RunFlushLaw(cfg: Config, s: State, run: seq<Action>, id: nat, calls: seq<bool>, found: bool)
    requires Inv(cfg, s) && Runs(cfg, s, run) && FlushLawFor(cfg, s, id, calls, found)
    ensures FlushLawFor(cfg, After(cfg, s, run), id, calls + FlushOutcomes(cfg, s, run, id),
                        found || FoundStopped(cfg, s, run, id))
    decreases |run|
  {
    hide Inv, Apply, Enabled, FlushLawFor, FlushEnding, Peeks;
    if run == [] {
      assert calls + [] == calls;
    } else {
      var e, rest := FlushEnding(s, run[0], id), FlushOutcomes(cfg, Apply(cfg, s, run[0]), run[1..], id);
      StepFlushLaw(cfg, s, run[0], id, calls, found);
      ApplyKeepsInv(cfg, s, run[0]);
      RunFlushLaw(cfg, Apply(cfg, s, run[0]), run[1..], id, calls + e, found || Peeks(s, run[0], id));
      assert (calls + e) + rest == calls + (e + rest);
    }
  }

  /** A call that returns true has called its flush hook once, with success, if the exporter has one; a Shutdown that
      found the worker stopped at its start has not called it. */
  lemma FlushHookIsCalled(cfg: Config, run: seq<Action>, id: nat)
    requires Runs(cfg, Init(), run)
    requires var t := After(cfg, Init(), run);
             id in t.procs && !t.procs[id].role.Sender? && t.procs[id].pc == Returned(true)
    ensures FlushOutcomes(cfg, Init(), run, id)
         == if cfg.flushHook && !FoundStopped(cfg, Init(), run, id) then [true] else []
  {
    hide Inv, FlushOutcomes, FoundStopped, Runs, After;
    InitInv(cfg);
    RunFlushLaw(cfg, Init(), run, id, [], false);
    assert [] + FlushOutcomes(cfg, Init(), run, id) == FlushOutcomes(cfg, Init(), run, id);
  }

  // ---------- Shutdown of a stopped transport ----------

  /** Nothing is locked, drained or flushed any more. */
  predicate PastDrain(pc: Pc) {
    pc.StopPeek? || InHook(pc) || pc.Returned?
  }

  lemma CallerStaysPast(cfg: Config, sh: Shared, id: nat, p: Proc, choice: bool)
    requires StepEnabled(sh, p.pc, choice) && sh.stopped && PastDrain(p.pc)
    ensures PastDrain(CallerStep(cfg, sh, id, p, choice).pc)
  {
    if InHook(p.pc) { assert PastDrain(HookStep(sh, id, p.pc, choice).pc); }
  }

  lemma StepStaysPast(cfg: Config, s: State, a: Action, id: nat)
    requires Enabled(s, a) && s.sh.stopped && id in s.procs && PastDrain(s.procs[id].pc)
    ensures var t := Apply(cfg, s, a); t.sh.stopped && id in t.procs && PastDrain(t.procs[id].pc)
  {
    ApplyGrows(cfg, s, a);
    hide CallerStep, Worked, PastDrain, StepEnabled, WorkEnabled;
    if a.Step? && a.id == id { CallerStaysPast(cfg, s.sh, id, s.procs[id], a.choice); }
  }

  lemma {:induction false} StoppedIsNotDrainedAgain(cfg: Config, s: State, run: seq<Action>, id: nat)
    requires Runs(cfg, s, run) && s.sh.stopped && id in s.procs && PastDrain(s.procs[id].pc)
    ensures var t := After(cfg, s, run); t.sh.stopped && id in t.procs && PastDrain(t.procs[id].pc)
    ensures FlushOutcomes(cfg, s, run, id) == []
    decreases |run|
  {
    if run == [] {
    } else {
      StepStaysPast(cfg, s, run[0], id);
      StoppedIsNotDrainedAgain(cfg, Apply(cfg, s, run[0]), run[1..], id);
      hide Apply, Enabled;
    }
  }

  /** A Shutdown that is called when the worker has stopped looks at nothing but that: it takes no lock, waits for
      no batch and calls no flush hook, in any run. */
  lemma SecondShutdown(cfg: Config, s: State, run: seq<Action>, id: nat)
    requires s.sh.stopped && cfg.peeksStopped && id !in s.procs
    requires Runs(cfg, Apply(cfg, s, Call(id, Stopper)), run)
    ensures var c := Apply(cfg, s, Call(id, Stopper));
            && FlushOutcomes(cfg, c, run, id) == []
            && id in After(cfg, c, run).procs && PastDrain(After(cfg, c, run).procs[id].pc)
  {
    StoppedIsNotDrainedAgain(cfg, Apply(cfg, s, Call(id, Stopper)), run, id);
  }

  // ---------- what may happen at any time ----------

  /** A context may end at every wait, and then the call returns false; a hook or an export that is under way may
      end either way, at any time. */
  lemma AnythingMayEnd(cfg: Config, s: State, id: nat, choice: bool)
    requires id in s.procs
    ensures var pc := s.procs[id].pc;
      && (pc.DrainWait? || pc.FlushCall? || pc.AwaitStopped? || pc.AwaitHook? ==>
            Enabled(s, Step(id, false)) && Apply(cfg, s, Step(id, false)).procs[id].pc == Returned(false))
      && (pc.FlushCall? || pc.HookWait? ==> Enabled(s, Step(id, choice)))
    ensures s.sh.worker.Exporting? ==> Enabled(s, Work(choice)) && ExportEnding(s, Work(choice)) != []
    ensures s.sh.worker.Selecting? ==> (Enabled(s, Work(true)) <==> s.sh.queue != [])
  {
  }
}
