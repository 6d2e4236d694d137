/** Every fair schedule lets a Shutdown return, whatever other callers do at the same time and however many come. */
module TransportFair {
  import opened Prelude
  import opened Transport
  import opened TransportInvariant
  import opened TransportSafety
  import opened TransportProgress
  import opened TransportReturn

  // ---------- schedules without end ----------

  /** Who has the turn at each moment. A turn is lost if nobody has it or the action is not enabled. */
  datatype Schedule = Schedule(cfg: Config, start: State, turn: nat -> Option<Action>)

  ghost predicate Acts(x: Schedule, s: State, n: nat) {
    x.turn(n).Some? && Enabled(s, x.turn(n).value)
  }

  /** The state after `n` turns. */
  ghost function At(x: Schedule, n: nat): State {
    if n == 0 then x.start
    else
      var s := At(x, n - 1);
      if Acts(x, s, n - 1) then Apply(x.cfg, s, x.turn(n - 1).value) else s
  }

  datatype Actor = Worker | Caller(id: nat)

  predicate By(a: Action, who: Actor) {
    match who
    case Worker => a.Work?
    case Caller(id) => a.Step? && a.id == id
  }

  /** The actor takes a step in its turn. */
  ghost predicate Moves(x: Schedule, n: nat, who: Actor) {
    Acts(x, At(x, n), n) && By(x.turn(n).value, who)
  }

  /** The actor has a step to take that does not wait for its context to end. */
  predicate CanMove(s: State, who: Actor) {
    match who
    case Worker => WorkEnabled(s.sh, true) || WorkEnabled(s.sh, false)
    case Caller(id) => id in s.procs && StepEnabled(s.sh, s.procs[id].pc, true)
  }

  // ---------- fairness ----------

  /** From moment `n` on the actor steps some time, or cannot. */
  ghost predicate GetsTurn(x: Schedule, who: Actor, n: nat) {
    exists m: nat :: m >= n && (Moves(x, m, who) || !CanMove(At(x, m), who))
  }

  /** Nobody who can step for ever is left out for ever. */
  ghost predicate Fair(x: Schedule) {
    forall who: Actor, n: nat :: GetsTurn(x, who, n)
  }

  predicate WaitsForLock(s: State, id: nat) {
    id in s.procs && s.procs[id].pc.StopLock?
  }

  ghost predicate LockedFrom(x: Schedule, n: nat) {
    forall m: nat :: m >= n ==> At(x, m).sh.lock.Some?
  }

  ghost predicate GetsLock(x: Schedule, id: nat, n: nat) {
    WaitsForLock(At(x, n), id) ==> exists m: nat :: m >= n && (Moves(x, m, Caller(id)) || LockedFrom(x, m))
  }

  /** The mutex does not pass a waiting caller over for ever while it becomes free again and again. */
  ghost predicate NotPassedOver(x: Schedule, id: nat) {
    forall n: nat :: GetsLock(x, id, n)
  }

  /** The caller's context never ends and its own hook calls succeed. */
  ghost predicate Unhurried(x: Schedule, id: nat) {
    forall n: nat :: x.turn(n).Some? && By(x.turn(n).value, Caller(id)) ==> x.turn(n).value.choice
  }

  // ---------- what holds until an actor steps ----------

  lemma {:induction false} AtInv(x: Schedule, n: nat)
    requires Inv(x.cfg, x.start)
    ensures Inv(x.cfg, At(x, n))
  {
    hide Inv, Apply, Enabled;
    if n == 0 {
    } else {
      AtInv(x, n - 1);
      if Acts(x, At(x, n - 1), n - 1) { ApplyKeepsInv(x.cfg, At(x, n - 1), x.turn(n - 1).value); }
    }
  }

  type StateProperty = State -> bool

  /** Steps of others do not end the property. */
  ghost predicate Kept(cfg: Config, who: Actor, p: StateProperty) {
    forall t: State, a: Action :: Inv(cfg, t) && p(t) && Enabled(t, a) && !By(a, who) ==> p(Apply(cfg, t, a))
  }

  ghost predicate Stable(cfg: Config, p: StateProperty) {
    forall t: State, a: Action :: Inv(cfg, t) && p(t) && Enabled(t, a) ==> p(Apply(cfg, t, a))
  }

  /** Where it holds the actor can step. */
  ghost predicate Ready(cfg: Config, who: Actor, p: StateProperty) {
    forall t: State :: Inv(cfg, t) && p(t) ==> CanMove(t, who)
  }

  lemma {:induction false} KeptUntil(x: Schedule, who: Actor, p: StateProperty, n: nat, m: nat)
    requires Inv(x.cfg, x.start) && n <= m && p(At(x, n)) && Kept(x.cfg, who, p)
    requires forall k: nat :: n <= k < m ==> !Moves(x, k, who)
    ensures p(At(x, m))
    decreases m
  {
    hide Inv, Apply, Enabled, By;
    if n == m {
    } else {
      KeptUntil(x, who, p, n, m - 1);
      AtInv(x, m - 1);
      assert !Moves(x, m - 1, who);
    }
  }

  lemma {:induction false} StableFrom(x: Schedule, p: StateProperty, n: nat, m: nat)
    requires Inv(x.cfg, x.start) && n <= m && p(At(x, n)) && Stable(x.cfg, p)
    ensures p(At(x, m))
    decreases m
  {
    hide Inv, Apply, Enabled;
    if n == m {
    } else {
      StableFrom(x, p, n, m - 1);
      AtInv(x, m - 1);
    }
  }

  lemma {:induction false} FirstMove(x: Schedule, who: Actor, n: nat, m: nat) returns (k: nat)
    requires n <= m && Moves(x, m, who)
    ensures n <= k <= m && Moves(x, k, who) && forall j: nat :: n <= j < k ==> !Moves(x, j, who)
    decreases m - n
  {
    hide Moves;
    if Moves(x, n, who) {
      k := n;
    } else {
      k := FirstMove(x, who, n + 1, m);
    }
  }

  /** An actor that can step until it does, does. */
  lemma Eventually(x: Schedule, who: Actor, p: StateProperty, n: nat) returns (m: nat)
    requires Inv(x.cfg, x.start) && Fair(x) && p(At(x, n)) && Kept(x.cfg, who, p) && Ready(x.cfg, who, p)
    ensures m >= n && Moves(x, m, who) && p(At(x, m))
  {
    hide Inv, Moves, CanMove, Kept, At;
    assert GetsTurn(x, who, n);
    var k: nat :| k >= n && (Moves(x, k, who) || !CanMove(At(x, k), who));
    if j: nat :| n <= j <= k && Moves(x, j, who) {
      m := FirstMove(x, who, n, j);
      KeptUntil(x, who, p, n, m);
    } else {
      KeptUntil(x, who, p, n, k);
      AtInv(x, k);
      assert false;
    }
  }

  lemma Moved(x: Schedule, n: nat, who: Actor)
    requires Moves(x, n, who)
    ensures x.turn(n).Some? && Enabled(At(x, n), x.turn(n).value) && By(x.turn(n).value, who)
    ensures At(x, n + 1) == Apply(x.cfg, At(x, n), x.turn(n).value)
  {
  }

  // ---------- the calls stand still while others step ----------

  function Is(id: nat, p: Proc): StateProperty {
    (t: State) => id in t.procs && t.procs[id] == p
  }

  lemma IsKept(cfg: Config, id: nat, p: Proc)
    ensures Kept(cfg, Caller(id), Is(id, p))
  {
    hide Inv, Apply, Enabled;
    forall t: State, a: Action | Inv(cfg, t) && Is(id, p)(t) && Enabled(t, a) && !By(a, Caller(id))
      ensures Is(id, p)(Apply(cfg, t, a))
    {
      OthersStandStill(cfg, t, a, id);
    }
  }

  /** Up to `m` the call has stepped, or it is where it was. */
  lemma StillThere(x: Schedule, id: nat, n: nat, m: nat) returns (moved: bool, k: nat)
    requires Inv(x.cfg, x.start) && n <= m && id in At(x, n).procs
    ensures moved ==> n <= k && Moves(x, k, Caller(id))
    ensures !moved ==> Is(id, At(x, n).procs[id])(At(x, m))
  {
    hide Inv, Moves, At, Kept;
    k := n;
    if j: nat :| n <= j < m && Moves(x, j, Caller(id)) {
      moved, k := true, j;
    } else {
      moved := false;
      IsKept(x.cfg, id, At(x, n).procs[id]);
      KeptUntil(x, Caller(id), Is(id, At(x, n).procs[id]), n, m);
    }
  }

  /** The call's first step from `n` on starts where it was. */
  lemma OwnFirst(x: Schedule, id: nat, n: nat, m: nat) returns (k: nat)
    requires Inv(x.cfg, x.start) && n <= m && id in At(x, n).procs && Moves(x, m, Caller(id))
    ensures n <= k && Moves(x, k, Caller(id)) && Is(id, At(x, n).procs[id])(At(x, k))
  {
    hide Inv, Moves, At, Kept;
    k := FirstMove(x, Caller(id), n, m);
    IsKept(x.cfg, id, At(x, n).procs[id]);
    KeptUntil(x, Caller(id), Is(id, At(x, n).procs[id]), n, k);
  }

  // ---------- the lock is released ----------

  function Holding(h: nat, p: Proc): StateProperty {
    (t: State) => t.sh.lock == Some(h) && h in t.procs && t.procs[h] == p
  }

  lemma CallerKeepsLock(cfg: Config, sh: Shared, id: nat, p: Proc, choice: bool)
    requires StepEnabled(sh, p.pc, choice) && !Locks(p.pc) && sh.lock.Some?
    ensures CallerStep(cfg, sh, id, p, choice).sh.lock == sh.lock
  {
    hide EnqueueStep, ShutdownStep, HookStep, StepEnabled, Locks;
    if InEnqueue(p.pc) { EnqueueNeedsLock(sh, p.pc, choice); }
    else if InFlush(p.pc) { FlushKeepsShared(cfg, sh, p.role, p.pc, choice); }
    else if InShutdown(p.pc) { ShutdownKeepsLock(cfg, sh, id, p.pc, choice); }
    else { NotReturned(sh, p.pc, choice); HookKeepsLock(sh, id, p.pc, choice); }
  }

  lemma EnqueueNeedsLock(sh: Shared, pc: Pc, choice: bool)
    requires InEnqueue(pc) && StepEnabled(sh, pc, choice) && sh.lock.Some?
    ensures Locks(pc)
  {
  }

  lemma ShutdownKeepsLock(cfg: Config, sh: Shared, id: nat, pc: Pc, choice: bool)
    requires InShutdown(pc) && StepEnabled(sh, pc, choice) && !Locks(pc) && sh.lock.Some?
    ensures ShutdownStep(cfg, sh, id, pc, choice).sh.lock == sh.lock
  {
  }

  lemma HookKeepsLock(sh: Shared, id: nat, pc: Pc, choice: bool)
    requires InHook(pc)
    ensures HookStep(sh, id, pc, choice).sh.lock == sh.lock
  {
  }

  lemma OthersKeepLock(cfg: Config, t: State, a: Action, h: nat)
    requires Inv(cfg, t) && Enabled(t, a) && !By(a, Caller(h)) && t.sh.lock == Some(h)
    ensures Apply(cfg, t, a).sh.lock == Some(h)
  {
    hide CallerStep, StepEnabled;
    match a
    case Call(_, _) =>
    case Work(_) =>
    case Step(id, choice) =>
      assert LockClause(t.sh, id, t.procs[id]);
      CallerKeepsLock(cfg, t.sh, id, t.procs[id], choice);
  }

  lemma HoldingKept(cfg: Config, h: nat, p: Proc)
    requires Locks(p.pc)
    ensures Kept(cfg, Caller(h), Holding(h, p)) && Ready(cfg, Caller(h), Holding(h, p))
  {
    hide Inv, Apply, Enabled;
    forall t: State, a: Action | Inv(cfg, t) && Holding(h, p)(t) && Enabled(t, a) && !By(a, Caller(h))
      ensures Holding(h, p)(Apply(cfg, t, a))
    {
      OthersStandStill(cfg, t, a, h);
      OthersKeepLock(cfg, t, a, h);
    }
  }

  lemma HolderSteps(cfg: Config, t: State, h: nat, choice: bool)
    requires Inv(cfg, t) && t.sh.lock == Some(h) && Enabled(t, Step(h, choice))
    ensures var u := Apply(cfg, t, Step(h, choice));
      u.sh.lock.None? || (u.sh.lock == Some(h) && UnlockDistance(HolderPc(u)) < UnlockDistance(HolderPc(t)))
  {
    var p := t.procs[h];
    assert Agrees(cfg, t.sh, h, p) && Locks(p.pc);
    hide Inv, Agrees;
    ChoiceIsIdle(cfg, t.sh, h, p, choice);
    hide CallerStep;
    UnlockNearer(cfg, t.sh, h, p);
  }

  lemma ChoiceIsIdle(cfg: Config, sh: Shared, id: nat, p: Proc, choice: bool)
    requires Locks(p.pc)
    ensures CallerStep(cfg, sh, id, p, choice) == CallerStep(cfg, sh, id, p, true)
  {
    hide EnqueueStep;
  }

  lemma HolderThere(cfg: Config, t: State)
    requires Inv(cfg, t) && t.sh.lock.Some?
    ensures t.sh.lock.value in t.procs && Locks(t.procs[t.sh.lock.value].pc)
  {
  }

  lemma SameHolder(t: State, u: State, h: nat)
    requires h in t.procs && t.sh.lock == Some(h) && Holding(h, t.procs[h])(u)
    ensures HolderPc(u) == HolderPc(t)
  {
  }

  lemma {:induction false} LockIsReleased(x: Schedule, n: nat) returns (m: nat)
    requires Inv(x.cfg, x.start) && Fair(x)
    ensures m >= n && At(x, m).sh.lock.None?
    decreases if At(x, n).sh.lock.None? then 0 else 1 + UnlockDistance(HolderPc(At(x, n)))
  {
    hide Inv, Moves, Kept, Ready, Fair, Locks, UnlockDistance, HolderPc, Apply, Enabled, At;
    var t := At(x, n);
    if t.sh.lock.None? {
      m := n;
    } else {
      var h := t.sh.lock.value;
      AtInv(x, n);
      HolderThere(x.cfg, t);
      HoldingKept(x.cfg, h, t.procs[h]);
      var k := Eventually(x, Caller(h), Holding(h, t.procs[h]), n);
      Moved(x, k, Caller(h));
      AtInv(x, k);
      HolderSteps(x.cfg, At(x, k), h, x.turn(k).value.choice);
      SameHolder(t, At(x, k), h);
      m := LockIsReleased(x, k + 1);
    }
  }

  // ---------- a Once that runs comes to its end ----------

  datatype Guard = StopGuard | CloseGuard

  function OnceOf(sh: Shared, g: Guard): Once {
    if g.StopGuard? then sh.stopOnce else sh.closeOnce
  }

  predicate RunsOnce(pc: Pc, g: Guard) {
    if g.StopGuard? then StopRunner(pc) else HookRunner(pc)
  }

  function RunningAt(g: Guard, j: nat, p: Proc): StateProperty {
    (t: State) => OnceOf(t.sh, g) == Running(j) && j in t.procs && t.procs[j] == p
  }

  /** A step of a caller at `pc` leaves a Once that runs to its runner, and one that is finished finished. */
  predicate KeepsOnces(sh: Shared, pc: Pc, after: Shared) {
    && (sh.stopOnce.Finished? || (sh.stopOnce.Running? && !StopRunner(pc)) ==> after.stopOnce == sh.stopOnce)
    && (sh.closeOnce.Finished? || (sh.closeOnce.Running? && !HookRunner(pc)) ==> after.closeOnce == sh.closeOnce)
  }

  lemma EnqueueKeepsOnces(cfg: Config, sh: Shared, id: nat, batch: Batch, pc: Pc)
    requires InEnqueue(pc)
    ensures KeepsOnces(sh, pc, EnqueueStep(cfg, sh, id, batch, pc).sh)
  {
  }

  lemma ShutdownKeepsOnces(cfg: Config, sh: Shared, id: nat, pc: Pc, choice: bool)
    requires InShutdown(pc) && StepEnabled(sh, pc, choice)
    ensures KeepsOnces(sh, pc, ShutdownStep(cfg, sh, id, pc, choice).sh)
  {
  }

  lemma HookKeepsOnces(sh: Shared, id: nat, pc: Pc, choice: bool)
    requires InHook(pc) && StepEnabled(sh, pc, choice)
    ensures KeepsOnces(sh, pc, HookStep(sh, id, pc, choice).sh)
  {
  }

  lemma CallerKeepsOnce(cfg: Config, sh: Shared, id: nat, p: Proc, choice: bool)
    requires StepEnabled(sh, p.pc, choice)
    ensures KeepsOnces(sh, p.pc, CallerStep(cfg, sh, id, p, choice).sh)
  {
    hide EnqueueStep, ShutdownStep, HookStep, StepEnabled;
    if InEnqueue(p.pc) { EnqueueKeepsOnces(cfg, sh, id, CarriedBy(p.role), p.pc); }
    else if InFlush(p.pc) { FlushKeepsShared(cfg, sh, p.role, p.pc, choice); }
    else if InShutdown(p.pc) { ShutdownKeepsOnces(cfg, sh, id, p.pc, choice); }
    else { NotReturned(sh, p.pc, choice); HookKeepsOnces(sh, id, p.pc, choice); }
  }

  lemma NotReturned(sh: Shared, pc: Pc, choice: bool)
    requires StepEnabled(sh, pc, choice)
    ensures InEnqueue(pc) || InFlush(pc) || InShutdown(pc) || InHook(pc)
  {
  }

  lemma WorkKeepsOnces(sh: Shared, choice: bool)
    requires WorkEnabled(sh, choice)
    ensures Worked(sh, choice).stopOnce == sh.stopOnce && Worked(sh, choice).closeOnce == sh.closeOnce
  {
  }

  lemma OthersKeepOnce(cfg: Config, t: State, a: Action, g: Guard, j: nat)
    requires Inv(cfg, t) && Enabled(t, a) && !By(a, Caller(j)) && OnceOf(t.sh, g) == Running(j)
    ensures OnceOf(Apply(cfg, t, a).sh, g) == Running(j)
  {
    hide CallerStep, StepEnabled, Worked, WorkEnabled;
    match a
    case Call(_, _) =>
    case Work(choice) => WorkKeepsOnces(t.sh, choice);
    case Step(id, choice) =>
      assert Agrees(cfg, t.sh, id, t.procs[id]);
      CallerKeepsOnce(cfg, t.sh, id, t.procs[id], choice);
  }

  function OnceFinished(g: Guard): StateProperty {
    (t: State) => OnceOf(t.sh, g).Finished?
  }

  lemma ApplyKeepsFinished(cfg: Config, t: State, a: Action, g: Guard)
    requires Enabled(t, a) && OnceOf(t.sh, g).Finished?
    ensures OnceOf(Apply(cfg, t, a).sh, g).Finished?
  {
    hide CallerStep, StepEnabled, Worked, WorkEnabled;
    match a
    case Call(_, _) =>
    case Work(choice) => WorkKeepsOnces(t.sh, choice);
    case Step(id, choice) => CallerKeepsOnce(cfg, t.sh, id, t.procs[id], choice);
  }

  lemma FinishedStays(cfg: Config, g: Guard)
    ensures Stable(cfg, OnceFinished(g))
  {
    hide Inv, Apply, Enabled;
    forall t: State, a: Action | Inv(cfg, t) && OnceFinished(g)(t) && Enabled(t, a)
      ensures OnceFinished(g)(Apply(cfg, t, a))
    {
      ApplyKeepsFinished(cfg, t, a, g);
    }
  }

  lemma RunningKept(cfg: Config, g: Guard, j: nat, p: Proc)
    requires RunsOnce(p.pc, g)
    ensures Kept(cfg, Caller(j), RunningAt(g, j, p)) && Ready(cfg, Caller(j), RunningAt(g, j, p))
  {
    hide Inv, Apply, Enabled;
    forall t: State, a: Action | Inv(cfg, t) && RunningAt(g, j, p)(t) && Enabled(t, a) && !By(a, Caller(j))
      ensures RunningAt(g, j, p)(Apply(cfg, t, a))
    {
      OthersStandStill(cfg, t, a, j);
      OthersKeepOnce(cfg, t, a, g, j);
    }
  }

  lemma StopRunnerStep(cfg: Config, sh: Shared, id: nat, pc: Pc, choice: bool)
    requires StopRunner(pc)
    ensures var m := ShutdownStep(cfg, sh, id, pc, choice);
      m.sh.stopOnce.Finished? || (m.sh.stopOnce == sh.stopOnce && Distance(m.pc) < Distance(pc))
  {
  }

  lemma HookRunnerStep(sh: Shared, id: nat, pc: Pc, choice: bool)
    requires HookRunner(pc)
    ensures var m := HookStep(sh, id, pc, choice);
      m.sh.closeOnce.Finished? || (m.sh.closeOnce == sh.closeOnce && Distance(m.pc) < Distance(pc))
  {
  }

  lemma RunnerStep(cfg: Config, sh: Shared, g: Guard, id: nat, p: Proc, choice: bool)
    requires RunsOnce(p.pc, g) && OnceOf(sh, g) == Running(id)
    ensures var m := CallerStep(cfg, sh, id, p, choice);
      OnceOf(m.sh, g).Finished? || (OnceOf(m.sh, g) == Running(id) && Distance(m.pc) < Distance(p.pc))
  {
    match g
    case StopGuard => StopRunnerStep(cfg, sh, id, p.pc, choice);
    case CloseGuard => HookRunnerStep(sh, id, p.pc, choice);
  }

  lemma RunnerThere(cfg: Config, t: State, g: Guard)
    requires Inv(cfg, t) && OnceOf(t.sh, g).Running?
    ensures var j := OnceOf(t.sh, g).runner; j in t.procs && RunsOnce(t.procs[j].pc, g)
  {
  }

  /** How far the runner of a Once is from its end. */
  function RunLeft(t: State, g: Guard): nat {
    var o := OnceOf(t.sh, g);
    if o.Running? && o.runner in t.procs then Distance(t.procs[o.runner].pc) else 0
  }

  lemma RunnerSteps(cfg: Config, t: State, g: Guard, j: nat, choice: bool)
    requires Inv(cfg, t) && OnceOf(t.sh, g) == Running(j) && Enabled(t, Step(j, choice))
    ensures var u := Apply(cfg, t, Step(j, choice));
      OnceOf(u.sh, g).Finished? || (OnceOf(u.sh, g) == Running(j) && RunLeft(u, g) < RunLeft(t, g))
  {
    RunnerThere(cfg, t, g);
    RunnerStep(cfg, t.sh, g, j, t.procs[j], choice);
    hide Inv, CallerStep, Distance;
  }

  lemma {:induction false} OnceEnds(x: Schedule, g: Guard, n: nat) returns (m: nat)
    requires Inv(x.cfg, x.start) && Fair(x) && OnceOf(At(x, n).sh, g).Running?
    ensures m >= n && OnceFinished(g)(At(x, m))
    decreases RunLeft(At(x, n), g)
  {
    hide Inv, Moves, Kept, Ready, Fair, RunsOnce, RunLeft, Apply, Enabled, At;
    var t := At(x, n);
    var j := OnceOf(t.sh, g).runner;
    AtInv(x, n);
    RunnerThere(x.cfg, t, g);
    RunningKept(x.cfg, g, j, t.procs[j]);
    var k := Eventually(x, Caller(j), RunningAt(g, j, t.procs[j]), n);
    Moved(x, k, Caller(j));
    AtInv(x, k);
    RunnerSteps(x.cfg, At(x, k), g, j, x.turn(k).value.choice);
    assert RunLeft(At(x, k), g) == RunLeft(t, g) by { SameRunner(t, At(x, k), g, j); }
    if OnceOf(At(x, k + 1).sh, g).Finished? {
      m := k + 1;
    } else {
      m := OnceEnds(x, g, k + 1);
    }
  }

  lemma SameRunner(t: State, u: State, g: Guard, j: nat)
    requires j in t.procs && OnceOf(t.sh, g) == Running(j) && RunningAt(g, j, t.procs[j])(u)
    ensures RunLeft(u, g) == RunLeft(t, g)
  {
  }

  // ---------- the worker drains the queue and stops ----------

  /** Closed, with a backlog of so many steps, or with so many until the worker stops. */
  function Backlog(w: nat): StateProperty {
    (t: State) => t.sh.closed && WorkLeft(t.sh) == w && (w > 2 || t.sh.done)
  }

  lemma BacklogKept(cfg: Config, w: nat)
    requires w > 0
    ensures Kept(cfg, Worker, Backlog(w)) && Ready(cfg, Worker, Backlog(w))
  {
    forall t: State | Inv(cfg, t) && Backlog(w)(t) ensures CanMove(t, Worker) { BacklogReady(cfg, t, w); }
    hide Inv, Apply, Enabled, WorkLeft;
    forall t: State, a: Action | Inv(cfg, t) && Backlog(w)(t) && Enabled(t, a) && !By(a, Worker)
      ensures Backlog(w)(Apply(cfg, t, a))
    {
      StepCounts(cfg, t, a);
      ClosedAcceptsNothing(cfg, t, a);
      ApplyGrows(cfg, t, a);
    }
  }

  lemma BacklogReady(cfg: Config, t: State, w: nat)
    requires Inv(cfg, t) && w > 0 && Backlog(w)(t)
    ensures CanMove(t, Worker)
  {
  }

  /** The worker goes on until nothing is left of its backlog. */
  lemma WorkGoesOn(x: Schedule, n: nat) returns (m: nat)
    requires Inv(x.cfg, x.start) && Fair(x)
    requires WorkLeft(At(x, n).sh) > 0 && Backlog(WorkLeft(At(x, n).sh))(At(x, n))
    ensures m > n && At(x, m).sh.closed && WorkLeft(At(x, m).sh) < WorkLeft(At(x, n).sh)
    ensures At(x, n).sh.done ==> At(x, m).sh.done
  {
    hide Inv, Moves, Kept, Ready, Fair, WorkLeft, Apply, Enabled, At, Grows;
    var w := WorkLeft(At(x, n).sh);
    BacklogKept(x.cfg, w);
    DoneStays(x.cfg);
    var k := Eventually(x, Worker, Backlog(w), n);
    Moved(x, k, Worker);
    AtInv(x, k);
    StepCounts(x.cfg, At(x, k), x.turn(k).value);
    ClosedAcceptsNothing(x.cfg, At(x, k), x.turn(k).value);
    ApplyGrows(x.cfg, At(x, k), x.turn(k).value);
    StillClosed(At(x, k).sh, At(x, k + 1).sh);
    m := k + 1;
    if At(x, n).sh.done { StableFrom(x, IsDone(), n, m); }
  }

  function IsDone(): StateProperty {
    (t: State) => t.sh.done
  }

  function IsStopped(): StateProperty {
    (t: State) => t.sh.stopped
  }

  function IsQuiet(): StateProperty {
    (t: State) => Quiet(t.sh)
  }

  lemma DoneStays(cfg: Config)
    ensures Stable(cfg, IsDone()) && Stable(cfg, IsStopped())
  {
    hide Inv, Apply, Enabled;
    forall t: State, a: Action | Enabled(t, a) ensures Grows(t.sh, Apply(cfg, t, a).sh) { ApplyGrows(cfg, t, a); }
  }

  lemma QuietIsStable(cfg: Config)
    ensures Stable(cfg, IsQuiet())
  {
    hide Inv, Apply, Enabled, Quiet;
    forall t: State, a: Action | Inv(cfg, t) && IsQuiet()(t) && Enabled(t, a) ensures IsQuiet()(Apply(cfg, t, a)) {
      QuietStays(cfg, t, a);
    }
  }

  /** After the close nothing is pending some time. */
  lemma {:induction false} DrainedSomeTime(x: Schedule, n: nat) returns (m: nat)
    requires Inv(x.cfg, x.start) && Fair(x) && At(x, n).sh.closed
    ensures m >= n && IsQuiet()(At(x, m))
    decreases WorkLeft(At(x, n).sh)
  {
    hide Inv, Fair, WorkLeft, At;
    AtInv(x, n);
    ClosedPending(x.cfg, At(x, n));
    if At(x, n).sh.pending == 0 {
      m := n;
    } else {
      var k := WorkGoesOn(x, n);
      m := DrainedSomeTime(x, k);
    }
  }

  lemma DoneBacklog(cfg: Config, t: State)
    requires Inv(cfg, t) && t.sh.done
    ensures t.sh.stopped || (WorkLeft(t.sh) > 0 && Backlog(WorkLeft(t.sh))(t))
  {
  }

  /** After `done` is closed the worker has stopped some time. */
  lemma {:induction false} StoppedSomeTime(x: Schedule, n: nat) returns (m: nat)
    requires Inv(x.cfg, x.start) && Fair(x) && At(x, n).sh.done
    ensures m >= n && IsStopped()(At(x, m))
    decreases WorkLeft(At(x, n).sh)
  {
    hide Inv, Fair, WorkLeft, At, Backlog;
    AtInv(x, n);
    DoneBacklog(x.cfg, At(x, n));
    if At(x, n).sh.stopped {
      m := n;
    } else {
      var k := WorkGoesOn(x, n);
      m := StoppedSomeTime(x, k);
    }
  }

  // ---------- a Shutdown takes its next step ----------

  function Both(p: StateProperty, q: StateProperty): StateProperty {
    (t: State) => p(t) && q(t)
  }

  lemma BothKept(cfg: Config, who: Actor, p: StateProperty, q: StateProperty)
    requires Kept(cfg, who, p) && Stable(cfg, q)
    ensures Kept(cfg, who, Both(p, q))
  {
    hide Inv, Apply, Enabled;
  }

  /** A place where only the caller's own step is waited for. */
  predicate Free(pc: Pc) {
    && (InFlush(pc) || InShutdown(pc) || InHook(pc))
    && !pc.StopLock? && !pc.StopOnce? && !pc.AwaitStopped? && !pc.HookOnce?
  }

  lemma FreeIsReady(cfg: Config, id: nat, p: Proc)
    requires Free(p.pc)
    ensures Ready(cfg, Caller(id), Is(id, p))
  {
    forall t: State | Inv(cfg, t) && Is(id, p)(t) ensures CanMove(t, Caller(id)) {
      assert HookClause(cfg, t.sh, id, p);
    }
  }

  lemma StoppedIsReady(cfg: Config, id: nat, p: Proc)
    requires p.pc.AwaitStopped?
    ensures Ready(cfg, Caller(id), Both(Is(id, p), IsStopped()))
  {
  }

  predicate AtGuard(pc: Pc, g: Guard) {
    if g.StopGuard? then pc.StopOnce? else pc.HookOnce?
  }

  lemma FinishedIsReady(cfg: Config, id: nat, p: Proc, g: Guard)
    requires AtGuard(p.pc, g)
    ensures Ready(cfg, Caller(id), Both(Is(id, p), OnceFinished(g)))
  {
  }

  /** Where a stable property makes a call ready that is still there, it steps. */
  lemma StepsOnce(x: Schedule, id: nat, n: nat, q: StateProperty, k: nat) returns (m: nat)
    requires Inv(x.cfg, x.start) && Fair(x) && k >= n && id in At(x, n).procs
    requires q(At(x, k)) && Stable(x.cfg, q)
    requires Ready(x.cfg, Caller(id), Both(Is(id, At(x, n).procs[id]), q))
    ensures m >= n && Moves(x, m, Caller(id))
  {
    hide Inv, Fair, Moves, Kept, Ready, Stable, At;
    var moved, j := StillThere(x, id, n, k);
    if moved {
      m := j;
    } else {
      var p := Is(id, At(x, n).procs[id]);
      IsKept(x.cfg, id, At(x, n).procs[id]);
      BothKept(x.cfg, Caller(id), p, q);
      m := Eventually(x, Caller(id), Both(p, q), k);
    }
  }

  lemma PassesLock(x: Schedule, id: nat, n: nat) returns (m: nat)
    requires Inv(x.cfg, x.start) && Fair(x) && NotPassedOver(x, id) && WaitsForLock(At(x, n), id)
    ensures m >= n && Moves(x, m, Caller(id))
  {
    hide Inv, Fair, Moves, At;
    assert GetsLock(x, id, n);
    m :| m >= n && (Moves(x, m, Caller(id)) || LockedFrom(x, m));
    if LockedFrom(x, m) {
      var k := LockIsReleased(x, m);
      assert false;
    }
  }

  lemma PassesGuard(x: Schedule, id: nat, n: nat, g: Guard) returns (m: nat)
    requires Inv(x.cfg, x.start) && Fair(x) && id in At(x, n).procs && AtGuard(At(x, n).procs[id].pc, g)
    ensures m >= n && Moves(x, m, Caller(id))
  {
    hide Inv, Fair, Moves, At, Stable, Ready, Kept;
    assert GetsTurn(x, Caller(id), n) by { FairTurn(x, Caller(id), n); }
    var j: nat :| j >= n && (Moves(x, j, Caller(id)) || !CanMove(At(x, j), Caller(id)));
    var moved, k := StillThere(x, id, n, j);
    if Moves(x, j, Caller(id)) {
      m := j;
    } else if moved {
      m := k;
    } else {
      assert OnceOf(At(x, j).sh, g).Running?;
      var e := OnceEnds(x, g, j);
      FinishedStays(x.cfg, g);
      FinishedIsReady(x.cfg, id, At(x, n).procs[id], g);
      m := StepsOnce(x, id, n, OnceFinished(g), e);
    }
  }

  lemma FairTurn(x: Schedule, who: Actor, n: nat)
    requires Fair(x)
    ensures GetsTurn(x, who, n)
  {
  }

  lemma PassesStop(x: Schedule, id: nat, n: nat) returns (m: nat)
    requires Inv(x.cfg, x.start) && Fair(x) && id in At(x, n).procs && At(x, n).procs[id].pc.AwaitStopped?
    ensures m >= n && Moves(x, m, Caller(id))
  {
    AtInv(x, n);
    assert StopClause(At(x, n).sh, id, At(x, n).procs[id]);
    hide Inv, Fair, Moves, At, Stable, Ready, Kept;
    var k := StoppedSomeTime(x, n);
    DoneStays(x.cfg);
    StoppedIsReady(x.cfg, id, At(x, n).procs[id]);
    m := StepsOnce(x, id, n, IsStopped(), k);
  }

  /** A Shutdown in progress. */
  predicate Underway(t: State, id: nat) {
    id in t.procs && t.procs[id].role.Stopper? && !t.procs[id].pc.Returned?
  }

  lemma PlacesOfShutdown(cfg: Config, t: State, id: nat)
    requires Inv(cfg, t) && Underway(t, id)
    ensures var pc := t.procs[id].pc;
      Free(pc) || pc.StopLock? || pc.AwaitStopped? || AtGuard(pc, StopGuard) || AtGuard(pc, CloseGuard)
  {
    assert RoleClause(cfg, t.procs[id]);
  }

  /** A Shutdown that has not returned takes its next step some time, from where it is. */
  lemma OwnStep(x: Schedule, id: nat, n: nat) returns (m: nat)
    requires Inv(x.cfg, x.start) && Fair(x) && NotPassedOver(x, id) && Underway(At(x, n), id)
    ensures m >= n && Moves(x, m, Caller(id)) && Is(id, At(x, n).procs[id])(At(x, m))
  {
    AtInv(x, n);
    PlacesOfShutdown(x.cfg, At(x, n), id);
    hide Inv, Fair, NotPassedOver, Moves, At, Kept, Ready, Free;
    var p := At(x, n).procs[id];
    var k: nat;
    if p.pc.StopLock? {
      k := PassesLock(x, id, n);
    } else if AtGuard(p.pc, StopGuard) {
      k := PassesGuard(x, id, n, StopGuard);
    } else if AtGuard(p.pc, CloseGuard) {
      k := PassesGuard(x, id, n, CloseGuard);
    } else if p.pc.AwaitStopped? {
      k := PassesStop(x, id, n);
    } else {
      IsKept(x.cfg, id, p);
      FreeIsReady(x.cfg, id, p);
      k := Eventually(x, Caller(id), Is(id, p), n);
    }
    m := OwnFirst(x, id, n, k);
  }

  // ---------- and returns ----------

  lemma StepNearer(cfg: Config, t: State, id: nat, choice: bool)
    requires Inv(cfg, t) && Underway(t, id) && Enabled(t, Step(id, choice)) && (Quiet(t.sh) || !t.sh.closed)
    ensures var u := Apply(cfg, t, Step(id, choice));
      id in u.procs && u.procs[id].role == t.procs[id].role
      && Distance(u.procs[id].pc) < Distance(t.procs[id].pc)
  {
    var p := t.procs[id];
    if Quiet(t.sh) {
      hide Inv, CallerStep, Distance, StepEnabled;
      CallerNearer(cfg, t.sh, id, p, choice);
    } else {
      OpenIsInShutdown(cfg, t, id);
      hide Inv, ShutdownStep, Distance, StepEnabled;
      ShutdownNearer(cfg, t.sh, id, p.pc, choice);
    }
  }

  lemma OpenIsInShutdown(cfg: Config, t: State, id: nat)
    requires Inv(cfg, t) && Underway(t, id) && !t.sh.closed
    ensures InShutdown(t.procs[id].pc)
  {
    assert Agrees(cfg, t.sh, id, t.procs[id]);
  }

  function IsShutdown(id: nat): StateProperty {
    (t: State) => id in t.procs && t.procs[id].role.Stopper?
  }

  lemma ShutdownStays(cfg: Config, id: nat)
    ensures Stable(cfg, IsShutdown(id))
  {
    hide Inv, Apply, Enabled;
    forall t: State, a: Action | IsShutdown(id)(t) && Enabled(t, a) ensures IsShutdown(id)(Apply(cfg, t, a)) {
      StepKeepsCall(cfg, t, a, id);
    }
  }

  predicate HasReturned(t: State, id: nat) {
    id in t.procs && t.procs[id].pc.Returned?
  }

  /** With nothing pending each of its own steps brings the call nearer to its end. */
  lemma {:induction false} ReturnsWhenQuiet(x: Schedule, id: nat, n: nat) returns (m: nat)
    requires Inv(x.cfg, x.start) && Fair(x) && NotPassedOver(x, id)
    requires IsShutdown(id)(At(x, n)) && IsQuiet()(At(x, n))
    ensures m >= n && HasReturned(At(x, m), id)
    decreases Distance(At(x, n).procs[id].pc)
  {
    hide Inv, Fair, NotPassedOver, Moves, At, Stable, Distance, Apply, Enabled, Quiet;
    if At(x, n).procs[id].pc.Returned? {
      m := n;
    } else {
      var k := OwnStep(x, id, n);
      AtInv(x, k);
      QuietIsStable(x.cfg);
      StableFrom(x, IsQuiet(), n, k);
      StableFrom(x, IsQuiet(), n, k + 1);
      Moved(x, k, Caller(id));
      StepNearer(x.cfg, At(x, k), id, x.turn(k).value.choice);
      m := ReturnsWhenQuiet(x, id, k + 1);
    }
  }

  lemma ReturnsOnceClosed(x: Schedule, id: nat, n: nat) returns (m: nat)
    requires Inv(x.cfg, x.start) && Fair(x) && NotPassedOver(x, id)
    requires IsShutdown(id)(At(x, n)) && At(x, n).sh.closed
    ensures m >= n && HasReturned(At(x, m), id)
  {
    hide Inv, Fair, NotPassedOver, At, Stable, Quiet;
    var k := DrainedSomeTime(x, n);
    ShutdownStays(x.cfg, id);
    StableFrom(x, IsShutdown(id), n, k);
    m := ReturnsWhenQuiet(x, id, k);
  }

  /** Before the close it comes to the close, its own or that of another call. */
  lemma {:induction false} Returns(x: Schedule, id: nat, n: nat) returns (m: nat)
    requires Inv(x.cfg, x.start) && Fair(x) && NotPassedOver(x, id) && IsShutdown(id)(At(x, n))
    ensures m >= n && HasReturned(At(x, m), id)
    decreases Distance(At(x, n).procs[id].pc)
  {
    hide Inv, Fair, NotPassedOver, Moves, At, Distance, Apply, Enabled, Quiet;
    if At(x, n).procs[id].pc.Returned? {
      m := n;
    } else if At(x, n).sh.closed {
      m := ReturnsOnceClosed(x, id, n);
    } else {
      var k := OwnStep(x, id, n);
      if At(x, k).sh.closed {
        m := ReturnsOnceClosed(x, id, k);
      } else {
        AtInv(x, k);
        Moved(x, k, Caller(id));
        StepNearer(x.cfg, At(x, k), id, x.turn(k).value.choice);
        m := Returns(x, id, k + 1);
      }
    }
  }

  /** What a schedule has done up to a moment is a run. */
  lemma {:induction false} RunSoFar(x: Schedule, n: nat) returns (run: seq<Action>)
    ensures Runs(x.cfg, x.start, run) && After(x.cfg, x.start, run) == At(x, n)
    ensures forall id :: Unhurried(x, id) ==> Patient(run, id)
  {
    hide Apply, Enabled;
    if n == 0 {
      run := [];
    } else {
      var before := RunSoFar(x, n - 1);
      if Acts(x, At(x, n - 1), n - 1) {
        run := before + [x.turn(n - 1).value];
        RunsOneMore(x.cfg, x.start, before, x.turn(n - 1).value);
      } else {
        run := before;
      }
    }
  }

  lemma {:induction false} RunsOneMore(cfg: Config, s: State, run: seq<Action>, a: Action)
    requires Runs(cfg, s, run) && Enabled(After(cfg, s, run), a)
    ensures Runs(cfg, s, run + [a]) && After(cfg, s, run + [a]) == Apply(cfg, After(cfg, s, run), a)
    decreases |run|
  {
    hide Apply, Enabled;
    if run == [] {
      assert run + [a] == [a] && [a][1..] == [];
    } else {
      assert (run + [a])[1..] == run[1..] + [a];
      RunsOneMore(cfg, Apply(cfg, s, run[0]), run[1..], a);
    }
  }

  /** Every Shutdown returns under every fair schedule, from wherever it is and with any number of other calls
      coming in, whether its context ends or not. If that never happens and its own hook calls succeed, it
      returns true unless the shutdown hook has failed. */
  lemma ShutdownReturns(x: Schedule, id: nat) returns (n: nat)
    requires Reachable(x.cfg, x.start) && id in x.start.procs && x.start.procs[id].role.Stopper?
    requires Fair(x) && NotPassedOver(x, id)
    ensures var t := At(x, n);
      && HasReturned(t, id)
      && (Unhurried(x, id) && (x.start.procs[id].pc == Returned(false) ==> x.start.sh.hookResult == Some(false))
          ==> Answered(t, id))
  {
    hide Inv, Reachable, Fair, NotPassedOver, Unhurried, Apply, Enabled, Patient;
    ReachableInv(x.cfg, x.start);
    n := Returns(x, id, 0);
    var run := RunSoFar(x, n);
    if Unhurried(x, id) && (x.start.procs[id].pc == Returned(false) ==> x.start.sh.hookResult == Some(false)) {
      PatientShutdownFailsOnlyByHook(x.cfg, x.start, id, run);
    }
  }

  /** The HTTP transport has no hook that could fail: every such Shutdown returns true. */
  lemma HttpShutdownSucceeds(x: Schedule, id: nat) returns (n: nat)
    requires HttpConfig(x.cfg) && Reachable(x.cfg, x.start) && id in x.start.procs
    requires x.start.procs[id].role.Stopper? && x.start.procs[id].pc != Returned(false)
    requires Fair(x) && NotPassedOver(x, id) && Unhurried(x, id)
    ensures var t := At(x, n); id in t.procs && t.procs[id].pc == Returned(true)
  {
    hide Inv, Reachable, Fair, NotPassedOver, Unhurried, HttpConfig;
    ReachableInv(x.cfg, x.start);
    n := ShutdownReturns(x, id);
    AtInv(x, n);
    HttpHasNoHook(x.cfg, At(x, n));
  }

  // ---------- there are such schedules ----------

  lemma {:induction false} StepsSplit(cfg: Config, s: State, first: seq<Action>, second: seq<Action>)
    requires Runs(cfg, s, first + second)
    ensures Runs(cfg, s, first) && Runs(cfg, After(cfg, s, first), second)
    ensures After(cfg, s, first + second) == After(cfg, After(cfg, s, first), second)
    decreases |first|
  {
    hide Apply, Enabled;
    if first == [] {
      assert first + second == second;
    } else {
      assert (first + second)[1..] == first[1..] + second;
      StepsSplit(cfg, Apply(cfg, s, first[0]), first[1..], second);
    }
  }

  /** The place of the n-th turn in its round of `k + 2` turns. */
  function Place(n: nat, k: nat): (i: nat)
    ensures i < k + 2
  {
    if n < k + 2 then n else Place(n - (k + 2), k)
  }

  /** The worker, and every call with an id below `k`, one after another. */
  function InTurn(n: nat, k: nat): Action {
    var i := Place(n, k);
    if i == 0 then Work(true) else if i == 1 then Work(false) else Step(i - 2, true)
  }

  /** A run, and then everybody in turn for ever. */
  function RunAndTurns(run: seq<Action>, k: nat): nat -> Option<Action> {
    (n: nat) => if n < |run| then Some(run[n]) else Some(InTurn(n, k))
  }

  lemma {:induction false} FollowsRun(x: Schedule, run: seq<Action>, k: nat, n: nat)
    requires x.turn == RunAndTurns(run, k) && Runs(x.cfg, x.start, run) && n <= |run|
    ensures Runs(x.cfg, x.start, run[..n]) && At(x, n) == After(x.cfg, x.start, run[..n])
    decreases n
  {
    hide Apply, Enabled;
    if n == 0 {
    } else {
      FollowsRun(x, run, k, n - 1);
      assert run == run[..n - 1] + run[n - 1..] && run[..n] == run[..n - 1] + [run[n - 1]];
      StepsSplit(x.cfg, x.start, run[..n - 1], run[n - 1..]);
      RunsOneMore(x.cfg, x.start, run[..n - 1], run[n - 1]);
    }
  }

  predicate IdsBelow(s: State, k: nat) {
    forall id :: id in s.procs ==> id < k
  }

  lemma {:induction false} SomeBound(ids: set<nat>) returns (k: nat)
    ensures forall id :: id in ids ==> id < k
    decreases |ids|
  {
    if ids == {} {
      k := 0;
    } else {
      var id := Any(ids);
      var m := SomeBound(ids - {id});
      k := if id < m then m else id + 1;
      forall j | j in ids ensures j < k { assert j == id || j in ids - {id}; }
    }
  }

  lemma {:induction false} NobodyNew(x: Schedule, run: seq<Action>, k: nat, n: nat)
    requires x.turn == RunAndTurns(run, k) && n >= |run| && IdsBelow(At(x, |run|), k)
    ensures IdsBelow(At(x, n), k)
    decreases n
  {
    hide CallerStep, Worked, StepEnabled, WorkEnabled;
    if n == |run| {
    } else {
      NobodyNew(x, run, k, n - 1);
    }
  }

  lemma {:induction false} TurnComes(n: nat, k: nat, i: nat) returns (m: nat)
    requires i < k + 2
    ensures m >= n && Place(m, k) == i
    decreases n
  {
    if n <= i {
      m := i;
    } else if n < k + 2 {
      m := i + (k + 2);
    } else {
      m := TurnComes(n - (k + 2), k, i);
      m := m + (k + 2);
    }
  }

  lemma WorkerGetsTurn(x: Schedule, run: seq<Action>, k: nat, n: nat)
    requires x.turn == RunAndTurns(run, k)
    ensures GetsTurn(x, Worker, n)
  {
    hide WorkEnabled, StepEnabled, Apply;
    var m := TurnComes(n + |run|, k, 0);
    var s := At(x, m);
    if WorkEnabled(s.sh, true) {
      assert Moves(x, m, Worker);
    } else if WorkEnabled(s.sh, false) {
      NextInRound(m, k);
      assert At(x, m + 1) == s;
      assert Moves(x, m + 1, Worker);
    } else {
      assert !CanMove(s, Worker);
    }
  }

  lemma {:induction false} NextInRound(m: nat, k: nat)
    requires Place(m, k) == 0
    ensures Place(m + 1, k) == 1
    decreases m
  {
    if m < k + 2 {
    } else {
      NextInRound(m - (k + 2), k);
    }
  }

  lemma CallerGetsTurn(x: Schedule, run: seq<Action>, k: nat, id: nat, n: nat)
    requires x.turn == RunAndTurns(run, k) && IdsBelow(At(x, |run|), k)
    ensures GetsTurn(x, Caller(id), n)
  {
    hide StepEnabled, Apply, IdsBelow, At;
    if id < k {
      var m := TurnComes(n + |run|, k, id + 2);
      assert Moves(x, m, Caller(id)) || !CanMove(At(x, m), Caller(id));
    } else {
      var m := n + |run|;
      NobodyNew(x, run, k, m);
      assert !CanMove(At(x, m), Caller(id)) by { NotBelow(At(x, m), k, id); }
    }
  }

  lemma NotBelow(s: State, k: nat, id: nat)
    requires IdsBelow(s, k) && id >= k
    ensures id !in s.procs
  {
  }

  function ReturnedCall(id: nat): StateProperty {
    (t: State) => HasReturned(t, id)
  }

  lemma ReturnedStays(cfg: Config, id: nat)
    ensures Stable(cfg, ReturnedCall(id))
  {
    hide Inv, Apply;
    forall t: State, a: Action | ReturnedCall(id)(t) && Enabled(t, a) ensures ReturnedCall(id)(Apply(cfg, t, a)) {
      OthersStandStill(cfg, t, a, id);
    }
  }

  lemma LockNotNeeded(x: Schedule, id: nat, e: nat)
    requires Inv(x.cfg, x.start) && ReturnedCall(id)(At(x, e))
    ensures NotPassedOver(x, id)
  {
    hide Inv, At, Moves, Stable;
    forall n: nat ensures GetsLock(x, id, n) {
      if WaitsForLock(At(x, n), id) {
        ReturnedStays(x.cfg, id);
        if e <= n {
          StableFrom(x, ReturnedCall(id), e, n);
        } else {
          var moved, k := StillThere(x, id, n, e);
        }
      }
    }
  }

  /** From any point inside a Shutdown that can still return true there is a schedule as it is asked for. */
  lemma FairScheduleExists(cfg: Config, s: State, id: nat) returns (x: Schedule)
    requires Hopeful(cfg, s, id)
    ensures x.cfg == cfg && x.start == s && Fair(x) && NotPassedOver(x, id) && Unhurried(x, id)
  {
    hide Inv, At, Apply, Enabled, InTurn, IdsBelow;
    var run := HopeIsFulfilled(cfg, s, id);
    var k := SomeBound(After(cfg, s, run).procs.Keys);
    x := Schedule(cfg, s, RunAndTurns(run, k));
    FollowsRun(x, run, k, |run|);
    assert run[..|run|] == run;
    assert IdsBelow(At(x, |run|), k) by { BoundIs(After(cfg, s, run), k); }
    forall who: Actor, n: nat ensures GetsTurn(x, who, n) {
      match who
      case Worker => WorkerGetsTurn(x, run, k, n);
      case Caller(j) => CallerGetsTurn(x, run, k, j, n);
    }
    LockNotNeeded(x, id, |run|);
    TurnsAreUnhurried(x, run, k, id);
  }

  lemma BoundIs(s: State, k: nat)
    requires forall id :: id in s.procs.Keys ==> id < k
    ensures IdsBelow(s, k)
  {
  }

  lemma TurnsAreUnhurried(x: Schedule, run: seq<Action>, k: nat, id: nat)
    requires x.turn == RunAndTurns(run, k) && Favourable(run)
    ensures Unhurried(x, id)
  {
  }
}
