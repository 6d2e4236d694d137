/** The fine-grained delivery protocol refines an atomic bounded FIFO in which every send is one
    accept or one refusal. */
module TransportRefinement {
  import opened Prelude
  import opened Transport
  import opened TransportInvariant
  import opened TransportSafety

  // ---------- the simple form ----------

  /** What became of a send: its batch, and whether it was accepted. */
  datatype Verdict = Verdict(batch: Batch, accepted: bool)

  /** A bounded FIFO with one consumer. `fates` says which sends are decided, and how. */
  datatype Fifo = Fifo(
    queue: seq<Batch>,
    held: seq<Batch>,             // the batch being exported, if any
    outcome: Option<bool>,        // how its export ended, if it has
    settled: seq<Settlement>,
    closed: bool,
    fates: map<nat, Verdict>)

  predicate AcceptStep(cfg: Config, f: Fifo, g: Fifo, id: nat, b: Batch) {
    && id !in f.fates && !f.closed && cfg.usable && b.routable && |f.queue| < cfg.capacity
    && g == f.(queue := f.queue + [b], fates := f.fates[id := Verdict(b, true)])
  }

  predicate RefuseStep(cfg: Config, f: Fifo, g: Fifo, id: nat, b: Batch) {
    && id !in f.fates && (f.closed || !cfg.usable || !b.routable || |f.queue| == cfg.capacity)
    && g == f.(fates := f.fates[id := Verdict(b, false)])
  }

  predicate TakeStep(f: Fifo, g: Fifo) {
    && f.held == [] && f.queue != []
    && g == f.(held := [f.queue[0]], queue := f.queue[1..])
  }

  /** The export of the held batch ends, with success or not. */
  predicate ExportStep(f: Fifo, g: Fifo, ok: bool) {
    |f.held| == 1 && f.outcome.None? && g == f.(outcome := Some(ok))
  }

  predicate SettleStep(f: Fifo, g: Fifo) {
    && |f.held| == 1 && f.outcome.Some?
    && g == f.(held := [], outcome := None, settled := f.settled + [Settlement(f.held[0], f.outcome.value)])
  }

  predicate CloseStep(f: Fifo, g: Fifo) {
    g == f.(closed := true)
  }

  /** What the action does in the simple form, if anything: a caller decides its own send or closes, and an
      export ends as the action says. */
  ghost predicate FifoStep(cfg: Config, f: Fifo, a: Action, g: Fifo) {
    || f == g
    || (a.Step? && exists b :: AcceptStep(cfg, f, g, a.id, b))
    || (a.Step? && exists b :: RefuseStep(cfg, f, g, a.id, b))
    || (a.Step? && CloseStep(f, g))
    || (a.Work? && (TakeStep(f, g) || ExportStep(f, g, a.choice) || SettleStep(f, g)))
  }

  // ---------- the abstraction ----------

  /** When a send is decided: at its push, or where it turns to refusal. */
  function Fate(p: Proc): Option<bool> {
    if !p.role.Sender? then None
    else match p.pc
      case SendCount => Some(true)
      case SendReject | SendUndo | SendDrop => Some(false)
      case SendUnlock(sent) => Some(sent)
      case Returned(sent) => Some(sent)
      case _ => None
  }

  function VerdictOn(p: Proc): Verdict
    requires Fate(p).Some?
  {
    Verdict(CarriedBy(p.role), Fate(p).value)
  }

  function Fates(procs: map<nat, Proc>): map<nat, Verdict> {
    map id | id in procs && Fate(procs[id]).Some? :: VerdictOn(procs[id])
  }

  function Outcome(w: WorkerPc): Option<bool> {
    match w
    case Exported(_, ok) => Some(ok)
    case _ => None
  }

  function Abstract(s: State): Fifo {
    Fifo(s.sh.queue, Held(s.sh.worker), Outcome(s.sh.worker), s.sh.settled, s.sh.closed, Fates(s.procs))
  }

  // ---------- the refinement ----------

  lemma FatesFollow(procs: map<nat, Proc>, id: nat, p: Proc)
    requires id in procs ==> procs[id].role == p.role && (Fate(procs[id]).None? || Fate(procs[id]) == Fate(p))
    ensures Fates(procs[id := p]) == if Fate(p).Some? then Fates(procs)[id := VerdictOn(p)] else Fates(procs)
    ensures id in procs && Fate(procs[id]) == Fate(p) ==> Fates(procs[id := p]) == Fates(procs)
    ensures id in procs && Fate(procs[id]).None? ==> id !in Fates(procs)
  {
  }

  lemma WorkRefines(cfg: Config, s: State, choice: bool)
    requires Inv(cfg, s) && WorkEnabled(s.sh, choice)
    ensures FifoStep(cfg, Abstract(s), Work(choice), Abstract(Apply(cfg, s, Work(choice))))
  {
    var t := Apply(cfg, s, Work(choice));
    if s.sh.worker.Selecting? && choice {
      assert TakeStep(Abstract(s), Abstract(t));
    } else if s.sh.worker.Exporting? {
      assert ExportStep(Abstract(s), Abstract(t), choice);
    } else if s.sh.worker.Exported? {
      assert SettleStep(Abstract(s), Abstract(t));
    } else {
      assert Abstract(s) == Abstract(t);
    }
  }

  lemma EnqueueFate(cfg: Config, sh: Shared, id: nat, p: Proc)
    requires Agrees(cfg, sh, id, p) && InEnqueue(p.pc)
    ensures var q := p.(pc := EnqueueStep(cfg, sh, id, CarriedBy(p.role), p.pc).pc);
            && (!p.pc.SendCheck? && !p.pc.SendPush? ==> Fate(q) == Fate(p))
            && (p.pc.SendCheck? || p.pc.SendPush? ==> Fate(p).None?)
  {
  }

  lemma EnqueueRefines(cfg: Config, s: State, id: nat)
    requires Inv(cfg, s) && id in s.procs && InEnqueue(s.procs[id].pc) && StepEnabled(s.sh, s.procs[id].pc, true)
    ensures FifoStep(cfg, Abstract(s), Step(id, true), Abstract(Apply(cfg, s, Step(id, true))))
  {
    var p := s.procs[id];
    var t := Apply(cfg, s, Step(id, true));
    assert Agrees(cfg, s.sh, id, p);
    EnqueueFate(cfg, s.sh, id, p);
    FatesFollow(s.procs, id, t.procs[id]);
    if p.pc.SendCheck? {
      if t.procs[id].pc.SendReject? {
        assert RefuseStep(cfg, Abstract(s), Abstract(t), id, CarriedBy(p.role));
      }
    } else if p.pc.SendPush? {
      if t.procs[id].pc.SendUndo? {
        assert RefuseStep(cfg, Abstract(s), Abstract(t), id, CarriedBy(p.role));
      } else {
        assert AcceptStep(cfg, Abstract(s), Abstract(t), id, CarriedBy(p.role));
      }
    }
  }

  lemma OtherStepRefines(cfg: Config, s: State, id: nat, choice: bool)
    requires Inv(cfg, s) && Enabled(s, Step(id, choice)) && !InEnqueue(s.procs[id].pc)
    ensures FifoStep(cfg, Abstract(s), Step(id, choice), Abstract(Apply(cfg, s, Step(id, choice))))
  {
    var p := s.procs[id];
    var t := Apply(cfg, s, Step(id, choice));
    assert Agrees(cfg, s.sh, id, p);
    OthersKeepTotals(cfg, s.sh, id, p, choice);
    FatesFollow(s.procs, id, t.procs[id]);
    if s.sh.closed != t.sh.closed { assert CloseStep(Abstract(s), Abstract(t)); }
  }

  /** Every step of the protocol is a step of the simple form, or invisible in it. */
  lemma {:induction false} StepRefines(cfg: Config, s: State, a: Action)
    requires Inv(cfg, s) && Enabled(s, a)
    ensures FifoStep(cfg, Abstract(s), a, Abstract(Apply(cfg, s, a)))
  {
    match a
    case Call(id, role) =>
      var p := Apply(cfg, s, a).procs[id];
      assert Fates(s.procs[id := p]) == Fates(s.procs);
    case Work(choice) => WorkRefines(cfg, s, choice);
    case Step(id, choice) =>
      if InEnqueue(s.procs[id].pc) {
        assert Apply(cfg, s, Step(id, choice)) == Apply(cfg, s, Step(id, true));
        EnqueueRefines(cfg, s, id);
      } else {
        OtherStepRefines(cfg, s, id, choice);
      }
  }

  ghost predicate FifoRun(cfg: Config, fs: seq<Fifo>, run: seq<Action>) {
    |fs| == |run| + 1 && forall i :: 0 <= i < |run| ==> FifoStep(cfg, fs[i], run[i], fs[i + 1])
  }

  /** Every run of the protocol is, state by state, a run of the simple form. */
  lemma {:induction false} RunRefines(cfg: Config, s: State, run: seq<Action>) returns (fs: seq<Fifo>)
    requires Inv(cfg, s) && Runs(cfg, s, run)
    ensures FifoRun(cfg, fs, run)
    ensures fs[0] == Abstract(s) && fs[|run|] == Abstract(After(cfg, s, run))
    decreases |run|
  {
    if run == [] {
      fs := [Abstract(s)];
    } else {
      StepRefines(cfg, s, run[0]);
      ApplyKeepsInv(cfg, s, run[0]);
      var rest := RunRefines(cfg, Apply(cfg, s, run[0]), run[1..]);
      fs := [Abstract(s)] + rest;
      forall i | 0 <= i < |run| ensures FifoStep(cfg, fs[i], run[i], fs[i + 1]) {
        if i > 0 { assert fs[i] == rest[i - 1] && fs[i + 1] == rest[i] && run[i] == run[1..][i - 1]; }
      }
    }
  }

  // ---------- every send counted once ----------

  function Decided(procs: map<nat, Proc>, sent: bool): set<nat> {
    set id | id in procs && Fate(procs[id]) == Some(sent)
  }

  /** A refusal that `dropped` has not yet counted. */
  function Owed(pc: Pc): nat {
    if pc.SendReject? || pc.SendUndo? || pc.SendDrop? then 1 else 0
  }

  /** The two send totals count the decided sends. */
  ghost predicate SendsCounted(s: State) {
    && s.sh.accepted + Uncounted(HolderPc(s)) == |Decided(s.procs, true)|
    && s.sh.dropped + Owed(HolderPc(s)) == |Decided(s.procs, false)|
  }

  lemma DecidedFollows(procs: map<nat, Proc>, id: nat, p: Proc, sent: bool)
    requires id in procs ==> Fate(procs[id]).None? || Fate(procs[id]) == Fate(p)
    ensures var news := Fate(p) == Some(sent) && (id in procs ==> Fate(procs[id]).None?);
            |Decided(procs[id := p], sent)| == |Decided(procs, sent)| + if news then 1 else 0
  {
    if Fate(p) == Some(sent) && (id in procs ==> Fate(procs[id]).None?) {
      assert Decided(procs[id := p], sent) == Decided(procs, sent) + {id};
    } else {
      assert Decided(procs[id := p], sent) == Decided(procs, sent);
    }
  }

  lemma EnqueueCounts(cfg: Config, sh: Shared, holder: Pc, id: nat, p: Proc)
    requires Agrees(cfg, sh, id, p) && HolderAgrees(sh, holder, id, p)
    requires InEnqueue(p.pc) && StepEnabled(sh, p.pc, true)
    ensures var m := EnqueueStep(cfg, sh, id, CarriedBy(p.role), p.pc);
            var h := NextHolder(m, holder, id);
            var fate := Fate(p.(pc := m.pc));
            var news := Fate(p).None? && fate.Some?;
            && (Fate(p).None? || Fate(p) == fate)
            && m.sh.accepted + Uncounted(h) == sh.accepted + Uncounted(holder) + (if news && fate.value then 1 else 0)
            && m.sh.dropped + Owed(h) == sh.dropped + Owed(holder) + (if news && !fate.value then 1 else 0)
  {
  }

  lemma ShutdownCounts(cfg: Config, sh: Shared, holder: Pc, id: nat, p: Proc, choice: bool)
    requires Agrees(cfg, sh, id, p) && HolderAgrees(sh, holder, id, p) && StepEnabled(sh, p.pc, choice)
    requires InShutdown(p.pc)
    ensures var h := NextHolder(ShutdownStep(cfg, sh, id, p.pc, choice), holder, id);
            Uncounted(h) == Uncounted(holder) && Owed(h) == Owed(holder)
  {
  }

  lemma OtherCounts(cfg: Config, sh: Shared, holder: Pc, id: nat, p: Proc, choice: bool)
    requires Agrees(cfg, sh, id, p) && HolderAgrees(sh, holder, id, p) && StepEnabled(sh, p.pc, choice)
    requires !InEnqueue(p.pc)
    ensures var m := CallerStep(cfg, sh, id, p, choice);
            var h := NextHolder(m, holder, id);
            && Uncounted(h) == Uncounted(holder) && Owed(h) == Owed(holder)
            && Fate(p.(pc := m.pc)) == Fate(p) && SameTotals(sh, m.sh)
  {
    OthersKeepTotals(cfg, sh, id, p, choice);
    if InFlush(p.pc) { assert FlushStep(cfg, sh, p.role, p.pc, choice).sh == sh; }
    else if InShutdown(p.pc) { ShutdownCounts(cfg, sh, holder, id, p, choice); }
    else { assert HookStep(sh, id, p.pc, choice).sh.lock == sh.lock; }
  }

  lemma CallKeepsSendsCounted(cfg: Config, s: State, id: nat, role: Role)
    requires Inv(cfg, s) && SendsCounted(s) && id !in s.procs
    ensures SendsCounted(Apply(cfg, s, Call(id, role)))
  {
    var t := Apply(cfg, s, Call(id, role));
    assert HolderPc(t) == HolderPc(s);
    DecidedFollows(s.procs, id, t.procs[id], true);
    DecidedFollows(s.procs, id, t.procs[id], false);
  }

  lemma CallerKeepsSendsCounted(cfg: Config, s: State, id: nat, choice: bool)
    requires Inv(cfg, s) && SendsCounted(s) && Enabled(s, Step(id, choice))
    ensures SendsCounted(Apply(cfg, s, Step(id, choice)))
  {
    var p := s.procs[id];
    var q := Apply(cfg, s, Step(id, choice)).procs[id];
    assert Agrees(cfg, s.sh, id, p);
    HolderKnown(cfg, s, id);
    StepKeepsOwned(cfg, s, id, choice);
    if InEnqueue(p.pc) { EnqueueCounts(cfg, s.sh, HolderPc(s), id, p); }
    else { OtherCounts(cfg, s.sh, HolderPc(s), id, p, choice); }
    DecidedFollows(s.procs, id, q, true);
    DecidedFollows(s.procs, id, q, false);
  }

  lemma StepKeepsSendsCounted(cfg: Config, s: State, a: Action)
    requires Inv(cfg, s) && SendsCounted(s) && Enabled(s, a)
    ensures SendsCounted(Apply(cfg, s, a))
  {
    match a
    case Call(id, role) => CallKeepsSendsCounted(cfg, s, id, role);
    case Work(choice) =>
      var t := Apply(cfg, s, a);
      assert HolderPc(t) == HolderPc(s) && t.sh.accepted == s.sh.accepted && t.sh.dropped == s.sh.dropped;
    case Step(id, choice) => CallerKeepsSendsCounted(cfg, s, id, choice);
  }

  lemma {:induction false} RunKeepsSendsCounted(cfg: Config, s: State, run: seq<Action>)
    requires Inv(cfg, s) && SendsCounted(s) && Runs(cfg, s, run)
    ensures SendsCounted(After(cfg, s, run))
    decreases |run|
  {
    if run == [] {
    } else {
      StepKeepsSendsCounted(cfg, s, run[0]);
      ApplyKeepsInv(cfg, s, run[0]);
      RunKeepsSendsCounted(cfg, Apply(cfg, s, run[0]), run[1..]);
    }
  }

  /** The calls of enqueue that have returned. */
  function Sent(procs: map<nat, Proc>): set<nat> {
    set id | id in procs && procs[id].role.Sender? && procs[id].pc.Returned?
  }

  lemma SentSplits(procs: map<nat, Proc>)
    requires forall id :: id in procs && Fate(procs[id]).Some? ==> procs[id].pc.Returned?
    ensures |Sent(procs)| == |Decided(procs, true)| + |Decided(procs, false)|
  {
    var yes, no := Decided(procs, true), Decided(procs, false);
    assert Sent(procs) == yes + no;
    assert yes !! no;
  }

  lemma ReachableSendsCounted(cfg: Config, s: State)
    requires Reachable(cfg, s)
    ensures SendsCounted(s)
  {
    hide Inv, SendsCounted, Runs, After;
    InitInv(cfg);
    InitSendsCounted();
    var run :| Runs(cfg, Init(), run) && After(cfg, Init(), run) == s;
    RunKeepsSendsCounted(cfg, Init(), run);
  }

  lemma InitSendsCounted()
    ensures SendsCounted(Init())
  {
    assert Decided(map[], true) == {} && Decided(map[], false) == {};
  }

  lemma UnlockedFates(cfg: Config, s: State)
    requires Inv(cfg, s) && s.sh.lock.None?
    ensures forall id :: id in s.procs && Fate(s.procs[id]).Some? ==> s.procs[id].pc.Returned?
  {
    forall id | id in s.procs && Fate(s.procs[id]).Some? ensures s.procs[id].pc.Returned? {
      assert Agrees(cfg, s.sh, id, s.procs[id]);
    }
  }

  /** Whenever nobody holds the lock, `accepted` + `dropped` is the number of sends that returned:
      each was one accept or one drop, and no batch was settled twice. */
  lemma EverySendCountedOnce(cfg: Config, s: State)
    requires Reachable(cfg, s) && s.sh.lock.None?
    ensures s.sh.accepted + s.sh.dropped == |Sent(s.procs)|
    ensures s.sh.accepted == |Decided(s.procs, true)|
         == s.sh.delivered + s.sh.failed + |Held(s.sh.worker)| + |s.sh.queue|
  {
    ReachableSendsCounted(cfg, s);
    ReachableInv(cfg, s);
    ConservationAtEveryStep(cfg, s);
    UnlockedFates(cfg, s);
    SentSplits(s.procs);
    hide Inv, Reachable, Decided, Sent;
  }
}
