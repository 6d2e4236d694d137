/** The transport as the object it is in the source: `enqueue` and the worker loop `run` as methods that
    update its fields, and the proof that an undisturbed call of `enqueue` is a run of the step system. */
module TransportObject {
  import opened Prelude
  import opened Transport
  import opened TransportInvariant

  /** The effect of one undisturbed `enqueue`. */
  function Enqueued(cfg: Config, sh: Shared, batch: Batch): Shared {
    if sh.closed || !cfg.usable || !batch.routable || |sh.queue| >= cfg.capacity
    then sh.(dropped := sh.dropped + 1)
    else sh.(queue := sh.queue + [batch], pushed := sh.pushed + [batch],
             pending := sh.pending + 1, accepted := sh.accepted + 1)
  }

  /** What the exporter made of each batch, in order. */
  function Outcomes(batches: seq<Batch>, exporter: Batch -> bool): (r: seq<Settlement>)
    ensures |r| == |batches| && forall i :: 0 <= i < |r| ==> r[i] == Settlement(batches[i], exporter(batches[i]))
  {
    seq(|batches|, i requires 0 <= i < |batches| => Settlement(batches[i], exporter(batches[i])))
  }

  /** The fields of the transport that `enqueue` and `run` work on. */
  class ManagedExporter {
    const cfg: Config
    var queue: seq<Batch>
    var lock: Option<nat>
    var closed: bool
    var pending: int
    var inFlight: int
    var accepted: int
    var delivered: int
    var dropped: int
    var failed: int
    var done: bool
    var stopped: bool
    ghost var pushed: seq<Batch>
    ghost var settled: seq<Settlement>

    /** newManagedExporter: a capacity that is not positive becomes 64. */
    constructor (usable: bool, flushHook: bool, shutdownHook: bool, queueCapacity: int)
      ensures cfg == Config(if queueCapacity <= 0 then 64 else queueCapacity, usable, true, flushHook, shutdownHook)
      ensures queue == pushed == [] && settled == [] && lock == None && !closed && !done && !stopped
      ensures pending == inFlight == accepted == delivered == dropped == failed == 0
      ensures Abs() == Init().sh
    {
      cfg := Config(if queueCapacity <= 0 then 64 else queueCapacity, usable, true, flushHook, shutdownHook);
      queue, lock, closed, done, stopped := [], None, false, false, false;
      pending, inFlight, accepted, delivered, dropped, failed := 0, 0, 0, 0, 0, 0;
      pushed, settled := [], [];
    }

    /** The transport in the step system while no step is under way in it. */
    ghost function Abs(): Shared
      reads this
    {
      Shared(queue, lock, closed, pending, inFlight, accepted, delivered, dropped, failed, done, stopped,
             if done then Finished else Fresh, Fresh, false, true, if stopped then Stopped else Selecting,
             pushed, settled, 0, None)
    }

    predicate Takes(batch: Batch)
      reads this
    {
      !closed && cfg.usable && batch.routable && |queue| < cfg.capacity
    }

    method Enqueue(me: nat, batch: Batch)
      requires lock.None?
      modifies `queue, `lock, `pending, `accepted, `dropped, `pushed
      ensures Abs() == Enqueued(cfg, old(Abs()), batch)
      ensures lock.None?
      ensures pushed == old(pushed) + if old(Takes(batch)) then [batch] else []
      ensures queue == old(queue) + if old(Takes(batch)) then [batch] else []
      ensures pending == old(pending) + if old(Takes(batch)) then 1 else 0
      ensures accepted == old(accepted) + if old(Takes(batch)) then 1 else 0
      ensures dropped == old(dropped) + if old(Takes(batch)) then 0 else 1
    {
      lock := Some(me);
      if closed || !cfg.usable || !batch.routable {
        dropped := dropped + 1;
        lock := None;
        return;
      }
      pending := pending + 1;
      if |queue| < cfg.capacity {
        queue := queue + [batch];
        pushed := pushed + [batch];
        accepted := accepted + 1;
      } else {
        pending := pending - 1;
        dropped := dropped + 1;
      }
      lock := None;
    }

    /** One round of the worker loop. */
    method ExportOne(exporter: Batch -> bool)
      requires queue != []
      modifies `queue, `inFlight, `delivered, `failed, `pending, `settled
      ensures queue == old(queue)[1..] && pending == old(pending) - 1 && inFlight == 0
      ensures settled == old(settled) + [Settlement(old(queue)[0], exporter(old(queue)[0]))]
      ensures delivered == old(delivered) + if exporter(old(queue)[0]) then 1 else 0
      ensures failed == old(failed) + if exporter(old(queue)[0]) then 0 else 1
    {
      var batch := queue[0];
      queue := queue[1..];
      inFlight := 1;
      var ok := exporter(batch);
      if ok {
        delivered := delivered + 1;
      } else {
        failed := failed + 1;
      }
      settled := settled + [Settlement(batch, ok)];
      inFlight := 0;
      pending := pending - 1;
    }

    /** The worker loop up to where it has to wait, or has stopped, when nobody else uses the transport:
        the whole backlog is exported once and in order, and the worker stops if `done` is closed. It is
        closed with an empty queue only (`TransportSafety.NothingLeftWhenDone`), so at each round one of the
        two cases of the select is ready, or none. */
    method Run(exporter: Batch -> bool)
      requires !stopped && (done ==> queue == [])
      requires delivered == Oks(settled) && delivered + failed == |settled|
      modifies `queue, `inFlight, `delivered, `failed, `pending, `stopped, `settled
      ensures stopped == done && queue == []
      ensures settled == old(settled) + Outcomes(old(queue), exporter)
      ensures delivered == Oks(settled) && delivered + failed == |settled|
      ensures pending == old(pending) - |old(queue)|
    {
      ghost var all, before, owed, n := queue, settled, pending, 0;
      NoOutcomes(all, before, exporter);
      hide Oks, Outcomes;
      while queue != []
        invariant !stopped && n <= |all| && queue == all[n..]
        invariant settled == before + Outcomes(all[..n], exporter)
        invariant delivered == Oks(settled) && delivered + failed == |settled|
        invariant pending == owed - n
        decreases |queue|
      {
        OneMoreOutcome(all, n, before, exporter);
        SettlingGrows(settled, Settlement(all[n], exporter(all[n])));
        ExportOne(exporter);
        n := n + 1;
      }
      assert all[..n] == all;
      if done {
        stopped := true;
      }
    }
  }

  lemma NoOutcomes(all: seq<Batch>, before: seq<Settlement>, exporter: Batch -> bool)
    ensures before + Outcomes(all[..0], exporter) == before && all[0..] == all
  {
  }

  lemma OneMoreOutcome(all: seq<Batch>, n: nat, before: seq<Settlement>, exporter: Batch -> bool)
    requires n < |all|
    ensures before + Outcomes(all[..n + 1], exporter)
         == before + Outcomes(all[..n], exporter) + [Settlement(all[n], exporter(all[n]))]
    ensures all[n..][0] == all[n] && all[n..][1..] == all[n + 1..]
  {
    assert Outcomes(all[..n + 1], exporter) == Outcomes(all[..n], exporter) + [Settlement(all[n], exporter(all[n]))];
  }

  // ---------- an undisturbed call is a run ----------

  /** `n` steps of the call `id` in a row. */
  function Alone(id: nat, n: nat): seq<Action> {
    if n == 0 then [] else [Step(id, true)] + Alone(id, n - 1)
  }

  /** The call `id` at `pc`, and the rest of the system as in `s` with the transport in `sh`. */
  function Placed(s: State, id: nat, sh: Shared, pc: Pc): State
    requires id in s.procs
  {
    State(sh, s.procs[id := s.procs[id].(pc := pc)])
  }

  lemma OneMore(cfg: Config, s: State, id: nat, n: nat, t: State)
    requires Enabled(s, Step(id, true))
    requires var u := Apply(cfg, s, Step(id, true)); Runs(cfg, u, Alone(id, n)) && After(cfg, u, Alone(id, n)) == t
    ensures Runs(cfg, s, Alone(id, n + 1)) && After(cfg, s, Alone(id, n + 1)) == t
  {
    assert Alone(id, n + 1)[1..] == Alone(id, n);
  }

  /** From each place inside `enqueue`, the call's own steps end it. */
  lemma {:induction false} EnqueueAlone(cfg: Config, s: State, id: nat) returns (n: nat)
    requires id in s.procs && InEnqueue(s.procs[id].pc) && s.procs[id].role.Sender?
    requires StepEnabled(s.sh, s.procs[id].pc, true)
    ensures Runs(cfg, s, Alone(id, n))
    ensures var p := s.procs[id];
            After(cfg, s, Alone(id, n)) == Placed(s, id, Finish(cfg, s.sh, id, p.role.batch, p.pc).sh,
                                                  Finish(cfg, s.sh, id, p.role.batch, p.pc).pc)
    decreases Left(s.procs[id].pc)
  {
    var t := Apply(cfg, s, Step(id, true));
    if t.procs[id].pc.Returned? {
      n := 0;
      assert After(cfg, t, Alone(id, 0)) == t;
      OneMore(cfg, s, id, 0, t);
      n := 1;
    } else {
      var m := EnqueueAlone(cfg, t, id);
      var p := t.procs[id];
      var f := Finish(cfg, t.sh, id, p.role.batch, p.pc);
      assert Placed(t, id, f.sh, f.pc) == Placed(s, id, f.sh, f.pc);
      OneMore(cfg, s, id, m, Placed(s, id, f.sh, f.pc));
      n := m + 1;
    }
  }

  function Left(pc: Pc): nat {
    match pc
    case SendLock => 7
    case SendCheck => 6
    case SendReserve => 5
    case SendPush => 4
    case SendUndo => 3
    case SendCount | SendReject | SendDrop => 2
    case SendUnlock(_) => 1
    case _ => 0
  }

  function Finish(cfg: Config, sh: Shared, id: nat, batch: Batch, pc: Pc): Moved
    requires InEnqueue(pc)
    decreases Left(pc)
  {
    var m := EnqueueStep(cfg, sh, id, batch, pc);
    if m.pc.Returned? then m else Finish(cfg, m.sh, id, batch, m.pc)
  }

  /** `Enqueue` above is what the step system does when a caller that finds the lock free is not
      disturbed until it returns. */
  lemma UndisturbedEnqueue(cfg: Config, s: State, id: nat) returns (n: nat)
    requires id in s.procs && s.procs[id].pc.SendLock? && s.procs[id].role.Sender? && s.sh.lock.None?
    ensures Runs(cfg, s, Alone(id, n))
    ensures var t := After(cfg, s, Alone(id, n));
            && t.sh == Enqueued(cfg, s.sh, s.procs[id].role.batch)
            && t.procs == s.procs[id := s.procs[id].(pc := Returned(t.sh.accepted != s.sh.accepted))]
  {
    n := EnqueueAlone(cfg, s, id);
    FinishIs(cfg, s.sh, id, s.procs[id].role.batch);
  }

  lemma FinishReject(cfg: Config, sh: Shared, id: nat, batch: Batch)
    ensures Finish(cfg, sh, id, batch, SendReject)
         == Moved(sh.(dropped := sh.dropped + 1, lock := None), Returned(false))
  {
  }

  lemma FinishUndo(cfg: Config, sh: Shared, id: nat, batch: Batch)
    ensures Finish(cfg, sh, id, batch, SendUndo)
         == Moved(sh.(pending := sh.pending - 1, dropped := sh.dropped + 1, lock := None), Returned(false))
  {
    var u := sh.(pending := sh.pending - 1);
    assert Finish(cfg, u, id, batch, SendDrop) == Moved(u.(dropped := u.dropped + 1, lock := None), Returned(false));
  }

  lemma FinishCount(cfg: Config, sh: Shared, id: nat, batch: Batch)
    ensures Finish(cfg, sh, id, batch, SendCount)
         == Moved(sh.(accepted := sh.accepted + 1, lock := None), Returned(true))
  {
  }

  lemma FinishPush(cfg: Config, sh: Shared, id: nat, batch: Batch)
    ensures Finish(cfg, sh, id, batch, SendPush) ==
            if |sh.queue| < cfg.capacity
            then Moved(sh.(queue := sh.queue + [batch], pushed := sh.pushed + [batch], accepted := sh.accepted + 1,
                           lock := None), Returned(true))
            else Moved(sh.(pending := sh.pending - 1, dropped := sh.dropped + 1, lock := None), Returned(false))
  {
    if |sh.queue| < cfg.capacity {
      FinishCount(cfg, sh.(queue := sh.queue + [batch], pushed := sh.pushed + [batch]), id, batch);
    } else {
      FinishUndo(cfg, sh, id, batch);
    }
  }

  lemma FinishReserve(cfg: Config, sh: Shared, id: nat, batch: Batch)
    ensures Finish(cfg, sh, id, batch, SendReserve) ==
            if |sh.queue| < cfg.capacity
            then Moved(sh.(queue := sh.queue + [batch], pushed := sh.pushed + [batch], pending := sh.pending + 1,
                           accepted := sh.accepted + 1, lock := None), Returned(true))
            else Moved(sh.(dropped := sh.dropped + 1, lock := None), Returned(false))
  {
    var b := sh.(pending := sh.pending + 1);
    FinishPush(cfg, b, id, batch);
    assert EnqueueStep(cfg, sh, id, batch, SendReserve) == Moved(b, SendPush);
    assert Finish(cfg, sh, id, batch, SendReserve) == Finish(cfg, b, id, batch, SendPush);
  }

  lemma FinishCheck(cfg: Config, sh: Shared, id: nat, batch: Batch)
    ensures Finish(cfg, sh, id, batch, SendCheck) ==
            if sh.closed || !cfg.usable || !batch.routable
            then Moved(sh.(dropped := sh.dropped + 1, lock := None), Returned(false))
            else Finish(cfg, sh, id, batch, SendReserve)
  {
    FinishReject(cfg, sh, id, batch);
  }

  lemma FinishLock(cfg: Config, sh: Shared, id: nat, batch: Batch)
    ensures Finish(cfg, sh, id, batch, SendLock) == Finish(cfg, sh.(lock := Some(id)), id, batch, SendCheck)
  {
  }

  lemma FinishIs(cfg: Config, sh: Shared, id: nat, batch: Batch)
    requires sh.lock.None?
    ensures var f := Finish(cfg, sh, id, batch, SendLock);
            f.sh == Enqueued(cfg, sh, batch) && f.pc == Returned(f.sh.accepted != sh.accepted)
  {
    hide Finish, EnqueueStep, Enqueued;
    var a := sh.(lock := Some(id));
    FinishLock(cfg, sh, id, batch);
    FinishCheck(cfg, a, id, batch);
    if sh.closed || !cfg.usable || !batch.routable {
      Refused(cfg, sh, id, batch);
    } else {
      FinishReserve(cfg, a, id, batch);
      if |sh.queue| < cfg.capacity { TakenIn(cfg, sh, id, batch); } else { Refused(cfg, sh, id, batch); }
    }
  }

  lemma Refused(cfg: Config, sh: Shared, id: nat, batch: Batch)
    requires sh.lock.None? && (sh.closed || !cfg.usable || !batch.routable || |sh.queue| >= cfg.capacity)
    ensures sh.(lock := Some(id)).(dropped := sh.dropped + 1, lock := None) == Enqueued(cfg, sh, batch)
    ensures Enqueued(cfg, sh, batch).accepted == sh.accepted
  {
  }

  lemma TakenIn(cfg: Config, sh: Shared, id: nat, batch: Batch)
    requires sh.lock.None? && !(sh.closed || !cfg.usable || !batch.routable || |sh.queue| >= cfg.capacity)
    ensures sh.(lock := Some(id)).(queue := sh.queue + [batch], pushed := sh.pushed + [batch],
              pending := sh.pending + 1, accepted := sh.accepted + 1, lock := None) == Enqueued(cfg, sh, batch)
    ensures Enqueued(cfg, sh, batch).accepted == sh.accepted + 1
  {
  }
}
