/** What becomes of the deposits in the blocks that the bridge has handled: over every run. */
module BifrostDeposits {
  import opened BifrostCredit
  import opened BifrostHandling
  import opened BifrostOnce
  import opened BifrostProtocol
  import opened BifrostTables

  /** A handler returned without error for the deposit. */
  predicate Dealt(c: Config, s: System, chain: Chain, d: Deposit) {
    || d.value < c.Minimum(chain)
    || Delivery(chain, d) in s.history.missed
    || Delivery(chain, d) in s.history.served
  }

  /** How far a listener is in its block. */
  function Progress(p: Place): nat {
    match p
    case Waiting => 0
    case Saving(block) => |block.deposits|
    case Handling(_, next) => next
    case Adding(_, next, _) => next
    case Queueing(_, next, _) => next
  }

  ghost predicate DealtSoFar(c: Config, s: System, p: Process) {
    p.Listener? && !p.place.Waiting? ==>
      forall i :: 0 <= i < |p.place.block.deposits| && i < Progress(p.place) ==>
        Dealt(c, s, p.chain, p.place.block.deposits[i])
  }

  ghost predicate AllDealt(c: Config, s: System) {
    && (forall d :: d in s.history.finished ==> Dealt(c, s, d.chain, d.deposit))
    && (forall pid :: pid in s.processes ==> DealtSoFar(c, s, s.processes[pid]))
  }

  lemma DealtGrows(c: Config, s: System, step: Step)
    requires Enabled(c, s, step)
    ensures s.history.missed <= After(c, s, step).history.missed && s.history.served <= After(c, s, step).history.served
    ensures !step.FinishBlock? ==> After(c, s, step).history.finished == s.history.finished
  {
  }

  lemma DealtStays(c: Config, s: System, t: System, p: Process)
    requires DealtSoFar(c, s, p) && s.history.missed <= t.history.missed && s.history.served <= t.history.served
    ensures DealtSoFar(c, t, p)
  {
  }

  /** One more deposit dealt with. */
  lemma NextDealt(c: Config, s: System, t: System, pid: nat)
    requires AllDealt(c, s) && BusyAt(s, pid)
    requires s.history.missed <= t.history.missed && s.history.served <= t.history.served
    requires Dealt(c, t, s.processes[pid].chain, s.processes[pid].place.Deposit())
    ensures var p := s.processes[pid]; DealtSoFar(c, t, p.(place := Handling(p.place.block, p.place.next + 1)))
  {
    DealtStays(c, s, t, s.processes[pid]);
  }

  predicate IsHandlerStep(step: Step) {
    step.SkipSmall? || step.LookUp? || step.Add? || step.QueueAdd?
  }

  lemma HandlerDealt(c: Config, s: System, step: Step)
    requires AllDealt(c, s) && Enabled(c, s, step) && IsHandlerStep(step)
    ensures ListenerAt(After(c, s, step), step.pid)
    ensures DealtSoFar(c, After(c, s, step), After(c, s, step).processes[step.pid])
  {
    var p, t := s.processes[step.pid], After(c, s, step);
    DealtGrows(c, s, step);
    DealtStays(c, s, t, p);
    if Dealt(c, t, p.chain, p.place.Deposit()) {
      NextDealt(c, s, t, step.pid);
    }
  }

  lemma MoverDealt(c: Config, s: System, step: Step, pid: nat)
    requires AllDealt(c, s) && Enabled(c, s, step) && !step.QueuePool? && step.pid == pid
    requires pid in After(c, s, step).processes
    ensures DealtSoFar(c, After(c, s, step), After(c, s, step).processes[pid])
  {
    if IsHandlerStep(step) {
      HandlerDealt(c, s, step);
    } else if step.FinishBlock? {
      DealtGrows(c, s, step);
      DealtStays(c, s, After(c, s, step), s.processes[pid]);
    }
  }

  lemma FinishDealt(c: Config, s: System, pid: nat)
    requires AllDealt(c, s) && Enabled(c, s, FinishBlock(pid))
    ensures forall d :: d in AfterFinish(s, pid).history.finished ==> Dealt(c, AfterFinish(s, pid), d.chain, d.deposit)
  {
    assert DealtSoFar(c, s, s.processes[pid]);
  }

  lemma StepKeepsDealt(c: Config, s: System, step: Step)
    requires AllDealt(c, s) && Enabled(c, s, step)
    ensures AllDealt(c, After(c, s, step))
  {
    var t := After(c, s, step);
    DealtGrows(c, s, step);
    if step.FinishBlock? {
      FinishDealt(c, s, step.pid);
    }
    forall q | q in t.processes ensures DealtSoFar(c, t, t.processes[q]) {
      if !step.QueuePool? && q == step.pid {
        MoverDealt(c, s, step, q);
      } else {
        OtherProcessesStay(c, s, step, q);
        DealtStays(c, s, t, s.processes[q]);
      }
    }
  }

  lemma {:induction false} RunKeepsDealt(c: Config, s: System, steps: seq<Step>)
    requires AllDealt(c, s) && Runs(c, s, steps)
    ensures AllDealt(c, Last(c, s, steps))
    decreases steps
  {
    if steps == [] {
    } else {
      StepKeepsDealt(c, s, steps[0]);
      RunKeepsDealt(c, After(c, s, steps[0]), steps[1..]);
    }
  }

  /** The step looks this deposit up, and there is no association for its address. */
  predicate PassesOver(s: System, step: Step, d: Delivery) {
    && step.LookUp? && step.outcome.Done? && BusyAt(s, step.pid)
    && s.processes[step.pid].chain == d.chain && s.processes[step.pid].place.Deposit() == d.deposit
    && forall a :: a in s.db.associations ==> a.chain != d.chain || a.address != d.deposit.to
  }

  /** Some step of the run does. */
  predicate EverPassedOver(c: Config, s: System, steps: seq<Step>, d: Delivery)
    requires Runs(c, s, steps)
    decreases steps
  {
    steps != [] && (PassesOver(s, steps[0], d) || EverPassedOver(c, After(c, s, steps[0]), steps[1..], d))
  }

  lemma MissedByStep(c: Config, s: System, step: Step, d: Delivery)
    requires Enabled(c, s, step)
    ensures d in After(c, s, step).history.missed <==> d in s.history.missed || PassesOver(s, step, d)
  {
  }

  lemma {:induction false} MissedByRun(c: Config, s: System, steps: seq<Step>, d: Delivery)
    requires Runs(c, s, steps)
    ensures d in Last(c, s, steps).history.missed <==> d in s.history.missed || EverPassedOver(c, s, steps, d)
    decreases steps
  {
    if steps == [] {
    } else {
      MissedByStep(c, s, steps[0], d);
      MissedByRun(c, After(c, s, steps[0]), steps[1..], d);
    }
  }

  /** A deposit counts as passed over exactly if some handler looked it up while no association had its address. */
  lemma MissedExactlyWhen(c: Config, steps: seq<Step>, d: Delivery)
    requires Runs(c, START, steps)
    ensures d in Last(c, START, steps).history.missed <==> EverPassedOver(c, START, steps, d)
  {
    MissedByRun(c, START, steps, d);
  }

  /** An association of this chain has the address of the deposit. */
  predicate IsAssociated(t: Tables, d: Delivery) {
    exists i :: 0 <= i < |t.associations|
      && t.associations[i].chain == d.chain && t.associations[i].address == d.deposit.to
  }

  lemma AssociatedGrows(s: System, t: System, d: Delivery)
    requires Grows(s, t) && IsAssociated(s.db, d)
    ensures IsAssociated(t.db, d)
  {
    var i :| 0 <= i < |s.db.associations|
      && s.db.associations[i].chain == d.chain && s.db.associations[i].address == d.deposit.to;
    assert t.db.associations[i] == s.db.associations[i];
  }

  lemma ProcessedGrows(s: System, t: System, key: TxKey)
    requires Grows(s, t) && IsProcessed(s.db, key)
    ensures IsProcessed(t.db, key)
  {
    var i :| 0 <= i < |s.db.processed| && s.db.processed[i].key == key;
    assert t.db.processed[i].key == key;
  }

  /** Once the address is associated the deposit is not missed any more. */
  lemma {:induction false} NotMissedAgain(c: Config, s: System, steps: seq<Step>, d: Delivery)
    requires Runs(c, s, steps) && IsAssociated(s.db, d) && d !in s.history.missed
    ensures d !in Last(c, s, steps).history.missed
    decreases steps
  {
    if steps == [] {
    } else {
      var t := After(c, s, steps[0]);
      MissedByStep(c, s, steps[0], d);
      StepGrows(c, s, steps[0]);
      AssociatedGrows(s, t, d);
      NotMissedAgain(c, t, steps[1..], d);
    }
  }

  /** The transaction is recorded; and unless a fault hit it, or a listener is about to queue it, exactly one row of the
      queue is about it. */
  ghost predicate Credited(c: Config, steps: seq<Step>, key: TxKey)
    requires Runs(c, START, steps)
  {
    var s := Last(c, START, steps);
    && IsProcessed(s.db, key)
    && (!EverHit(c, START, steps, key) && (forall pid :: !Pending(s, key, pid)) ==> QueuedOnce(s.db, key))
  }

  lemma RecordedIsCredited(c: Config, steps: seq<Step>, key: TxKey)
    requires Runs(c, START, steps) && IsProcessed(Last(c, START, steps).db, key)
    ensures Credited(c, steps, key)
  {
    LostExactlyWhen(c, steps, key);
    OneRow(c, steps, key);
  }

  /** In every run, each deposit of a block that was handled without error is too small, or was not associated when it
      was looked up, or is credited. */
  lemma HandledDeposits(c: Config, steps: seq<Step>, d: Delivery)
    requires Runs(c, START, steps) && d in Last(c, START, steps).history.finished
    requires d.deposit.value >= c.Minimum(d.chain) && d !in Last(c, START, steps).history.missed
    ensures Credited(c, steps, KeyOf(d.chain, d.deposit))
  {
    RunKeepsDealt(c, START, steps);
    assert Delivery(d.chain, d.deposit) == d;
    Accounting(c, steps, KeyOf(d.chain, d.deposit));
    RecordedIsCredited(c, steps, KeyOf(d.chain, d.deposit));
  }

  /** If the address of a deposit is associated before the deposit is passed over, and the deposit is large enough, then
      it is credited in every later state in which a block with it was handled. */
  lemma AssociatedDeposits(c: Config, steps: seq<Step>, later: seq<Step>, d: Delivery)
    requires Runs(c, START, steps) && Runs(c, Last(c, START, steps), later)
    requires IsAssociated(Last(c, START, steps).db, d) && d !in Last(c, START, steps).history.missed
    requires d in Last(c, Last(c, START, steps), later).history.finished && d.deposit.value >= c.Minimum(d.chain)
    ensures Runs(c, START, steps + later) && Credited(c, steps + later, KeyOf(d.chain, d.deposit))
  {
    RunConcat(c, START, steps, later);
    NotMissedAgain(c, Last(c, START, steps), later, d);
    HandledDeposits(c, steps + later, d);
  }

  // ----- whatever happened before the address was associated -----

  /** Where the listener has passed the deposit in its block, the deposit is recorded. */
  ghost predicate Passed(s: System, p: Process, d: Delivery) {
    p.Listener? && !p.place.Waiting? && p.chain == d.chain ==>
      forall i :: 0 <= i < |p.place.block.deposits| && i < Progress(p.place) && p.place.block.deposits[i] == d.deposit
        ==> IsProcessed(s.db, KeyOf(d.chain, d.deposit))
  }

  ghost predicate Watched(c: Config, s: System, d: Delivery) {
    && Accounts(s) && IsAssociated(s.db, d) && d.deposit.value >= c.Minimum(d.chain)
    && forall pid :: pid in s.processes ==> Passed(s, s.processes[pid], d)
  }

  lemma PassedStays(s: System, t: System, p: Process, d: Delivery)
    requires Passed(s, p, d) && Grows(s, t)
    ensures Passed(t, p, d)
  {
    if IsProcessed(s.db, KeyOf(d.chain, d.deposit)) {
      ProcessedGrows(s, t, KeyOf(d.chain, d.deposit));
    }
  }

  /** A handler that goes on after the deposit has seen it recorded, or has recorded it. */
  lemma HandlerRecords(c: Config, s: System, step: Step, d: Delivery)
    requires Watched(c, s, d) && Enabled(c, s, step) && IsHandlerStep(step)
    requires s.processes[step.pid].chain == d.chain && s.processes[step.pid].place.Deposit() == d.deposit
    requires After(c, s, step).processes[step.pid].place.Handling?
    ensures IsProcessed(s.db, KeyOf(d.chain, d.deposit))
  {
    if step.QueueAdd? {
      assert Pending(s, KeyOf(d.chain, d.deposit), step.pid);
    }
  }

  lemma HandlerPasses(c: Config, s: System, step: Step, d: Delivery)
    requires Watched(c, s, d) && Enabled(c, s, step) && IsHandlerStep(step)
    ensures ListenerAt(After(c, s, step), step.pid)
    ensures Passed(After(c, s, step), After(c, s, step).processes[step.pid], d)
  {
    var p, t := s.processes[step.pid], After(c, s, step);
    StepGrows(c, s, step);
    PassedStays(s, t, p, d);
    if t.processes[step.pid].place.Handling? && p.chain == d.chain && p.place.Deposit() == d.deposit {
      HandlerRecords(c, s, step, d);
      ProcessedGrows(s, t, KeyOf(d.chain, d.deposit));
    }
  }

  lemma MoverPasses(c: Config, s: System, step: Step, pid: nat, d: Delivery)
    requires Watched(c, s, d) && Enabled(c, s, step) && !step.QueuePool? && step.pid == pid
    requires pid in After(c, s, step).processes
    ensures Passed(After(c, s, step), After(c, s, step).processes[pid], d)
  {
    if IsHandlerStep(step) {
      HandlerPasses(c, s, step, d);
    } else if step.FinishBlock? {
      StepGrows(c, s, step);
      PassedStays(s, After(c, s, step), s.processes[pid], d);
    }
  }

  lemma StepKeepsWatched(c: Config, s: System, step: Step, d: Delivery)
    requires Watched(c, s, d) && Enabled(c, s, step)
    ensures Watched(c, After(c, s, step), d)
  {
    var t := After(c, s, step);
    StepGrows(c, s, step);
    StepKeepsAccounts(c, s, step);
    AssociatedGrows(s, t, d);
    forall q | q in t.processes ensures Passed(t, t.processes[q], d) {
      if !step.QueuePool? && q == step.pid {
        MoverPasses(c, s, step, q, d);
      } else {
        OtherProcessesStay(c, s, step, q);
        PassedStays(s, t, s.processes[q], d);
      }
    }
  }

  lemma {:induction false} RunKeepsWatched(c: Config, s: System, steps: seq<Step>, d: Delivery)
    requires Watched(c, s, d) && Runs(c, s, steps)
    ensures Watched(c, Last(c, s, steps), d)
    decreases steps
  {
    if steps == [] {
    } else {
      StepKeepsWatched(c, s, steps[0], d);
      RunKeepsWatched(c, After(c, s, steps[0]), steps[1..], d);
    }
  }

  /** The listener has a block with the deposit in its hands. */
  predicate Holds(s: System, pid: nat, d: Delivery) {
    ListenerAt(s, pid) && !s.processes[pid].place.Waiting? && s.processes[pid].chain == d.chain
    && d.deposit in s.processes[pid].place.block.deposits
  }

  /** If the address of a deposit is associated, and no listener has a block with the deposit in its hands, then from
      there on no listener finishes a block with the deposit without the deposit being credited, although earlier
      handlers may have passed it over. */
  lemma DeliveredAgain(c: Config, steps: seq<Step>, later: seq<Step>, pid: nat, d: Delivery)
    requires Runs(c, START, steps) && Runs(c, Last(c, START, steps), later)
    requires IsAssociated(Last(c, START, steps).db, d) && d.deposit.value >= c.Minimum(d.chain)
    requires forall q :: !Holds(Last(c, START, steps), q, d)
    requires var t := Last(c, Last(c, START, steps), later); Enabled(c, t, FinishBlock(pid)) && Holds(t, pid, d)
    ensures Runs(c, START, steps + later) && Credited(c, steps + later, KeyOf(d.chain, d.deposit))
  {
    var s := Last(c, START, steps);
    RunConcat(c, START, steps, later);
    RunKeepsAccounts(c, START, steps);
    forall q | q in s.processes ensures Passed(s, s.processes[q], d) {
      assert !Holds(s, q, d);
    }
    RunKeepsWatched(c, s, later, d);
    var t := Last(c, s, later);
    assert Passed(t, t.processes[pid], d);
    RecordedIsCredited(c, steps + later, KeyOf(d.chain, d.deposit));
  }
}
