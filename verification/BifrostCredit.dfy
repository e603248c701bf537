/** Whom the bridge pays, and how much: over every run. */
module BifrostCredit {
  import Amount
  import Decimal
  import opened BifrostHandling
  import opened BifrostProtocol
  import opened BifrostTables
  import opened Wrappers

  /** An address belongs to one key and a key to one address. */
  predicate OneToOne(rows: seq<Association>) {
    forall i, j :: 0 <= i < j < |rows| ==> rows[i].address != rows[j].address && rows[i].publicKey != rows[j].publicKey
  }

  function ChainOf(asset: AssetCode): Chain {
    match asset
    case BTC => Bitcoin
    case ETH => Ethereum
  }

  /** The deposit was delivered, is large enough, and was paid to the address of the association. */
  ghost predicate Entitles(c: Config, s: System, chain: Chain, d: Deposit, a: Association) {
    && Delivery(chain, d) in s.history.delivered
    && d.value >= c.Minimum(chain)
    && a in s.db.associations && a.chain == chain && a.address == d.to
  }

  /** The row pays out a deposit that entitles the owner of its key, and the deposit's address is the one recorded for
      the transaction. */
  ghost predicate Justified(c: Config, s: System, row: QueueRow, d: Deposit, a: Association) {
    var chain := ChainOf(row.asset);
    && Entitles(c, s, chain, d, a)
    && row.(pooled := false) == RowFor(chain, d, a.publicKey)
    && Processed(KeyOf(chain, d), d.to) in s.db.processed
  }

  /** What a listener carries along is true. */
  ghost predicate Grounded(c: Config, s: System, p: Process) {
    p.Listener? && !p.place.Waiting? ==>
      && Deliveries(p.chain, p.place.block.deposits) <= s.history.delivered
      && ((p.place.Adding? || p.place.Queueing?) && p.place.Busy() ==>
            Entitles(c, s, p.chain, p.place.Deposit(), p.place.to))
      && (IsPending(p) ==> Processed(Current(p), p.place.Deposit().to) in s.db.processed)
  }

  ghost predicate Sound(c: Config, s: System) {
    && OneToOne(s.db.associations)
    && (forall pid :: pid in s.processes ==> Grounded(c, s, s.processes[pid]))
    && (forall row :: row in s.db.queue ==> exists d, a :: Justified(c, s, row, d, a))
  }

  /** Everything that claims are made about only grows. */
  ghost predicate Grows(s: System, t: System) {
    && s.db.associations <= t.db.associations
    && s.db.processed <= t.db.processed
    && s.history.delivered <= t.history.delivered
  }

  lemma GrowsKeeps(c: Config, s: System, t: System, p: Process)
    requires Grows(s, t) && Grounded(c, s, p)
    ensures Grounded(c, t, p)
  {
  }

  lemma GrowsKeepsRows(c: Config, s: System, t: System)
    requires Sound(c, s) && Grows(s, t)
    ensures forall row :: row in s.db.queue ==> exists d, a :: Justified(c, t, row, d, a)
  {
    forall row | row in s.db.queue
      ensures exists d, a :: Justified(c, t, row, d, a)
    {
      var d, a :| Justified(c, s, row, d, a);
      assert Justified(c, t, row, d, a);
    }
  }

  lemma StepGrows(c: Config, s: System, step: Step)
    requires Enabled(c, s, step)
    ensures Grows(s, After(c, s, step))
  {
  }

  // ----- one process at a time -----

  /** Only one process changes, and it is grounded after the step. */
  ghost predicate OthersStay(c: Config, s: System, t: System, pid: nat) {
    && (forall q :: q in t.processes && q != pid ==> q in s.processes && t.processes[q] == s.processes[q])
    && (pid in t.processes ==> Grounded(c, t, t.processes[pid]))
  }

  lemma ProcessesStayGrounded(c: Config, s: System, t: System, pid: nat)
    requires Sound(c, s) && Grows(s, t) && OthersStay(c, s, t, pid)
    ensures forall q :: q in t.processes ==> Grounded(c, t, t.processes[q])
  {
    forall q | q in t.processes ensures Grounded(c, t, t.processes[q]) {
      if q != pid {
        GrowsKeeps(c, s, t, s.processes[q]);
      }
    }
  }

  lemma BusyGrounded(c: Config, s: System, pid: nat)
    requires Sound(c, s) && BusyAt(s, pid)
    ensures Delivery(s.processes[pid].chain, s.processes[pid].place.Deposit()) in s.history.delivered
  {
    var p := s.processes[pid];
    assert Grounded(c, s, p);
    assert Delivery(p.chain, p.place.Deposit()) in Deliveries(p.chain, p.place.block.deposits);
  }

  lemma LookUpGrounds(c: Config, s: System, pid: nat, outcome: Outcome)
    requires Sound(c, s) && Enabled(c, s, LookUp(pid, outcome))
    ensures OthersStay(c, s, AfterLookUp(s, pid, outcome), pid)
  {
    BusyGrounded(c, s, pid);
    assert Grounded(c, s, s.processes[pid]);
  }

  lemma AddGrounds(c: Config, s: System, pid: nat, outcome: Outcome)
    requires Sound(c, s) && Enabled(c, s, Add(pid, outcome))
    ensures OthersStay(c, s, AfterAdd(s, pid, outcome), pid)
  {
    var p := s.processes[pid];
    var t := AfterAdd(s, pid, outcome);
    assert Grounded(c, s, p);
    if outcome.Done? && !IsProcessed(s.db, Current(p)) {
      assert t.db.processed[|s.db.processed|] == Processed(Current(p), p.place.Deposit().to);
    }
  }

  lemma QueueAddGrounds(c: Config, s: System, pid: nat, outcome: Outcome)
    requires Sound(c, s) && Enabled(c, s, QueueAdd(pid, outcome))
    ensures OthersStay(c, s, AfterQueueAdd(s, pid, outcome), pid)
  {
    assert Grounded(c, s, s.processes[pid]);
  }

  /** The process a step belongs to, if it belongs to one. */
  function PidOf(step: Step): nat {
    if step.QueuePool? then 0 else step.pid
  }

  lemma StepGrounds(c: Config, s: System, step: Step)
    requires Sound(c, s) && Enabled(c, s, step)
    ensures OthersStay(c, s, After(c, s, step), PidOf(step))
  {
    match step
    case LookUp(pid, outcome) => LookUpGrounds(c, s, pid, outcome);
    case Add(pid, outcome) => AddGrounds(c, s, pid, outcome);
    case QueueAdd(pid, outcome) => QueueAddGrounds(c, s, pid, outcome);
    case QueuePool(outcome) =>
      if 0 in s.processes {
        assert Grounded(c, s, s.processes[0]);
        GrowsKeeps(c, s, After(c, s, step), s.processes[0]);
      }
    case _ => OtherGrounds(c, s, step);
  }

  lemma OtherGrounds(c: Config, s: System, step: Step)
    requires Sound(c, s) && Enabled(c, s, step)
    requires !step.LookUp? && !step.Add? && !step.QueueAdd? && !step.QueuePool?
    ensures OthersStay(c, s, After(c, s, step), step.pid)
  {
    if step.pid in s.processes {
      assert Grounded(c, s, s.processes[step.pid]);
    }
  }

  // ----- the tables -----

  lemma QueueAddJustifies(c: Config, s: System, pid: nat, outcome: Outcome)
    requires Sound(c, s) && Enabled(c, s, QueueAdd(pid, outcome))
    ensures var t := AfterQueueAdd(s, pid, outcome);
      forall row :: row in t.db.queue ==> exists d, a :: Justified(c, t, row, d, a)
  {
    var p := s.processes[pid];
    var t := AfterQueueAdd(s, pid, outcome);
    var d, a := p.place.Deposit(), p.place.to;
    assert Grounded(c, s, p);
    StepGrows(c, s, QueueAdd(pid, outcome));
    GrowsKeepsRows(c, s, t);
    assert Justified(c, t, RowFor(p.chain, d, a.publicKey), d, a);
  }

  lemma PoolJustifies(c: Config, s: System, outcome: Outcome)
    requires Sound(c, s)
    ensures var t := AfterPool(s, outcome);
      forall row :: row in t.db.queue ==> exists d, a :: Justified(c, t, row, d, a)
  {
    var t := AfterPool(s, outcome);
    forall row | row in t.db.queue
      ensures exists d, a :: Justified(c, t, row, d, a)
    {
      var i :| 0 <= i < |t.db.queue| && t.db.queue[i] == row;
      var was := s.db.queue[i];
      assert was in s.db.queue && row.(pooled := false) == was.(pooled := false);
      var d, a :| Justified(c, s, was, d, a);
      assert Justified(c, t, row, d, a);
    }
  }

  lemma StepJustifies(c: Config, s: System, step: Step)
    requires Sound(c, s) && Enabled(c, s, step)
    ensures var t := After(c, s, step); forall row :: row in t.db.queue ==> exists d, a :: Justified(c, t, row, d, a)
  {
    match step
    case QueueAdd(pid, outcome) => QueueAddJustifies(c, s, pid, outcome);
    case QueuePool(outcome) => PoolJustifies(c, s, outcome);
    case _ =>
      SameQueue(c, s, step);
      StepGrows(c, s, step);
      GrowsKeepsRows(c, s, After(c, s, step));
  }

  lemma StepOneToOne(c: Config, s: System, step: Step)
    requires OneToOne(s.db.associations) && Enabled(c, s, step)
    ensures OneToOne(After(c, s, step).db.associations)
  {
  }

  lemma StepKeepsSound(c: Config, s: System, step: Step)
    requires Sound(c, s) && Enabled(c, s, step)
    ensures Sound(c, After(c, s, step))
  {
    StepOneToOne(c, s, step);
    StepJustifies(c, s, step);
    StepGrows(c, s, step);
    StepGrounds(c, s, step);
    ProcessesStayGrounded(c, s, After(c, s, step), PidOf(step));
  }

  lemma {:induction false} RunKeepsSound(c: Config, s: System, steps: seq<Step>)
    requires Sound(c, s) && Runs(c, s, steps)
    ensures Sound(c, Last(c, s, steps)) && Grows(s, Last(c, s, steps))
    decreases steps
  {
    if steps == [] {
    } else {
      StepKeepsSound(c, s, steps[0]);
      StepGrows(c, s, steps[0]);
      RunKeepsSound(c, After(c, s, steps[0]), steps[1..]);
    }
  }

  /** In every run: each row of the queue pays a delivered deposit of at least the minimum, in the asset of its chain,
      with the value that was deposited, to the one key that belongs to the address that the deposit was paid to. */
  lemma CreditSound(c: Config, steps: seq<Step>, row: QueueRow) returns (d: Deposit, a: Association)
    requires Runs(c, START, steps) && row in Last(c, START, steps).db.queue
    ensures var s := Last(c, START, steps);
      && Delivery(ChainOf(row.asset), d) in s.history.delivered && d.value >= c.Minimum(ChainOf(row.asset))
      && row.txId == d.txId && row.amount == ValueToStellar(ChainOf(row.asset), d.value)
      && a in s.db.associations && a.chain == ChainOf(row.asset) && a.address == d.to && row.publicKey == a.publicKey
      && (forall b :: b in s.db.associations && (b.address == d.to || b.publicKey == row.publicKey) ==> b == a)
      && Processed(TxKey(ChainOf(row.asset), row.txId), d.to) in s.db.processed
  {
    var s := Last(c, START, steps);
    RunKeepsSound(c, START, steps);
    d, a :| Justified(c, s, row, d, a);
  }

  /** An association that was made once is there in every later state, the same address for the same key. */
  lemma AssociationsStay(c: Config, steps: seq<Step>, later: seq<Step>, i: nat)
    requires Runs(c, START, steps) && Runs(c, Last(c, START, steps), later)
    requires i < |Last(c, START, steps).db.associations|
    ensures var t := Last(c, Last(c, START, steps), later);
      && i < |t.db.associations| && t.db.associations[i] == Last(c, START, steps).db.associations[i]
      && OneToOne(t.db.associations)
  {
    RunKeepsSound(c, START, steps);
    RunKeepsSound(c, Last(c, START, steps), later);
  }

  /** The text of a Bitcoin row parses to a tenth of the deposit's satoshi, rounded half away from zero. */
  lemma BitcoinRowIsWorth(c: Config, steps: seq<Step>, row: QueueRow) returns (d: Deposit, units: int)
    requires Runs(c, START, steps) && row in Last(c, START, steps).db.queue && row.asset == BTC
    ensures Delivery(Bitcoin, d) in Last(c, START, steps).history.delivered && row.txId == d.txId
    ensures Decimal.IsInt64(d.value) ==> Amount.ParseInt64(row.amount) == Ok(units) && -5 <= 10 * units - d.value <= 5
  {
    var a;
    d, a := CreditSound(c, steps, row);
    units := Amount.BtcCredit(d.value);
    if Decimal.IsInt64(d.value) {
      Amount.BtcCreditParsed(d.value);
    }
  }

  /** The text of an Ethereum row parses to the deposit's wei over 10^11, rounded half away from zero, if that is an
      int64. */
  lemma EthereumRowIsWorth(c: Config, steps: seq<Step>, row: QueueRow) returns (d: Deposit, units: int)
    requires Runs(c, START, steps) && row in Last(c, START, steps).db.queue && row.asset == ETH
    ensures Delivery(Ethereum, d) in Last(c, START, steps).history.delivered && row.txId == d.txId
    ensures -50000000000 <= 100000000000 * units - d.value <= 50000000000
    ensures Decimal.IsInt64(units) ==> Amount.ParseInt64(row.amount) == Ok(units)
  {
    var a;
    d, a := CreditSound(c, steps, row);
    units := Amount.EthCredit(d.value);
    Amount.EthCreditParsed(d.value);
  }
}
