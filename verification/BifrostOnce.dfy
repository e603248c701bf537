/** No transaction is paid out twice, and which transactions are paid out at all: over every run of the bridge. */
module BifrostOnce {
  import opened BifrostHandling
  import opened BifrostProtocol
  import opened BifrostTables

  predicate Queued(t: Tables, key: TxKey) {
    IsQueued(t, key.txId, CodeOf(key.chain))
  }

  predicate Pending(s: System, key: TxKey, pid: nat) {
    pid in s.processes && IsPending(s.processes[pid]) && Current(s.processes[pid]) == key
  }

  predicate UniqueKeys(rows: seq<Processed>) {
    forall i, j :: 0 <= i < j < |rows| ==> rows[i].key != rows[j].key
  }

  /** A recorded transaction is in the queue, or on its way there, or lost, and only one of them. */
  ghost predicate Accounts(s: System) {
    && UniqueKeys(s.db.processed)
    && (forall key :: Queued(s.db, key) ==> IsProcessed(s.db, key))
    && (forall key :: key in s.history.lost ==> IsProcessed(s.db, key) && !Queued(s.db, key))
    && (forall key, pid :: Pending(s, key, pid) ==>
          IsProcessed(s.db, key) && !Queued(s.db, key) && key !in s.history.lost)
    && (forall key, p, q :: Pending(s, key, p) && Pending(s, key, q) ==> p == q)
    && (forall key :: IsProcessed(s.db, key) ==>
          Queued(s.db, key) || key in s.history.lost || exists pid :: Pending(s, key, pid))
    && (forall d :: d in s.history.served ==> IsProcessed(s.db, KeyOf(d.chain, d.deposit)))
  }

  // ----- what the tables say after a change -----

  lemma AddedKeys(t: Tables, key: TxKey, receiving: string, k: TxKey)
    ensures IsProcessed(AddProcessed(t, key, receiving), k) <==> IsProcessed(t, k) || k == key
  {
    var after := AddProcessed(t, key, receiving);
    if IsProcessed(t, k) {
      var i :| 0 <= i < |t.processed| && t.processed[i].key == k;
      assert after.processed[i].key == k;
    }
    if !IsProcessed(t, key) {
      assert after.processed[|t.processed|].key == key;
    }
  }

  lemma QueuedKeys(t: Tables, row: QueueRow, key: TxKey, k: TxKey)
    requires key.txId == row.txId && CodeOf(key.chain) == row.asset
    ensures Queued(Enqueue(t, row), k) <==> Queued(t, k) || k == key
  {
    var after := Enqueue(t, row);
    if Queued(t, k) {
      var i :| 0 <= i < |t.queue| && t.queue[i].txId == k.txId && t.queue[i].asset == CodeOf(k.chain);
      assert after.queue[i].txId == k.txId && after.queue[i].asset == CodeOf(k.chain);
    }
    if !Queued(t, key) {
      assert after.queue[|t.queue|] == row;
    }
  }

  lemma PooledKeys(t: Tables, k: TxKey)
    ensures Queued(Pool(t), k) <==> Queued(t, k)
  {
    var after := Pool(t);
    assert |after.queue| == |t.queue|;
    forall i | 0 <= i < |t.queue|
      ensures after.queue[i].txId == t.queue[i].txId && after.queue[i].asset == t.queue[i].asset
    {
    }
  }

  // ----- steps that touch neither the records nor the queue -----

  /** Nothing that the accounts are about is different. */
  ghost predicate SameAccounts(s: System, t: System) {
    && t.db.processed == s.db.processed
    && (forall key :: Queued(t.db, key) <==> Queued(s.db, key))
    && t.history.lost == s.history.lost && t.history.served == s.history.served
    && (forall key, pid :: Pending(t, key, pid) <==> Pending(s, key, pid))
  }

  lemma SameAccountsStay(s: System, t: System)
    requires Accounts(s) && SameAccounts(s, t)
    ensures Accounts(t)
  {
    assert forall key :: IsProcessed(t.db, key) <==> IsProcessed(s.db, key);
  }

  // ----- steps that do -----

  lemma AddKeepsAccounts(s: System, pid: nat, outcome: Outcome)
    requires Accounts(s) && BusyAt(s, pid) && s.processes[pid].place.Adding?
    ensures Accounts(AfterAdd(s, pid, outcome))
  {
    var p := s.processes[pid];
    var key := Current(p);
    var t := AfterAdd(s, pid, outcome);
    forall k ensures IsProcessed(t.db, k) <==> IsProcessed(s.db, k) || (k == key && !outcome.FailedBefore?) {
      AddedKeys(s.db, key, p.place.Deposit().to, k);
    }
    var enters := outcome.Done? && !IsProcessed(s.db, key);
    forall k, q ensures Pending(t, k, q) <==> Pending(s, k, q) || (enters && k == key && q == pid) {
    }
    forall k | IsProcessed(t.db, k)
      ensures Queued(t.db, k) || k in t.history.lost || exists q :: Pending(t, k, q)
    {
      if k == key && enters {
        assert Pending(t, k, pid);
      } else if q :| Pending(s, k, q) {
        assert Pending(t, k, q);
      }
    }
  }

  lemma QueueAddKeepsAccounts(s: System, pid: nat, outcome: Outcome)
    requires Accounts(s) && BusyAt(s, pid) && s.processes[pid].place.Queueing?
    ensures Accounts(AfterQueueAdd(s, pid, outcome))
  {
    var p := s.processes[pid];
    var key := Current(p);
    var t := AfterQueueAdd(s, pid, outcome);
    assert Pending(s, key, pid);
    forall k ensures Queued(t.db, k) <==> Queued(s.db, k) || (k == key && !outcome.FailedBefore?) {
      QueuedKeys(s.db, RowFor(p.chain, p.place.Deposit(), p.place.to.publicKey), key, k);
    }
    forall k ensures IsProcessed(t.db, k) <==> IsProcessed(s.db, k) {
    }
    forall k, q ensures Pending(t, k, q) <==> Pending(s, k, q) && q != pid {
    }
  }

  lemma CrashKeepsAccounts(c: Config, s: System, pid: nat)
    requires Accounts(s) && pid in s.processes
    ensures Accounts(After(c, s, Crash(pid)))
  {
    var p := s.processes[pid];
    var t := After(c, s, Crash(pid));
    forall k, q ensures Pending(t, k, q) <==> Pending(s, k, q) && q != pid {
    }
    if IsPending(p) {
      assert Pending(s, Current(p), pid);
    }
    forall k | IsProcessed(t.db, k)
      ensures Queued(t.db, k) || k in t.history.lost || exists q :: Pending(t, k, q)
    {
      if q :| Pending(s, k, q) && q != pid {
        assert Pending(t, k, q);
      }
    }
  }

  lemma QuietSteps(c: Config, s: System, step: Step)
    requires Enabled(c, s, step) && !step.Add? && !step.QueueAdd? && !step.Crash? && !step.QueuePool?
    ensures SameAccounts(s, After(c, s, step))
  {
  }

  lemma PoolKeepsAccounts(s: System, outcome: Outcome)
    ensures SameAccounts(s, AfterPool(s, outcome))
  {
    var t := AfterPool(s, outcome);
    forall k ensures Queued(t.db, k) <==> Queued(s.db, k) {
      PooledKeys(s.db, k);
    }
  }

  lemma StepKeepsAccounts(c: Config, s: System, step: Step)
    requires Accounts(s) && Enabled(c, s, step)
    ensures Accounts(After(c, s, step))
  {
    match step
    case Add(pid, outcome) => AddKeepsAccounts(s, pid, outcome);
    case QueueAdd(pid, outcome) => QueueAddKeepsAccounts(s, pid, outcome);
    case Crash(pid) => CrashKeepsAccounts(c, s, pid);
    case QueuePool(outcome) =>
      PoolKeepsAccounts(s, outcome);
      SameAccountsStay(s, After(c, s, step));
    case _ =>
      QuietSteps(c, s, step);
      SameAccountsStay(s, After(c, s, step));
  }

  lemma {:induction false} RunKeepsAccounts(c: Config, s: System, steps: seq<Step>)
    requires Accounts(s) && Runs(c, s, steps)
    ensures Accounts(Last(c, s, steps))
    decreases steps
  {
    if steps == [] {
    } else {
      StepKeepsAccounts(c, s, steps[0]);
      RunKeepsAccounts(c, After(c, s, steps[0]), steps[1..]);
    }
  }

  /** In every run: the records are what is queued, what is on its way to the queue, and what is lost; these do not
      overlap; and whatever a handler served is recorded. */
  lemma Accounting(c: Config, steps: seq<Step>, key: TxKey)
    requires Runs(c, START, steps)
    ensures var s := Last(c, START, steps);
      && (IsProcessed(s.db, key) <==> Queued(s.db, key) || key in s.history.lost || exists pid :: Pending(s, key, pid))
      && !(Queued(s.db, key) && key in s.history.lost)
      && (forall pid :: Pending(s, key, pid) ==> !Queued(s.db, key) && key !in s.history.lost)
      && (forall p, q :: Pending(s, key, p) && Pending(s, key, q) ==> p == q)
      && (forall d :: d in s.history.served && KeyOf(d.chain, d.deposit) == key ==> IsProcessed(s.db, key))
  {
    RunKeepsAccounts(c, START, steps);
  }

  // ----- when a payment is lost -----

  /** A step that keeps a recorded transaction from the queue: the answer of AddProcessedTransaction is lost, or
      QueueAdd fails, or the server stops between the two. */
  predicate FaultBetween(s: System, step: Step) {
    match step
    case Add(pid, outcome) => outcome.FailedAfter? && BusyAt(s, pid) && s.processes[pid].place.Adding?
      && !IsProcessed(s.db, Current(s.processes[pid]))
    case QueueAdd(_, outcome) => outcome.FailedBefore?
    case Crash(pid) => pid in s.processes && IsPending(s.processes[pid])
    case _ => false
  }

  predicate NoFaultBetween(c: Config, s: System, steps: seq<Step>)
    requires Runs(c, s, steps)
    decreases steps
  {
    steps == [] || (!FaultBetween(s, steps[0]) && NoFaultBetween(c, After(c, s, steps[0]), steps[1..]))
  }

  lemma LostByStep(c: Config, s: System, step: Step)
    requires Accounts(s) && Enabled(c, s, step)
    ensures s.history.lost <= After(c, s, step).history.lost
    ensures s.history.lost == After(c, s, step).history.lost <==> !FaultBetween(s, step)
  {
    match step
    case QueueAdd(pid, outcome) =>
      assert Pending(s, Current(s.processes[pid]), pid);
    case Crash(pid) =>
      if IsPending(s.processes[pid]) {
        assert Pending(s, Current(s.processes[pid]), pid);
      }
    case _ =>
  }

  lemma {:induction false} LostByRun(c: Config, s: System, steps: seq<Step>)
    requires Accounts(s) && Runs(c, s, steps)
    ensures s.history.lost <= Last(c, s, steps).history.lost
    ensures s.history.lost == Last(c, s, steps).history.lost <==> NoFaultBetween(c, s, steps)
    decreases steps
  {
    if steps == [] {
    } else {
      LostByStep(c, s, steps[0]);
      StepKeepsAccounts(c, s, steps[0]);
      LostByRun(c, After(c, s, steps[0]), steps[1..]);
    }
  }

  /** Nothing is lost in a run exactly if no fault falls between the record and the queue; then every deposit that was
      served is in the queue, or will be as soon as the listener that is about to queue it takes its step. */
  lemma NothingLost(c: Config, steps: seq<Step>)
    requires Runs(c, START, steps)
    ensures var s := Last(c, START, steps);
      && (s.history.lost == {} <==> NoFaultBetween(c, START, steps))
      && (NoFaultBetween(c, START, steps) ==> forall d :: d in s.history.served ==>
            Queued(s.db, KeyOf(d.chain, d.deposit)) || exists pid :: Pending(s, KeyOf(d.chain, d.deposit), pid))
  {
    RunKeepsAccounts(c, START, steps);
    LostByRun(c, START, steps);
  }

  /** The step keeps this transaction from the queue. */
  predicate Hits(s: System, step: Step, key: TxKey) {
    match step
    case Add(pid, outcome) => outcome.FailedAfter? && BusyAt(s, pid) && s.processes[pid].place.Adding?
      && Current(s.processes[pid]) == key && !IsProcessed(s.db, key)
    case QueueAdd(pid, outcome) => outcome.FailedBefore? && Pending(s, key, pid)
    case Crash(pid) => Pending(s, key, pid)
    case _ => false
  }

  /** Some step of the run does. */
  predicate EverHit(c: Config, s: System, steps: seq<Step>, key: TxKey)
    requires Runs(c, s, steps)
    decreases steps
  {
    steps != [] && (Hits(s, steps[0], key) || EverHit(c, After(c, s, steps[0]), steps[1..], key))
  }

  lemma LostByHit(c: Config, s: System, step: Step, key: TxKey)
    requires Enabled(c, s, step)
    ensures key in After(c, s, step).history.lost <==> key in s.history.lost || Hits(s, step, key)
  {
  }

  lemma {:induction false} LostByHits(c: Config, s: System, steps: seq<Step>, key: TxKey)
    requires Runs(c, s, steps)
    ensures key in Last(c, s, steps).history.lost <==> key in s.history.lost || EverHit(c, s, steps, key)
    decreases steps
  {
    if steps == [] {
    } else {
      LostByHit(c, s, steps[0], key);
      LostByHits(c, After(c, s, steps[0]), steps[1..], key);
    }
  }

  /** A transaction is recorded and neither queued nor on its way exactly if a fault hit that transaction between its
      record and the queue, whatever happened to others. */
  lemma LostExactlyWhen(c: Config, steps: seq<Step>, key: TxKey)
    requires Runs(c, START, steps)
    ensures var s := Last(c, START, steps);
      IsProcessed(s.db, key) && !Queued(s.db, key) && (forall pid :: !Pending(s, key, pid))
      <==> EverHit(c, START, steps, key)
  {
    RunKeepsAccounts(c, START, steps);
    LostByHits(c, START, steps, key);
  }

  /** What is lost stays lost: no later run brings it into the queue, although its block may be delivered again. */
  lemma LostForGood(c: Config, steps: seq<Step>, later: seq<Step>, key: TxKey)
    requires Runs(c, START, steps) && Runs(c, Last(c, START, steps), later)
    requires key in Last(c, START, steps).history.lost
    ensures !Queued(Last(c, Last(c, START, steps), later).db, key)
  {
    RunKeepsAccounts(c, START, steps);
    RunKeepsAccounts(c, Last(c, START, steps), later);
    LostByRun(c, Last(c, START, steps), later);
  }

  // ----- at most once -----

  predicate IsPooled(queue: seq<QueueRow>, p: Payment) {
    exists i :: 0 <= i < |queue| && queue[i].txId == p.txId && queue[i].asset == p.asset && queue[i].pooled
  }

  /** What was returned stays marked in the queue, and was returned once. */
  ghost predicate Payouts(s: System) {
    && DistinctRows(s.db.queue)
    && (forall i, j :: 0 <= i < j < |s.history.returned| ==> s.history.returned[i] != s.history.returned[j])
    && (forall p :: p in s.history.returned ==> IsPooled(s.db.queue, p))
  }

  lemma PoolKeepsPayouts(s: System, outcome: Outcome)
    requires Payouts(s)
    ensures Payouts(AfterPool(s, outcome))
  {
    var t := AfterPool(s, outcome);
    var queue := s.db.queue;
    var head := HeadOf(queue);
    if !outcome.FailedBefore? && head.Some? {
      var row := queue[head.value];
      var after := MarkPooled(queue, row.txId, row.asset);
      forall p | IsPooled(queue, p) ensures IsPooled(after, p) {
        var i :| 0 <= i < |queue| && queue[i].txId == p.txId && queue[i].asset == p.asset && queue[i].pooled;
        assert after[i].pooled;
      }
      var paid := Payment(row.txId, row.asset);
      assert after[head.value].pooled && IsPooled(after, paid);
      assert !IsPooled(queue, paid);
    }
  }

  lemma EnqueueKeepsPayouts(t: Tables, row: QueueRow, p: Payment)
    requires DistinctRows(t.queue)
    ensures DistinctRows(Enqueue(t, row).queue)
    ensures IsPooled(t.queue, p) ==> IsPooled(Enqueue(t, row).queue, p)
  {
    if IsPooled(t.queue, p) {
      var i :| 0 <= i < |t.queue| && t.queue[i].txId == p.txId && t.queue[i].asset == p.asset && t.queue[i].pooled;
      assert Enqueue(t, row).queue[i] == t.queue[i];
    }
  }

  lemma StepKeepsPayouts(c: Config, s: System, step: Step)
    requires Payouts(s) && Enabled(c, s, step)
    ensures Payouts(After(c, s, step))
  {
    match step
    case QueuePool(outcome) => PoolKeepsPayouts(s, outcome);
    case QueueAdd(pid, outcome) =>
      var p := s.processes[pid];
      forall paid: Payment {
        EnqueueKeepsPayouts(s.db, RowFor(p.chain, p.place.Deposit(), p.place.to.publicKey), paid);
      }
    case _ => SameQueue(c, s, step);
  }

  lemma {:induction false} RunKeepsPayouts(c: Config, s: System, steps: seq<Step>)
    requires Payouts(s) && Runs(c, s, steps)
    ensures Payouts(Last(c, s, steps))
    decreases steps
  {
    if steps == [] {
    } else {
      StepKeepsPayouts(c, s, steps[0]);
      RunKeepsPayouts(c, After(c, s, steps[0]), steps[1..]);
    }
  }

  /** In every run QueuePool returns each payment at most once, so that it is paid out at most once. */
  lemma AtMostOnce(c: Config, steps: seq<Step>, i: nat, j: nat)
    requires Runs(c, START, steps)
    requires i < |Last(c, START, steps).history.returned| && j < |Last(c, START, steps).history.returned|
    requires Last(c, START, steps).history.returned[i] == Last(c, START, steps).history.returned[j]
    ensures i == j
  {
    RunKeepsPayouts(c, START, steps);
  }

  /** Row i of the queue is about this transaction. */
  predicate RowIs(t: Tables, key: TxKey, i: nat) {
    i < |t.queue| && t.queue[i].txId == key.txId && t.queue[i].asset == CodeOf(key.chain)
  }

  /** Exactly one row of the queue is about this transaction. */
  ghost predicate QueuedOnce(t: Tables, key: TxKey) {
    exists i :: RowIs(t, key, i) && forall j :: RowIs(t, key, j) ==> j == i
  }

  /** In every run a transaction has no row or one row in the queue. */
  lemma OneRow(c: Config, steps: seq<Step>, key: TxKey)
    requires Runs(c, START, steps)
    ensures Queued(Last(c, START, steps).db, key) <==> QueuedOnce(Last(c, START, steps).db, key)
  {
    RunKeepsPayouts(c, START, steps);
    var t := Last(c, START, steps).db;
    if Queued(t, key) {
      var i :| 0 <= i < |t.queue| && t.queue[i].txId == key.txId && t.queue[i].asset == CodeOf(key.chain);
      assert RowIs(t, key, i);
    }
  }

  // ----- payments that are taken from the queue in vain -----

  /** The step takes the payment from the queue, if it takes one at all. */
  predicate Takes(s: System, p: Payment) {
    var head := HeadOf(s.db.queue);
    head.Some? && s.db.queue[head.value].txId == p.txId && s.db.queue[head.value].asset == p.asset
  }

  /** QueuePool marks the payment, and its answer is lost. */
  predicate TakenInVain(s: System, step: Step, p: Payment) {
    step.QueuePool? && step.outcome.FailedAfter? && Takes(s, p)
  }

  predicate EverTakenInVain(c: Config, s: System, steps: seq<Step>, p: Payment)
    requires Runs(c, s, steps)
    decreases steps
  {
    steps != [] && (TakenInVain(s, steps[0], p) || EverTakenInVain(c, After(c, s, steps[0]), steps[1..], p))
  }

  /** A payment that is marked and was not returned will not be returned any more. */
  predicate IsGone(s: System, p: Payment) {
    IsPooled(s.db.queue, p) && p !in s.history.returned
  }

  lemma MarkedPayments(queue: seq<QueueRow>, txId: string, asset: AssetCode, p: Payment)
    requires exists i :: 0 <= i < |queue| && queue[i].txId == txId && queue[i].asset == asset
    ensures IsPooled(MarkPooled(queue, txId, asset), p) <==> IsPooled(queue, p) || p == Payment(txId, asset)
  {
    var after := MarkPooled(queue, txId, asset);
    var i :| 0 <= i < |queue| && queue[i].txId == txId && queue[i].asset == asset;
    assert after[i].pooled;
    if IsPooled(queue, p) {
      var j :| 0 <= j < |queue| && queue[j].txId == p.txId && queue[j].asset == p.asset && queue[j].pooled;
      assert after[j].pooled;
    }
  }

  lemma HeadNotPooled(s: System, p: Payment)
    requires Payouts(s) && Takes(s, p)
    ensures !IsPooled(s.db.queue, p) && p !in s.history.returned
  {
  }

  lemma PoolTakes(s: System, outcome: Outcome, p: Payment)
    requires Payouts(s)
    ensures IsGone(AfterPool(s, outcome), p) <==> IsGone(s, p) || (outcome.FailedAfter? && Takes(s, p))
  {
    var head := HeadOf(s.db.queue);
    if !outcome.FailedBefore? && head.Some? {
      var row := s.db.queue[head.value];
      MarkedPayments(s.db.queue, row.txId, row.asset, p);
      if Takes(s, p) {
        HeadNotPooled(s, p);
      }
    }
  }

  lemma EnqueueTakesNothing(t: Tables, row: QueueRow, p: Payment)
    requires !row.pooled
    ensures IsPooled(Enqueue(t, row).queue, p) <==> IsPooled(t.queue, p)
  {
    if IsPooled(t.queue, p) {
      var i :| 0 <= i < |t.queue| && t.queue[i].txId == p.txId && t.queue[i].asset == p.asset && t.queue[i].pooled;
      assert Enqueue(t, row).queue[i] == t.queue[i];
    }
  }

  lemma GoneByStep(c: Config, s: System, step: Step, p: Payment)
    requires Payouts(s) && Enabled(c, s, step)
    ensures IsGone(After(c, s, step), p) <==> IsGone(s, p) || TakenInVain(s, step, p)
  {
    match step
    case QueuePool(outcome) => PoolTakes(s, outcome, p);
    case QueueAdd(pid, outcome) =>
      var l := s.processes[pid];
      EnqueueTakesNothing(s.db, RowFor(l.chain, l.place.Deposit(), l.place.to.publicKey), p);
    case _ => SameQueue(c, s, step);
  }

  lemma {:induction false} GoneByRun(c: Config, s: System, steps: seq<Step>, p: Payment)
    requires Payouts(s) && Runs(c, s, steps)
    ensures IsGone(Last(c, s, steps), p) <==> IsGone(s, p) || EverTakenInVain(c, s, steps, p)
    decreases steps
  {
    if steps == [] {
    } else {
      GoneByStep(c, s, steps[0], p);
      StepKeepsPayouts(c, s, steps[0]);
      GoneByRun(c, After(c, s, steps[0]), steps[1..], p);
    }
  }

  /** A payment is marked as pooled and was not returned exactly if some call of QueuePool took it and lost its
      answer. */
  lemma TakenInVainExactlyWhen(c: Config, steps: seq<Step>, p: Payment)
    requires Runs(c, START, steps)
    ensures var s := Last(c, START, steps);
      IsPooled(s.db.queue, p) && p !in s.history.returned <==> EverTakenInVain(c, START, steps, p)
  {
    GoneByRun(c, START, steps, p);
  }

  function PaymentOf(key: TxKey): Payment {
    Payment(key.txId, CodeOf(key.chain))
  }

  /** What became of a recorded transaction, in every run: a fault hit it between the record and the queue; or it is on
      its way to the queue; or it waits there; or it was returned, for payment; or it was taken in vain. It is one of
      these and no other. */
  lemma Fates(c: Config, steps: seq<Step>, key: TxKey)
    requires Runs(c, START, steps)
    ensures var s, p := Last(c, START, steps), PaymentOf(key);
      var hit, pending := EverHit(c, START, steps, key), exists pid :: Pending(s, key, pid);
      var waits := Queued(s.db, key) && !IsPooled(s.db.queue, p);
      var returned, inVain := p in s.history.returned, EverTakenInVain(c, START, steps, p);
      && (IsProcessed(s.db, key) <==> hit || pending || waits || returned || inVain)
      && !(hit && pending) && !(hit && waits) && !(hit && returned) && !(hit && inVain)
      && !(pending && waits) && !(pending && returned) && !(pending && inVain)
      && !(waits && returned) && !(waits && inVain) && !(returned && inVain)
  {
    var s, p := Last(c, START, steps), PaymentOf(key);
    LostExactlyWhen(c, steps, key);
    Accounting(c, steps, key);
    TakenInVainExactlyWhen(c, steps, p);
    RunKeepsPayouts(c, START, steps);
    assert IsPooled(s.db.queue, p) ==> Queued(s.db, key);
  }
}
