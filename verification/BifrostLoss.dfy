/** Runs of the bridge that lose a deposit: on its way to the queue, and on its way from the queue. */
module BifrostLoss {
  import opened BifrostHandling
  import opened BifrostOnce
  import opened BifrostProtocol
  import opened BifrostRefinement
  import opened BifrostTables
  import opened Wrappers

  /** From a state in which the address of a deposit is associated and nothing is recorded: a listener gets a block with
      the deposit, finds the association, records the transaction and stops. */
  lemma StopsInBetween(c: Config, s: System, pid: nat, block: Block) returns (steps: seq<Step>)
    requires pid !in s.processes && s.db.blocks.bitcoin == 0 && |block.deposits| == 1
    requires var d := block.deposits[0];
      && d.value >= c.minimumSat && FindIn(s.db.associations, Bitcoin, d.to).Some?
      && !IsProcessed(s.db, KeyOf(Bitcoin, d))
    ensures Runs(c, s, steps)
    ensures var t := Last(c, s, steps);
      var d := block.deposits[0];
      && t.processes == s.processes
      && t.db == AddProcessed(s.db, KeyOf(Bitcoin, d), d.to)
      && KeyOf(Bitcoin, d) in t.history.lost
  {
    var start, fetch := StartListener(pid, Bitcoin, block.number), Fetch(pid, block);
    var look, add, crash := LookUp(pid, Done), Add(pid, Done), Crash(pid);
    RunTwo(c, s, start, fetch);
    var t := Last(c, s, [start, fetch]);
    assert Stands(t, pid, Bitcoin, block.number, Handling(block, 0));
    StopsAfterAdd(c, t, pid, block);
    RunConcat(c, s, [start, fetch], [look, add, crash]);
    steps := [start, fetch] + [look, add, crash];
    assert t.processes - {pid} == s.processes;
  }

  lemma StopsAfterAdd(c: Config, t: System, pid: nat, block: Block)
    requires Stands(t, pid, Bitcoin, block.number, Handling(block, 0)) && |block.deposits| == 1
    requires var d := block.deposits[0];
      && d.value >= c.minimumSat && FindIn(t.db.associations, Bitcoin, d.to).Some?
      && !IsProcessed(t.db, KeyOf(Bitcoin, d))
    ensures var steps := [LookUp(pid, Done), Add(pid, Done), Crash(pid)];
      var d := block.deposits[0];
      && Runs(c, t, steps)
      && Last(c, t, steps).processes == t.processes - {pid}
      && Last(c, t, steps).db == AddProcessed(t.db, KeyOf(Bitcoin, d), d.to)
      && KeyOf(Bitcoin, d) in Last(c, t, steps).history.lost
  {
    RunThree(c, t, LookUp(pid, Done), Add(pid, Done), Crash(pid));
  }

  /** From a state in which the transaction is recorded, a new listener gets the block, handles it without error, and
      goes on to the next one; the tables only learn the number of the block. */
  lemma DeliveredInVain(c: Config, s: System, pid: nat, block: Block) returns (steps: seq<Step>)
    requires pid !in s.processes && s.db.blocks.bitcoin == 0 && |block.deposits| == 1
    requires IsProcessed(s.db, KeyOf(Bitcoin, block.deposits[0]))
    ensures Runs(c, s, steps)
    ensures Last(c, s, steps).db == SaveBlock(s.db, Bitcoin, block.number)
    ensures Stands(Last(c, s, steps), pid, Bitcoin, block.number + 1, Waiting)
  {
    var start := StartListener(pid, Bitcoin, block.number);
    RunSingle(c, s, start);
    var t := After(c, s, start);
    var turn := Turn(Some(block), [WORKS], Done);
    assert block.deposits[..0] == [];
    SettledBlock(t.db, c.minimumSat, Bitcoin, block.deposits, [WORKS]);
    var rest := TurnRuns(c, t, pid, Bitcoin, block.number, turn);
    RunConcat(c, s, [start], rest);
    steps := [start] + rest;
  }

  /** A deposit that is large enough and paid to an associated address, in a block that a listener has handled without
      error and passed, and that is recorded but in no queue, now and in every later state: its first listener stopped
      between the record and the queue. */
  lemma DepositCanBeLost(c: Config, publicKey: string, d: Deposit, number: nat) returns (steps: seq<Step>)
    requires c.accepts(publicKey) && c.generate(Bitcoin, 1) == Some(d.to) && d.value >= c.minimumSat && number > 0
    ensures Runs(c, START, steps)
    ensures var s := Last(c, START, steps);
      && s.db.associations == [Association(Bitcoin, 1, d.to, publicKey)]
      && s.db.blocks.bitcoin == number
      && IsProcessed(s.db, KeyOf(Bitcoin, d))
      && forall later :: Runs(c, s, later) ==> !Queued(Last(c, s, later).db, KeyOf(Bitcoin, d))
  {
    var block, key := Block(number, [d]), KeyOf(Bitcoin, d);
    var request := RequestRuns(c, START, 0, Bitcoin, publicKey, Done, Done);
    var s1 := Last(c, START, request);
    assert s1.db == EMPTY.(associations := [Association(Bitcoin, 1, d.to, publicKey)], indices := Counters(1, 0));
    var stop := StopsInBetween(c, s1, 0, block);
    RunConcat(c, START, request, stop);
    var s2 := Last(c, START, request + stop);
    assert s2.db.processed == [Processed(key, d.to)];
    assert s2.db.processed[0].key == key;
    var again := DeliveredInVain(c, s2, 1, block);
    RunConcat(c, START, request + stop, again);
    steps := request + stop + again;
    var s := Last(c, START, steps);
    assert s.db.processed[0].key == key;
    forall later | Runs(c, s, later) ensures !Queued(Last(c, s, later).db, key) {
      RunKeepsAccounts(c, START, request + stop);
      LostByRun(c, s2, again);
      LostForGood(c, steps, later, key);
    }
  }

  /** A handler without faults queues the first deposit of an associated address. */
  lemma FirstDepositQueued(t: Tables, minimum: int, d: Deposit, a: Association)
    requires t.associations == [a] && a.chain == Bitcoin && a.address == d.to && d.value >= minimum
    requires t.processed == [] && t.queue == []
    ensures HandleAll(t, minimum, Bitcoin, [d], [WORKS]).ok
    ensures HandleAll(t, minimum, Bitcoin, [d], [WORKS]).tables.queue == [RowFor(Bitcoin, d, a.publicKey)]
  {
    assert [d][..0] == [];
    assert FindIn([a], Bitcoin, d.to) == Some(a);
    var key := KeyOf(Bitcoin, d);
    assert !IsProcessed(t, key);
    assert !IsQueued(AddProcessed(t, key, d.to), d.txId, BTC);
  }

  /** Where only one row waits in the queue, a call of QueuePool whose answer is lost takes its payment in vain. */
  lemma AnswerLost(c: Config, s: System, row: QueueRow, later: seq<Step>)
    requires Payouts(s) && s.db.queue == [row] && !row.pooled
    requires Runs(c, After(c, s, QueuePool(FailedAfter)), later)
    ensures IsGone(Last(c, After(c, s, QueuePool(FailedAfter)), later), Payment(row.txId, row.asset))
  {
    var step, p := QueuePool(FailedAfter), Payment(row.txId, row.asset);
    assert Takes(s, p);
    GoneByStep(c, s, step, p);
    StepKeepsPayouts(c, s, step);
    GoneByRun(c, After(c, s, step), later, p);
  }

  /** A deposit that is queued and then never returned for payment: the answer of the call that took it was lost. */
  lemma PaymentCanBeLost(c: Config, publicKey: string, d: Deposit, number: nat) returns (steps: seq<Step>)
    requires c.accepts(publicKey) && c.generate(Bitcoin, 1) == Some(d.to) && d.value >= c.minimumSat && number > 0
    ensures Runs(c, START, steps) && Queued(Last(c, START, steps).db, KeyOf(Bitcoin, d))
    ensures forall later :: Runs(c, Last(c, START, steps), later) ==>
      Payment(d.txId, BTC) !in Last(c, Last(c, START, steps), later).history.returned
  {
    var a, block := Association(Bitcoin, 1, d.to, publicKey), Block(number, [d]);
    var request := RequestRuns(c, START, 0, Bitcoin, publicKey, Done, Done);
    var s1 := Last(c, START, request);
    assert s1.db == EMPTY.(associations := [a], indices := Counters(1, 0));
    var start := StartListener(0, Bitcoin, number);
    RunSingle(c, s1, start);
    FirstDepositQueued(s1.db, c.minimumSat, d, a);
    var turn := TurnRuns(c, After(c, s1, start), 0, Bitcoin, number, Turn(Some(block), [WORKS], Done));
    RunConcat(c, s1, [start], turn);
    RunConcat(c, START, request, [start] + turn);
    var queued := request + ([start] + turn);
    var s2, pool := Last(c, START, queued), QueuePool(FailedAfter);
    RunKeepsPayouts(c, START, queued);
    RunSingle(c, s2, pool);
    RunConcat(c, START, queued, [pool]);
    steps := queued + [pool];
    forall later | Runs(c, Last(c, START, steps), later)
      ensures IsGone(Last(c, Last(c, START, steps), later), Payment(d.txId, BTC))
    {
      AnswerLost(c, s2, s2.db.queue[0], later);
    }
    AnswerLost(c, s2, s2.db.queue[0], []);
  }
}
