/** What a handler, a listener or a request does to the tables by itself is what steps of the protocol do, so that
    everything proved of all runs holds for the server. */
module BifrostRefinement {
  import opened BifrostHandling
  import opened BifrostProtocol
  import opened BifrostTables

  /** The listener's process, in a system whose other parts are of no interest here. */
  predicate Stands(s: System, pid: nat, chain: Chain, cursor: nat, place: Place) {
    ListenerAt(s, pid) && s.processes[pid] == Listener(chain, cursor, place)
  }

  function PlaceAfter(block: Block, next: nat, ok: bool): Place {
    if ok then Handling(block, next + 1) else Waiting
  }

  lemma RunTwo(c: Config, s: System, a: Step, b: Step)
    requires Enabled(c, s, a) && Enabled(c, After(c, s, a), b)
    ensures Runs(c, s, [a, b]) && Last(c, s, [a, b]) == After(c, After(c, s, a), b)
  {
    var s1 := After(c, s, a);
    RunOne(c, s1, b, []);
    RunOne(c, s, a, [b] + []);
    assert [a] + ([b] + []) == [a, b];
  }

  lemma RunThree(c: Config, s: System, a: Step, b: Step, d: Step)
    requires Enabled(c, s, a) && Enabled(c, After(c, s, a), b) && Enabled(c, After(c, After(c, s, a), b), d)
    ensures Runs(c, s, [a, b, d]) && Last(c, s, [a, b, d]) == After(c, After(c, After(c, s, a), b), d)
  {
    RunTwo(c, After(c, s, a), b, d);
    RunOne(c, s, a, [b, d]);
    assert [a] + [b, d] == [a, b, d];
  }

  lemma RunSingle(c: Config, s: System, a: Step)
    requires Enabled(c, s, a)
    ensures Runs(c, s, [a]) && Last(c, s, [a]) == After(c, s, a)
  {
    RunOne(c, s, a, []);
    assert [a] + [] == [a];
  }

  // ----- whose outcomes -----

  /** A handler skips the deposit, or it makes its three calls up to some point, each with the outcome it is told. */
  predicate HandlerSteps(pid: nat, f: Faults, steps: seq<Step>) {
    || steps == [SkipSmall(pid)]
    || (steps != [] && steps <= [LookUp(pid, f.lookup), Add(pid, f.add), QueueAdd(pid, f.enqueue)])
  }

  /** One handler after the other, for the first n deposits of a block. */
  ghost predicate BlockSteps(pid: nat, fs: seq<Faults>, n: nat, steps: seq<Step>)
    requires n <= |fs|
  {
    if n == 0 then steps == []
    else exists a, b :: steps == a + b && BlockSteps(pid, fs, n - 1, a) && HandlerSteps(pid, fs[n - 1], b)
  }

  /** Without a block nothing happens. Otherwise the listener takes the block and calls the handler for some of its
      deposits, and at the end finishes and saves, with the outcome it is told, or does not. */
  ghost predicate TurnSteps(pid: nat, chain: Chain, cursor: nat, turn: Turn, steps: seq<Step>) {
    || (steps == [] && (turn.fetched.Some? ==> chain.Ethereum? && turn.fetched.value.number == 0))
    || (turn.fetched.Some?
        && exists n: nat, a ::
             && n <= |turn.faults| && n <= |turn.fetched.value.deposits| && BlockSteps(pid, turn.faults, n, a)
             && IsTurn(pid, Numbered(chain, cursor, turn.fetched.value), a, turn.save, steps))
  }

  predicate IsTurn(pid: nat, block: Block, handled: seq<Step>, save: Outcome, steps: seq<Step>) {
    || steps == [Fetch(pid, block)] + handled
    || steps == [Fetch(pid, block)] + handled + [FinishBlock(pid), Save(pid, save)]
  }

  /** One turn after the other. */
  ghost predicate ListenerSteps(s: Standing, minimum: int, chain: Chain, pid: nat, turns: seq<Turn>, steps: seq<Step>)
    requires forall i :: 0 <= i < |turns| ==> ValidTurn(turns[i])
    decreases |turns|
  {
    if turns == [] then steps == []
    else
      var n := |turns| - 1;
      exists a, b :: steps == a + b && ListenerSteps(s, minimum, chain, pid, turns[..n], a)
        && TurnSteps(pid, chain, TakeTurns(s, minimum, chain, turns[..n]).cursor, turns[n], b)
  }

  // ----- runs -----

  /** A handler's call is at most three steps of the listener that calls it, with the outcomes of its calls. */
  lemma HandlerRuns(c: Config, s: System, pid: nat, chain: Chain, cursor: nat, block: Block, next: nat, f: Faults)
    returns (steps: seq<Step>)
    requires Stands(s, pid, chain, cursor, Handling(block, next)) && next < |block.deposits|
    ensures var h := Handle(s.db, c.Minimum(chain), chain, block.deposits[next], f);
      && Runs(c, s, steps)
      && Last(c, s, steps).db == h.tables
      && Stands(Last(c, s, steps), pid, chain, cursor, PlaceAfter(block, next, h.ok))
    ensures HandlerSteps(pid, f, steps)
  {
    var d := block.deposits[next];
    var look, add, enqueue := LookUp(pid, f.lookup), Add(pid, f.add), QueueAdd(pid, f.enqueue);
    if d.value < c.Minimum(chain) {
      steps := [SkipSmall(pid)];
      RunSingle(c, s, SkipSmall(pid));
    } else if !f.lookup.Done? || FindIn(s.db.associations, chain, d.to).None? {
      steps := [look];
      RunSingle(c, s, look);
    } else if !f.add.Done? || IsProcessed(s.db, KeyOf(chain, d)) {
      steps := [look, add];
      RunTwo(c, s, look, add);
    } else {
      steps := [look, add, enqueue];
      RunThree(c, s, look, add, enqueue);
    }
  }

  lemma OneMoreHandler(pid: nat, fs: seq<Faults>, n: nat, a: seq<Step>, b: seq<Step>)
    requires 1 <= n <= |fs| && BlockSteps(pid, fs, n - 1, a) && HandlerSteps(pid, fs[n - 1], b)
    ensures BlockSteps(pid, fs, n, a + b)
  {
  }

  lemma {:induction false} DepositsRun(c: Config, s: System, pid: nat, chain: Chain, cursor: nat, block: Block,
        n: nat, fs: seq<Faults>)
    returns (steps: seq<Step>, k: nat)
    requires Stands(s, pid, chain, cursor, Handling(block, 0)) && n <= |block.deposits| <= |fs|
    ensures var h := HandleAll(s.db, c.Minimum(chain), chain, block.deposits[..n], fs);
      && Runs(c, s, steps)
      && Last(c, s, steps).db == h.tables
      && Stands(Last(c, s, steps), pid, chain, cursor, if h.ok then Handling(block, n) else Waiting)
      && (h.ok ==> k == n)
    ensures k <= n && BlockSteps(pid, fs, k, steps)
    decreases n
  {
    if n == 0 {
      steps, k := [], 0;
    } else {
      assert block.deposits[..n][..n - 1] == block.deposits[..n - 1];
      steps, k := DepositsRun(c, s, pid, chain, cursor, block, n - 1, fs);
      var h := HandleAll(s.db, c.Minimum(chain), chain, block.deposits[..n - 1], fs);
      if h.ok {
        var one := HandlerRuns(c, Last(c, s, steps), pid, chain, cursor, block, n - 1, fs[n - 1]);
        RunConcat(c, s, steps, one);
        OneMoreHandler(pid, fs, n, steps, one);
        steps, k := steps + one, n;
      }
    }
  }

  /** The client's answer to a listener that stands at a block; Bitcoin's blocks do not show their number. */
  predicate Honest(chain: Chain, cursor: nat, turn: Turn) {
    turn.fetched.Some? && chain.Ethereum? && cursor > 0 ==> turn.fetched.value.number in {0, cursor}
  }

  /** The block as the protocol sees it. */
  function Numbered(chain: Chain, cursor: nat, block: Block): Block {
    if chain.Bitcoin? then block.(number := cursor) else block
  }

  lemma SaveRuns(c: Config, s: System, pid: nat, chain: Chain, cursor: nat, block: Block, save: Outcome)
    returns (steps: seq<Step>)
    requires Stands(s, pid, chain, cursor, Handling(block, |block.deposits|))
    ensures steps == [FinishBlock(pid), Save(pid, save)]
    ensures Runs(c, s, steps) && Last(c, s, steps).db == SaveIf(s.db, chain, cursor, save)
    ensures Stands(Last(c, s, steps), pid, chain, block.number + 1, Waiting)
  {
    steps := [FinishBlock(pid), Save(pid, save)];
    RunTwo(c, s, FinishBlock(pid), Save(pid, save));
  }

  /** A turn of a listener's loop is a run of the protocol, with the outcomes of its calls. */
  lemma TurnRuns(c: Config, s: System, pid: nat, chain: Chain, cursor: nat, turn: Turn) returns (steps: seq<Step>)
    requires Stands(s, pid, chain, cursor, Waiting) && ValidTurn(turn) && Honest(chain, cursor, turn)
    ensures var standing := TakeTurn(Standing(s.db, cursor), c.Minimum(chain), chain, turn);
      && Runs(c, s, steps)
      && Last(c, s, steps).db == standing.tables
      && Stands(Last(c, s, steps), pid, chain, standing.cursor, Waiting)
    ensures TurnSteps(pid, chain, cursor, turn, steps)
  {
    if turn.fetched.None? || (chain.Ethereum? && turn.fetched.value.number == 0) {
      steps := [];
    } else {
      var block := Numbered(chain, cursor, turn.fetched.value);
      var fetch := Fetch(pid, block);
      RunSingle(c, s, fetch);
      var s1 := After(c, s, fetch);
      assert block.deposits[..|block.deposits|] == block.deposits;
      var handle, k := DepositsRun(c, s1, pid, chain, cursor, block, |block.deposits|, turn.faults);
      RunConcat(c, s, [fetch], handle);
      steps := [fetch] + handle;
      assert IsTurn(pid, block, handle, turn.save, steps);
      if HandleAll(s.db, c.Minimum(chain), chain, block.deposits, turn.faults).ok {
        var save := SaveRuns(c, Last(c, s, steps), pid, chain, cursor, block, turn.save);
        RunConcat(c, s, steps, save);
        steps := steps + save;
        assert IsTurn(pid, block, handle, turn.save, steps);
      }
    }
  }

  /** The client answers honestly in every turn. */
  predicate AllHonest(t: Standing, minimum: int, chain: Chain, turns: seq<Turn>)
    requires forall i :: 0 <= i < |turns| ==> ValidTurn(turns[i])
  {
    forall i :: 0 <= i < |turns| ==> Honest(chain, TakeTurns(t, minimum, chain, turns[..i]).cursor, turns[i])
  }

  /** So are all the turns of a listener's loop, one after the other, each with the outcomes of its own calls. */
  lemma {:induction false} ListenerRuns(c: Config, s: System, pid: nat, chain: Chain, cursor: nat, turns: seq<Turn>)
    returns (steps: seq<Step>)
    requires Stands(s, pid, chain, cursor, Waiting) && forall i :: 0 <= i < |turns| ==> ValidTurn(turns[i])
    requires AllHonest(Standing(s.db, cursor), c.Minimum(chain), chain, turns)
    ensures var standing := TakeTurns(Standing(s.db, cursor), c.Minimum(chain), chain, turns);
      && Runs(c, s, steps)
      && Last(c, s, steps).db == standing.tables
      && Stands(Last(c, s, steps), pid, chain, standing.cursor, Waiting)
    ensures ListenerSteps(Standing(s.db, cursor), c.Minimum(chain), chain, pid, turns, steps)
    decreases |turns|
  {
    if turns == [] {
      steps := [];
    } else {
      var n := |turns| - 1;
      forall i | 0 <= i < n
        ensures Honest(chain, TakeTurns(Standing(s.db, cursor), c.Minimum(chain), chain, turns[..n][..i]).cursor,
                       turns[..n][i])
      {
        assert turns[..n][..i] == turns[..i];
      }
      steps := ListenerRuns(c, s, pid, chain, cursor, turns[..n]);
      var t := Last(c, s, steps);
      var last := TurnRuns(c, t, pid, chain, t.processes[pid].cursor, turns[n]);
      RunConcat(c, s, steps, last);
      steps := steps + last;
    }
  }

  /** A listener starts after the saved block; if none is saved it starts at the block count of Bitcoin, and for
      Ethereum at zero, which is the current block. */
  lemma StartRuns(c: Config, s: System, pid: nat, chain: Chain, count: nat)
    requires pid !in s.processes
    ensures Enabled(c, s, StartListener(pid, chain, count))
    ensures var t, saved := After(c, s, StartListener(pid, chain, count)), s.db.blocks.Of(chain);
      && t.db == s.db
      && Stands(t, pid, chain, if saved > 0 then saved + 1 else if chain.Bitcoin? then count else 0, Waiting)
  {
  }

  /** A request for an address is at most three steps of a new process, with the outcomes of its calls; none if the key
      is not accepted. */
  lemma RequestRuns(c: Config, s: System, pid: nat, chain: Chain, publicKey: string, take: Outcome, create: Outcome)
    returns (steps: seq<Step>)
    requires pid !in s.processes
    ensures var g := Generate(s.db, chain, publicKey, c.accepts(publicKey), c.generate, take, create);
      Runs(c, s, steps) && Last(c, s, steps).db == g.tables && Last(c, s, steps).processes == s.processes
    ensures steps <= [StartRequest(pid, chain, publicKey), TakeIndex(pid, take), Bind(pid, create)]
    ensures steps == [] <==> !c.accepts(publicKey)
  {
    var start, index, bind := StartRequest(pid, chain, publicKey), TakeIndex(pid, take), Bind(pid, create);
    if !c.accepts(publicKey) {
      steps := [];
    } else if !take.Done? || s.db.indices.Of(chain) >= UINT32 {
      steps := [start, index];
      RunTwo(c, s, start, index);
      assert s.processes[pid := Request(chain, publicKey)] - {pid} == s.processes;
    } else {
      steps := [start, index, bind];
      RunThree(c, s, start, index, bind);
      var s2 := After(c, After(c, s, start), index);
      assert s2.processes - {pid} == s.processes;
    }
  }

  function PaymentsOf(rows: seq<QueueRow>): seq<Payment> {
    seq(|rows|, i requires 0 <= i < |rows| => Payment(rows[i].txId, rows[i].asset))
  }

  /** The calls of the loop that empties the queue. */
  function PoolSteps(outcomes: seq<Outcome>): seq<Step> {
    seq(|outcomes|, i requires 0 <= i < |outcomes| => QueuePool(outcomes[i]))
  }

  lemma OneMorePayment(rows: seq<QueueRow>, row: QueueRow)
    ensures PaymentsOf(rows + [row]) == PaymentsOf(rows) + [Payment(row.txId, row.asset)]
  {
  }

  /** Turns of the loop that empties the queue are steps of the protocol, one for each, with the outcomes of its calls;
      and what the loop starts is what they return. */
  lemma {:induction false} PoolRuns(c: Config, s: System, outcomes: seq<Outcome>)
    ensures Runs(c, s, PoolSteps(outcomes)) && Last(c, s, PoolSteps(outcomes)).db == PoolTurns(s.db, outcomes).tables
    ensures Last(c, s, PoolSteps(outcomes)).history.returned
      == s.history.returned + PaymentsOf(PoolTurns(s.db, outcomes).started)
    decreases outcomes
  {
    if outcomes == [] {
    } else {
      var n := |outcomes| - 1;
      PoolRuns(c, s, outcomes[..n]);
      var t, pool := Last(c, s, PoolSteps(outcomes[..n])), QueuePool(outcomes[n]);
      RunSingle(c, t, pool);
      RunConcat(c, s, PoolSteps(outcomes[..n]), [pool]);
      assert PoolSteps(outcomes) == PoolSteps(outcomes[..n]) + [pool];
      var before, head := PoolTurns(s.db, outcomes[..n]).started, HeadOf(t.db.queue);
      if outcomes[n].Done? && head.Some? {
        OneMorePayment(before, t.db.queue[head.value]);
      }
    }
  }
}
