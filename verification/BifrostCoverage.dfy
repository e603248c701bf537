/** Which blocks the bridge has seen when its counter has passed them: over every run. */
module BifrostCoverage {
  import opened BifrostHandling
  import opened BifrostProtocol
  import opened BifrostTables

  predicate IsHandled(s: System, chain: Chain, number: nat) {
    BlockOf(chain, number) in s.history.handled
  }

  /** All blocks after the first one, up to but not with the last one, were handled. */
  ghost predicate HandledBetween(s: System, chain: Chain, first: nat, last: nat) {
    forall n :: first < n < last ==> IsHandled(s, chain, n)
  }

  /** A listener that asks for a block by its number works on that block. What is about to be saved was handled. */
  predicate InOrder(s: System, p: Process) {
    p.Listener? && !p.place.Waiting? ==>
      && Answers(p.chain, p.cursor, p.place.block)
      && (p.place.Adding? || p.place.Queueing? ==> p.place.Busy())
      && (p.place.Saving? ==> IsHandled(s, p.chain, p.place.block.number))
  }

  ghost predicate Orderly(s: System) {
    && (forall pid :: pid in s.processes ==> InOrder(s, s.processes[pid]))
    && (forall chain: Chain :: s.db.blocks.Of(chain) > 0 ==> IsHandled(s, chain, s.db.blocks.Of(chain)))
  }

  /** The listener cannot fail in its block any more: all deposits that are left are too small to be looked up. */
  predicate MustFinish(c: Config, p: Process)
    requires p.Listener?
  {
    && p.place.Handling?
    && forall i :: p.place.next <= i < |p.place.block.deposits| ==>
         p.place.block.deposits[i].value < c.Minimum(p.chain)
  }

  /** The listener leaves out no block after the first one: everything before the block it will go on with was handled.
      A listener that has asked for the current block of Ethereum does not know what to go on with until it is sure to
      finish the block it got. */
  ghost predicate LeavesNothingOut(c: Config, s: System, chain: Chain, first: nat, p: Process) {
    p.Listener? && p.chain == chain ==>
      if p.place.Saving? then HandledBetween(s, chain, first, p.place.block.number + 1)
      else if chain.Bitcoin? || p.cursor > 0 then HandledBetween(s, chain, first, p.cursor)
      else MustFinish(c, p) && HandledBetween(s, chain, first, p.place.block.number)
  }

  ghost predicate Covered(c: Config, s: System, chain: Chain, first: nat) {
    && 0 < first <= s.db.blocks.Of(chain)
    && HandledBetween(s, chain, first, s.db.blocks.Of(chain) + 1)
    && (forall pid :: pid in s.processes ==> LeavesNothingOut(c, s, chain, first, s.processes[pid]))
  }

  // ----- steps -----

  lemma CountersOnlySaved(c: Config, s: System, step: Step)
    requires Enabled(c, s, step)
    ensures s.history.handled <= After(c, s, step).history.handled
    ensures !step.Save? ==> After(c, s, step).db.blocks == s.db.blocks
  {
  }

  /** The process that a step belongs to is as it should be, and the others are as they were. */
  lemma StepInOrder(c: Config, s: System, step: Step)
    requires Enabled(c, s, step) && Orderly(s)
    ensures forall pid :: pid in After(c, s, step).processes ==>
      InOrder(After(c, s, step), After(c, s, step).processes[pid])
  {
  }

  lemma StepKeepsOrder(c: Config, s: System, step: Step)
    requires Orderly(s) && Enabled(c, s, step)
    ensures Orderly(After(c, s, step))
  {
    CountersOnlySaved(c, s, step);
    StepInOrder(c, s, step);
    if step.Save? {
      assert InOrder(s, s.processes[step.pid]);
    }
  }

  lemma BetweenGrows(s: System, t: System, chain: Chain, first: nat, last: nat)
    requires HandledBetween(s, chain, first, last) && s.history.handled <= t.history.handled
    ensures HandledBetween(t, chain, first, last)
  {
    forall n | first < n < last ensures IsHandled(t, chain, n) {
      assert IsHandled(s, chain, n);
    }
  }

  /** What is handled up to a block, and that block, is handled up to the next one. */
  lemma BetweenExtends(s: System, chain: Chain, first: nat, last: nat)
    requires HandledBetween(s, chain, first, last) && IsHandled(s, chain, last)
    ensures HandledBetween(s, chain, first, last + 1)
  {
  }

  lemma OthersLeaveNothingOut(c: Config, s: System, t: System, chain: Chain, first: nat, p: Process)
    requires LeavesNothingOut(c, s, chain, first, p) && s.history.handled <= t.history.handled
    ensures LeavesNothingOut(c, t, chain, first, p)
  {
    if p.Listener? && p.chain == chain {
      BetweenGrows(s, t, chain, first, if p.place.Saving? then p.place.block.number + 1
        else if chain.Bitcoin? || p.cursor > 0 then p.cursor else p.place.block.number);
    }
  }

  lemma SaveKeepsCovered(c: Config, s: System, chain: Chain, first: nat, pid: nat, outcome: Outcome)
    requires Orderly(s) && Covered(c, s, chain, first) && Enabled(c, s, Save(pid, outcome))
    ensures Covered(c, After(c, s, Save(pid, outcome)), chain, first)
  {
    var t := After(c, s, Save(pid, outcome));
    var p := s.processes[pid];
    assert InOrder(s, p) && LeavesNothingOut(c, s, chain, first, p);
    BetweenGrows(s, t, chain, first, s.db.blocks.Of(chain) + 1);
    if p.chain == chain {
      BetweenGrows(s, t, chain, first, p.place.block.number + 1);
    }
    forall q | q in t.processes ensures LeavesNothingOut(c, t, chain, first, t.processes[q]) {
      if q != pid {
        OthersLeaveNothingOut(c, s, t, chain, first, s.processes[q]);
      }
    }
  }

  lemma MoverLeavesNothingOut(c: Config, s: System, chain: Chain, first: nat, step: Step, pid: nat)
    requires Orderly(s) && Covered(c, s, chain, first) && Enabled(c, s, step) && !step.Save? && !step.QueuePool?
    requires pid == step.pid
    ensures pid in After(c, s, step).processes ==>
      LeavesNothingOut(c, After(c, s, step), chain, first, After(c, s, step).processes[pid])
  {
    CountersOnlySaved(c, s, step);
    BetweenGrows(s, After(c, s, step), chain, first, s.db.blocks.Of(chain) + 1);
    if pid in s.processes {
      var p, t := s.processes[pid], After(c, s, step);
      assert InOrder(s, p) && LeavesNothingOut(c, s, chain, first, p);
      if p.Listener? && p.chain == chain && !p.place.Saving? {
        var last := if chain.Bitcoin? || p.cursor > 0 then p.cursor else p.place.block.number;
        BetweenGrows(s, t, chain, first, last);
        if step.FinishBlock? {
          BetweenExtends(t, chain, first, last);
        }
      }
    }
  }

  lemma StepKeepsCovered(c: Config, s: System, chain: Chain, first: nat, step: Step)
    requires Orderly(s) && Covered(c, s, chain, first) && Enabled(c, s, step)
    ensures Covered(c, After(c, s, step), chain, first)
  {
    if step.Save? {
      SaveKeepsCovered(c, s, chain, first, step.pid, step.outcome);
    } else {
      var t := After(c, s, step);
      CountersOnlySaved(c, s, step);
      BetweenGrows(s, t, chain, first, s.db.blocks.Of(chain) + 1);
      forall q | q in t.processes ensures LeavesNothingOut(c, t, chain, first, t.processes[q]) {
        if !step.QueuePool? && q == step.pid {
          MoverLeavesNothingOut(c, s, chain, first, step, q);
        } else {
          OtherProcessesStay(c, s, step, q);
          OthersLeaveNothingOut(c, s, t, chain, first, s.processes[q]);
        }
      }
    }
  }

  lemma {:induction false} RunKeepsOrder(c: Config, s: System, steps: seq<Step>)
    requires Orderly(s) && Runs(c, s, steps)
    ensures Orderly(Last(c, s, steps))
    decreases steps
  {
    if steps == [] {
    } else {
      StepKeepsOrder(c, s, steps[0]);
      RunKeepsOrder(c, After(c, s, steps[0]), steps[1..]);
    }
  }

  lemma {:induction false} RunKeepsCovered(c: Config, s: System, chain: Chain, first: nat, steps: seq<Step>)
    requires Orderly(s) && Covered(c, s, chain, first) && Runs(c, s, steps)
    ensures Covered(c, Last(c, s, steps), chain, first)
    decreases steps
  {
    if steps == [] {
    } else {
      StepKeepsOrder(c, s, steps[0]);
      StepKeepsCovered(c, s, chain, first, steps[0]);
      RunKeepsCovered(c, After(c, s, steps[0]), chain, first, steps[1..]);
    }
  }

  /** The counter never goes back. */
  lemma {:induction false} CounterGrows(c: Config, s: System, chain: Chain, steps: seq<Step>)
    requires Runs(c, s, steps)
    ensures s.db.blocks.Of(chain) <= Last(c, s, steps).db.blocks.Of(chain)
    decreases steps
  {
    if steps == [] {
    } else {
      if !steps[0].Save? {
        CountersOnlySaved(c, s, steps[0]);
      }
      CounterGrows(c, After(c, s, steps[0]), chain, steps[1..]);
    }
  }

  /** In every run, once the counter of a chain is not zero and the listeners of the chain leave nothing out after it,
      all later listeners included: every block from there up to the counter was handled without error. In particular
      this holds when there is no listener at that moment. */
  lemma Coverage(c: Config, steps: seq<Step>, later: seq<Step>, chain: Chain, number: nat)
    requires Runs(c, START, steps) && Runs(c, Last(c, START, steps), later)
    requires var s := Last(c, START, steps);
      && s.db.blocks.Of(chain) > 0
      && forall pid :: pid in s.processes ==> LeavesNothingOut(c, s, chain, s.db.blocks.Of(chain), s.processes[pid])
    requires Last(c, START, steps).db.blocks.Of(chain) <= number
    requires number <= Last(c, Last(c, START, steps), later).db.blocks.Of(chain)
    ensures IsHandled(Last(c, Last(c, START, steps), later), chain, number)
  {
    var s := Last(c, START, steps);
    RunKeepsOrder(c, START, steps);
    RunKeepsCovered(c, s, chain, s.db.blocks.Of(chain), later);
    HandledStays(c, s, later);
  }

  lemma {:induction false} HandledStays(c: Config, s: System, steps: seq<Step>)
    requires Runs(c, s, steps)
    ensures s.history.handled <= Last(c, s, steps).history.handled
    decreases steps
  {
    if steps == [] {
    } else {
      CountersOnlySaved(c, s, steps[0]);
      HandledStays(c, After(c, s, steps[0]), steps[1..]);
    }
  }

  // ----- listeners that do leave something out -----

  /** A waiting listener gets an empty block, handles it and saves. */
  function TakeBlock(pid: nat, number: nat): seq<Step> {
    [Fetch(pid, Block(number, [])), FinishBlock(pid), Save(pid, Done)]
  }

  lemma BlockTaken(c: Config, s: System, pid: nat, number: nat)
    requires ListenerAt(s, pid) && s.processes[pid].place.Waiting?
    requires Answers(s.processes[pid].chain, s.processes[pid].cursor, Block(number, []))
    ensures Runs(c, s, TakeBlock(pid, number))
    ensures var p := s.processes[pid];
      var t := Last(c, s, TakeBlock(pid, number));
      && t.db == SaveBlock(s.db, p.chain, p.cursor)
      && t.history.handled == s.history.handled + {BlockOf(p.chain, number)}
      && ListenerAt(t, pid) && t.processes[pid] == Listener(p.chain, number + 1, Waiting)
      && forall q :: q in s.processes && q != pid ==> q in t.processes && t.processes[q] == s.processes[q]
  {
    var fetch, finish, save := Fetch(pid, Block(number, [])), FinishBlock(pid), Save(pid, Done);
    var s1 := After(c, s, fetch);
    var s2 := After(c, s1, finish);
    RunOne(c, s2, save, []);
    RunOne(c, s1, finish, [save]);
    RunOne(c, s, fetch, [finish, save]);
    assert [finish] + [save] == [finish, save] && [fetch] + [finish, save] == TakeBlock(pid, number);
    assert [save] + [] == [save];
  }

  /** Some number above the first one is not in a finite set of blocks. */
  lemma {:induction false} SomeNotHandled(blocks: set<BlockOf>, chain: Chain, first: nat) returns (n: nat)
    ensures n > first && BlockOf(chain, n) !in blocks
    decreases blocks
  {
    if n1 :| n1 > first && BlockOf(chain, n1) in blocks {
      n := SomeNotHandled(blocks - {BlockOf(chain, n1)}, chain, n1);
    } else {
      n := first + 1;
    }
  }

  predicate ListensTo(s: System, pid: nat, chain: Chain) {
    ListenerAt(s, pid) && s.processes[pid].chain == chain
  }

  /** The listener leaves out a block that comes after the saved one. */
  ghost predicate LeavesOut(c: Config, s: System, pid: nat, chain: Chain) {
    ListensTo(s, pid, chain) && !LeavesNothingOut(c, s, chain, s.db.blocks.Of(chain), s.processes[pid])
  }

  /** The step that takes a listener closer to waiting without saving anything: its call fails, or a deposit is too
      small for a call, or the block is finished, or saving fails. */
  function StepBack(c: Config, s: System, pid: nat): Step
    requires ListenerAt(s, pid)
  {
    var p := s.processes[pid];
    match p.place
    case Adding(_, _, _) => Add(pid, FailedBefore)
    case Queueing(_, _, _) => QueueAdd(pid, FailedBefore)
    case Handling(_, _) =>
      if !p.place.Busy() then FinishBlock(pid)
      else if p.place.Deposit().value < c.Minimum(p.chain) then SkipSmall(pid)
      else LookUp(pid, FailedBefore)
    case _ => Save(pid, FailedBefore)
  }

  function StepsToWaiting(p: Place): nat {
    match p
    case Waiting => 0
    case Saving(_) => 1
    case Adding(_, _, _) => 1
    case Queueing(_, _, _) => 1
    case Handling(block, next) => if next < |block.deposits| then |block.deposits| - next + 2 else 2
  }

  lemma StepsBack(c: Config, s: System, pid: nat)
    requires Orderly(s) && ListenerAt(s, pid) && !s.processes[pid].place.Waiting?
    ensures Enabled(c, s, StepBack(c, s, pid))
    ensures var t := After(c, s, StepBack(c, s, pid));
      && t.db == s.db && ListenerAt(t, pid) && t.processes[pid].chain == s.processes[pid].chain
      && StepsToWaiting(t.processes[pid].place) < StepsToWaiting(s.processes[pid].place)
  {
    assert InOrder(s, s.processes[pid]);
  }

  lemma StillLeavesOut(c: Config, s: System, pid: nat, chain: Chain)
    requires Orderly(s) && LeavesOut(c, s, pid, chain) && !s.processes[pid].place.Waiting?
    ensures Enabled(c, s, StepBack(c, s, pid)) && LeavesOut(c, After(c, s, StepBack(c, s, pid)), pid, chain)
  {
    StepsBack(c, s, pid);
    var p := s.processes[pid];
    var t := After(c, s, StepBack(c, s, pid));
    assert InOrder(s, p);
    if p.place.Handling? && !p.place.Busy() {
      FinishLeavesOut(c, s, pid, chain);
    } else {
      assert t.history.handled == s.history.handled;
      SameBetween(s, t, chain);
    }
  }

  lemma SameBetween(s: System, t: System, chain: Chain)
    requires t.history.handled == s.history.handled
    ensures forall first, last :: HandledBetween(t, chain, first, last) <==> HandledBetween(s, chain, first, last)
  {
    forall first, last ensures HandledBetween(t, chain, first, last) <==> HandledBetween(s, chain, first, last) {
      if HandledBetween(s, chain, first, last) {
        BetweenGrows(s, t, chain, first, last);
      }
      if HandledBetween(t, chain, first, last) {
        BetweenGrows(t, s, chain, first, last);
      }
    }
  }

  /** Finishing a block does not handle the earlier block that is left out. */
  lemma FinishLeavesOut(c: Config, s: System, pid: nat, chain: Chain)
    requires Orderly(s) && LeavesOut(c, s, pid, chain) && Enabled(c, s, FinishBlock(pid))
    ensures LeavesOut(c, After(c, s, FinishBlock(pid)), pid, chain)
  {
    var p, t := s.processes[pid], After(c, s, FinishBlock(pid));
    assert InOrder(s, p);
    var n :| s.db.blocks.Of(chain) < n < p.place.block.number && !IsHandled(s, chain, n);
    assert !IsHandled(t, chain, n);
  }

  /** A listener that leaves something out can come to wait for a block, and still leave it out. */
  lemma {:induction false} ComesToWait(c: Config, s: System, pid: nat, chain: Chain) returns (steps: seq<Step>)
    requires Orderly(s) && LeavesOut(c, s, pid, chain)
    ensures Runs(c, s, steps)
    ensures var t := Last(c, s, steps);
      t.db == s.db && LeavesOut(c, t, pid, chain) && t.processes[pid].place.Waiting?
    decreases StepsToWaiting(s.processes[pid].place)
  {
    if s.processes[pid].place.Waiting? {
      steps := [];
    } else {
      var step := StepBack(c, s, pid);
      StepsBack(c, s, pid);
      StillLeavesOut(c, s, pid, chain);
      StepKeepsOrder(c, s, step);
      var rest := ComesToWait(c, After(c, s, step), pid, chain);
      RunOne(c, s, step, rest);
      steps := [step] + rest;
    }
  }

  /** A waiting listener that asks for a block by its number gets it, and so passes what it left out. */
  lemma NumberSkips(c: Config, s: System, pid: nat, chain: Chain) returns (skipped: nat)
    requires LeavesOut(c, s, pid, chain) && s.processes[pid].place.Waiting?
    requires (chain.Bitcoin? || s.processes[pid].cursor > 0)
    ensures var cursor := s.processes[pid].cursor;
      && Runs(c, s, TakeBlock(pid, cursor))
      && var t := Last(c, s, TakeBlock(pid, cursor));
         s.db.blocks.Of(chain) < skipped <= t.db.blocks.Of(chain) && !IsHandled(t, chain, skipped)
  {
    var cursor := s.processes[pid].cursor;
    skipped :| s.db.blocks.Of(chain) < skipped < cursor && !IsHandled(s, chain, skipped);
    BlockTaken(c, s, pid, cursor);
  }

  /** A waiting listener that asks for the current block gets one after a block that nobody handled, and then the
      next. */
  lemma CurrentSkips(c: Config, s: System, pid: nat) returns (skipped: nat)
    requires ListensTo(s, pid, Ethereum) && s.processes[pid].place.Waiting? && s.processes[pid].cursor == 0
    ensures Runs(c, s, TakeBlock(pid, skipped + 1) + TakeBlock(pid, skipped + 2))
    ensures var t := Last(c, s, TakeBlock(pid, skipped + 1) + TakeBlock(pid, skipped + 2));
      s.db.blocks.ethereum < skipped <= t.db.blocks.ethereum && !IsHandled(t, Ethereum, skipped)
  {
    skipped := SomeNotHandled(s.history.handled, Ethereum, s.db.blocks.ethereum);
    BlockTaken(c, s, pid, skipped + 1);
    BlockTaken(c, Last(c, s, TakeBlock(pid, skipped + 1)), pid, skipped + 2);
    RunConcat(c, s, TakeBlock(pid, skipped + 1), TakeBlock(pid, skipped + 2));
  }

  /** A listener that leaves something out, wherever it is in its loop, can bring the counter past a block that nobody
      handled. */
  lemma LeavingOutSkips(c: Config, s: System, pid: nat, chain: Chain) returns (steps: seq<Step>, skipped: nat)
    requires Orderly(s) && LeavesOut(c, s, pid, chain)
    ensures Runs(c, s, steps)
    ensures var t := Last(c, s, steps);
      s.db.blocks.Of(chain) < skipped <= t.db.blocks.Of(chain) && !IsHandled(t, chain, skipped)
  {
    var wait := ComesToWait(c, s, pid, chain);
    var t := Last(c, s, wait);
    var rest;
    if chain.Bitcoin? || t.processes[pid].cursor > 0 {
      skipped := NumberSkips(c, t, pid, chain);
      rest := TakeBlock(pid, t.processes[pid].cursor);
    } else {
      skipped := CurrentSkips(c, t, pid);
      rest := TakeBlock(pid, skipped + 1) + TakeBlock(pid, skipped + 2);
    }
    RunConcat(c, s, wait, rest);
    steps := wait + rest;
  }

  /** After the run no block of the chain up to the counter is left out. */
  ghost predicate CoversAll(c: Config, s: System, chain: Chain, later: seq<Step>) {
    Runs(c, s, later) ==>
      forall n :: s.db.blocks.Of(chain) <= n <= Last(c, s, later).db.blocks.Of(chain) ==>
        IsHandled(Last(c, s, later), chain, n)
  }

  /** When the counter of a chain is not zero, all later runs handle all blocks that the counter passes if, and only if,
      none of the chain's listeners leaves anything out. */
  lemma CoverageExactlyWhen(c: Config, steps: seq<Step>, chain: Chain)
    requires Runs(c, START, steps) && Last(c, START, steps).db.blocks.Of(chain) > 0
    ensures var s := Last(c, START, steps);
      (forall later :: CoversAll(c, s, chain, later))
      <==> (forall pid :: pid in s.processes ==> LeavesNothingOut(c, s, chain, s.db.blocks.Of(chain), s.processes[pid]))
  {
    var s := Last(c, START, steps);
    var first := s.db.blocks.Of(chain);
    if forall pid :: pid in s.processes ==> LeavesNothingOut(c, s, chain, first, s.processes[pid]) {
      forall later ensures CoversAll(c, s, chain, later) {
        if Runs(c, s, later) {
          forall n | first <= n <= Last(c, s, later).db.blocks.Of(chain)
            ensures IsHandled(Last(c, s, later), chain, n)
          {
            Coverage(c, steps, later, chain, n);
          }
        }
      }
    } else {
      var pid :| pid in s.processes && !LeavesNothingOut(c, s, chain, first, s.processes[pid]);
      RunKeepsOrder(c, START, steps);
      var later, skipped := LeavingOutSkips(c, s, pid, chain);
      assert !CoversAll(c, s, chain, later);
    }
  }

  // ----- a run that leaves blocks out -----

  /** Two listeners of Ethereum start while nothing is saved; the first gets blocks 5 and 6, and saves 6. The second,
      which still waits for the current block, leaves something out, and a later run brings the counter past a block
      that nobody handled. */
  lemma BlocksCanBeSkipped(c: Config) returns (steps: seq<Step>, later: seq<Step>, skipped: nat)
    ensures Runs(c, START, steps) && Last(c, START, steps).db.blocks.ethereum == 6
    ensures LeavesOut(c, Last(c, START, steps), 1, Ethereum)
    ensures Runs(c, Last(c, START, steps), later)
    ensures var t := Last(c, Last(c, START, steps), later);
      6 < skipped <= t.db.blocks.ethereum && !IsHandled(t, Ethereum, skipped)
  {
    var first, second := StartListener(0, Ethereum, 0), StartListener(1, Ethereum, 0);
    RunOne(c, After(c, START, first), second, []);
    RunOne(c, START, first, [second]);
    assert [second] + [] == [second];
    steps := [first] + [second];
    var s := Last(c, START, steps);
    assert s.processes[0] == Listener(Ethereum, 0, Waiting) && s.processes[1] == Listener(Ethereum, 0, Waiting);
    assert s.db == EMPTY;
    BlockTaken(c, s, 0, 5);
    var five := Last(c, s, TakeBlock(0, 5));
    BlockTaken(c, five, 0, 6);
    RunConcat(c, s, TakeBlock(0, 5), TakeBlock(0, 6));
    RunConcat(c, START, steps, TakeBlock(0, 5) + TakeBlock(0, 6));
    steps := steps + (TakeBlock(0, 5) + TakeBlock(0, 6));
    RunKeepsOrder(c, START, steps);
    later, skipped := LeavingOutSkips(c, Last(c, START, steps), 1, Ethereum);
  }
}
