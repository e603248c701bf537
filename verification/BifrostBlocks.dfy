/** From blocks to payments: what becomes of the deposits in the blocks that the counter has passed. */
module BifrostBlocks {
  import opened BifrostCoverage
  import opened BifrostDeposits
  import opened BifrostHandling
  import opened BifrostProtocol
  import opened BifrostTables

  /** The deposits in each block of a chain. */
  type Content = (Chain, nat) -> seq<Deposit>

  /** The clients deliver the blocks of the chains. */
  predicate Delivers(c: Config, s: System, steps: seq<Step>, content: Content)
    requires Runs(c, s, steps)
    decreases steps
  {
    steps == []
    || ((steps[0].Fetch? ==>
           steps[0].block.deposits == content(s.processes[steps[0].pid].chain, steps[0].block.number))
        && Delivers(c, After(c, s, steps[0]), steps[1..], content))
  }

  predicate HasBlock(p: Process, content: Content) {
    p.Listener? && !p.place.Waiting? ==> p.place.block.deposits == content(p.chain, p.place.block.number)
  }

  /** All deposits of a handled block were handled without error. */
  ghost predicate Finished(s: System, content: Content, chain: Chain, number: nat) {
    forall d :: d in content(chain, number) ==> Delivery(chain, d) in s.history.finished
  }

  ghost predicate Complete(s: System, content: Content) {
    && (forall pid :: pid in s.processes ==> HasBlock(s.processes[pid], content))
    && (forall chain, number: nat :: IsHandled(s, chain, number) ==> Finished(s, content, chain, number))
  }

  lemma MoverHasBlock(c: Config, s: System, step: Step, content: Content)
    requires Complete(s, content) && Enabled(c, s, step) && !step.QueuePool?
    requires step.Fetch? ==> step.block.deposits == content(s.processes[step.pid].chain, step.block.number)
    ensures step.pid in After(c, s, step).processes ==> HasBlock(After(c, s, step).processes[step.pid], content)
  {
    if step.pid in s.processes {
      assert HasBlock(s.processes[step.pid], content);
    }
  }

  lemma OnlyFinishHandles(c: Config, s: System, step: Step)
    requires Enabled(c, s, step) && !step.FinishBlock?
    ensures After(c, s, step).history.handled == s.history.handled
    ensures After(c, s, step).history.finished == s.history.finished
  {
  }

  lemma FinishCompletes(c: Config, s: System, pid: nat, content: Content, chain: Chain, number: nat)
    requires Complete(s, content) && Enabled(c, s, FinishBlock(pid)) && IsHandled(AfterFinish(s, pid), chain, number)
    ensures Finished(AfterFinish(s, pid), content, chain, number)
  {
    var p := s.processes[pid];
    assert HasBlock(p, content);
    if IsHandled(s, chain, number) {
      assert Finished(s, content, chain, number);
    }
  }

  lemma StepKeepsComplete(c: Config, s: System, step: Step, content: Content)
    requires Complete(s, content) && Enabled(c, s, step)
    requires step.Fetch? ==> step.block.deposits == content(s.processes[step.pid].chain, step.block.number)
    ensures Complete(After(c, s, step), content)
  {
    var t := After(c, s, step);
    forall q | q in t.processes ensures HasBlock(t.processes[q], content) {
      if !step.QueuePool? && q == step.pid {
        MoverHasBlock(c, s, step, content);
      } else {
        OtherProcessesStay(c, s, step, q);
        assert HasBlock(s.processes[q], content);
      }
    }
    forall chain, number: nat | IsHandled(t, chain, number) ensures Finished(t, content, chain, number) {
      if step.FinishBlock? {
        FinishCompletes(c, s, step.pid, content, chain, number);
      } else {
        OnlyFinishHandles(c, s, step);
        assert IsHandled(s, chain, number) && Finished(s, content, chain, number);
      }
    }
  }

  lemma {:induction false} RunKeepsComplete(c: Config, s: System, steps: seq<Step>, content: Content)
    requires Complete(s, content) && Runs(c, s, steps) && Delivers(c, s, steps, content)
    ensures Complete(Last(c, s, steps), content)
    decreases steps
  {
    if steps == [] {
    } else {
      StepKeepsComplete(c, s, steps[0], content);
      RunKeepsComplete(c, After(c, s, steps[0]), steps[1..], content);
    }
  }

  /** The run up to a state and on from there: the clients deliver the blocks of the chains; in between the counter of
      the chain is not zero, and no listener leaves anything out; and the block is one that the counter has passed
      since. */
  ghost predicate PassedBlock(c: Config, steps: seq<Step>, later: seq<Step>, content: Content, chain: Chain,
        number: nat) {
    && Runs(c, START, steps) && Delivers(c, START, steps, content)
    && var s := Last(c, START, steps);
    && s.db.blocks.Of(chain) > 0
    && (forall pid :: pid in s.processes ==>
          LeavesNothingOut(c, s, chain, s.db.blocks.Of(chain), s.processes[pid]))
    && Runs(c, s, later) && Delivers(c, s, later, content)
    && s.db.blocks.Of(chain) <= number <= Last(c, s, later).db.blocks.Of(chain)
  }

  lemma PassedBlockFinished(c: Config, steps: seq<Step>, later: seq<Step>, content: Content, chain: Chain, number: nat,
      d: Deposit)
    requires PassedBlock(c, steps, later, content, chain, number) && d in content(chain, number)
    ensures Delivery(chain, d) in Last(c, Last(c, START, steps), later).history.finished
  {
    var s := Last(c, START, steps);
    Coverage(c, steps, later, chain, number);
    RunKeepsComplete(c, START, steps, content);
    RunKeepsComplete(c, s, later, content);
    assert Finished(Last(c, s, later), content, chain, number);
  }

  /** Every deposit that is large enough, in every block that the counter has passed, is credited, unless no association
      was found for it at some time. */
  lemma PassedBlocksCredited(c: Config, steps: seq<Step>, later: seq<Step>, content: Content, chain: Chain, number: nat,
      d: Deposit)
    requires PassedBlock(c, steps, later, content, chain, number)
    requires d in content(chain, number) && d.value >= c.Minimum(chain)
    ensures Runs(c, START, steps + later)
    ensures Delivery(chain, d) in Last(c, START, steps + later).history.missed
         || Credited(c, steps + later, KeyOf(chain, d))
  {
    PassedBlockFinished(c, steps, later, content, chain, number, d);
    RunConcat(c, START, steps, later);
    if Delivery(chain, d) !in Last(c, START, steps + later).history.missed {
      HandledDeposits(c, steps + later, Delivery(chain, d));
    }
  }

  /** If its address was associated in time it is credited. */
  lemma AssociatedBlocksCredited(c: Config, steps: seq<Step>, later: seq<Step>, content: Content, chain: Chain,
      number: nat, d: Deposit)
    requires PassedBlock(c, steps, later, content, chain, number)
    requires d in content(chain, number) && d.value >= c.Minimum(chain)
    requires var s := Last(c, START, steps);
      IsAssociated(s.db, Delivery(chain, d)) && Delivery(chain, d) !in s.history.missed
    ensures Runs(c, START, steps + later) && Credited(c, steps + later, KeyOf(chain, d))
  {
    PassedBlockFinished(c, steps, later, content, chain, number, d);
    AssociatedDeposits(c, steps, later, Delivery(chain, d));
  }
}
