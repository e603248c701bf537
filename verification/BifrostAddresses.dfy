/** The indices from which the bridge makes addresses: over every run. */
module BifrostAddresses {
  import opened BifrostProtocol
  import opened BifrostTables

  /** What is known of the indices handed out for a chain: none twice, all up to the counter, and zero only when the
      counter has run out, as the last one. */
  ghost predicate Indexed(s: System) {
    var issued := s.history.issued;
    && (forall chain: Chain :: s.db.indices.Of(chain) <= UINT32)
    && (forall i, j :: 0 <= i < j < |issued| ==> issued[i] != issued[j])
    && (forall i, j :: 0 <= i < j < |issued| && issued[i].chain == issued[j].chain ==> issued[i].index != 0)
    && (forall i :: 0 <= i < |issued| ==> issued[i].index <= s.db.indices.Of(issued[i].chain))
    && (forall i :: 0 <= i < |issued| && issued[i].index == 0 ==> s.db.indices.Of(issued[i].chain) == UINT32)
  }

  lemma TakeKeepsIndexed(s: System, pid: nat, outcome: Outcome)
    requires Indexed(s) && pid in s.processes && s.processes[pid].Request?
    ensures Indexed(AfterTake(s, pid, outcome))
    ensures var t := AfterTake(s, pid, outcome);
      t.history.issued == s.history.issued
      || (t.history.issued == s.history.issued
            + [IndexOf(s.processes[pid].chain, IndexAfter(s.db, s.processes[pid].chain))]
          && IndexOf(s.processes[pid].chain, IndexAfter(s.db, s.processes[pid].chain)) !in s.history.issued)
  {
    var chain := s.processes[pid].chain;
    var v := s.db.indices.Of(chain);
    if v < UINT32 {
      var index := IndexAfter(s.db, chain);
      assert index == if v + 1 < UINT32 then v + 1 else 0;
      forall other: Chain ensures AfterTake(s, pid, outcome).db.indices.Of(other) <= UINT32 {
        assert s.db.indices.Of(other) <= UINT32;
      }
      assert forall i :: 0 <= i < |s.history.issued| && s.history.issued[i].chain == chain ==>
        s.history.issued[i].index != 0;
    }
  }

  lemma StepKeepsIndexed(c: Config, s: System, step: Step)
    requires Indexed(s) && Enabled(c, s, step)
    ensures Indexed(After(c, s, step))
  {
    match step
    case TakeIndex(pid, outcome) => TakeKeepsIndexed(s, pid, outcome);
    case _ => SameIndices(c, s, step);
  }

  lemma SameIndices(c: Config, s: System, step: Step)
    requires Enabled(c, s, step) && !step.TakeIndex?
    ensures After(c, s, step).db.indices == s.db.indices && After(c, s, step).history.issued == s.history.issued
  {
  }

  lemma {:induction false} RunKeepsIndexed(c: Config, s: System, steps: seq<Step>)
    requires Indexed(s) && Runs(c, s, steps)
    ensures Indexed(Last(c, s, steps))
    decreases steps
  {
    if steps == [] {
    } else {
      StepKeepsIndexed(c, s, steps[0]);
      RunKeepsIndexed(c, After(c, s, steps[0]), steps[1..]);
    }
  }

  /** In every run no index is handed out twice for a chain, and nothing is handed out after index zero, with which the
      32 bits are used up. */
  lemma IndexNeverRepeats(c: Config, steps: seq<Step>, i: nat, j: nat)
    requires Runs(c, START, steps) && i < j < |Last(c, START, steps).history.issued|
    requires var issued := Last(c, START, steps).history.issued; issued[i].chain == issued[j].chain
    ensures var issued := Last(c, START, steps).history.issued;
      issued[i].index != issued[j].index && issued[i].index != 0 && issued[j].index < UINT32
  {
    RunKeepsIndexed(c, START, steps);
    RunIssuesWords(c, START, steps);
  }

  lemma StepIssuesWords(c: Config, s: System, step: Step)
    requires Enabled(c, s, step) && forall x :: x in s.history.issued ==> x.index < UINT32
    ensures forall x :: x in After(c, s, step).history.issued ==> x.index < UINT32
  {
    if !step.TakeIndex? {
      SameIndices(c, s, step);
    }
  }

  lemma {:induction false} RunIssuesWords(c: Config, s: System, steps: seq<Step>)
    requires Runs(c, s, steps) && forall x :: x in s.history.issued ==> x.index < UINT32
    ensures forall x :: x in Last(c, s, steps).history.issued ==> x.index < UINT32
    decreases steps
  {
    if steps == [] {
    } else {
      StepIssuesWords(c, s, steps[0]);
      RunIssuesWords(c, After(c, s, steps[0]), steps[1..]);
    }
  }

  // ----- one index, one association -----

  function Of(a: Association): IndexOf {
    IndexOf(a.chain, a.index)
  }

  predicate Binds(s: System, pid: nat) {
    pid in s.processes && s.processes[pid].Binding?
  }

  function Bound(p: Process): IndexOf
    requires p.Binding?
  {
    IndexOf(p.chain, p.index)
  }

  /** Every index handed out is used for at most one association or request. */
  ghost predicate UsedOnce(s: System) {
    && (forall a :: a in s.db.associations ==> Of(a) in s.history.issued)
    && (forall pid :: Binds(s, pid) ==> Bound(s.processes[pid]) in s.history.issued)
    && (forall i, j :: 0 <= i < j < |s.db.associations| ==> Of(s.db.associations[i]) != Of(s.db.associations[j]))
    && (forall p, q :: Binds(s, p) && Binds(s, q) && p != q ==> Bound(s.processes[p]) != Bound(s.processes[q]))
    && (forall a, pid :: a in s.db.associations && Binds(s, pid) ==> Of(a) != Bound(s.processes[pid]))
  }

  lemma TakeKeepsUsedOnce(s: System, pid: nat, outcome: Outcome)
    requires Indexed(s) && UsedOnce(s) && pid in s.processes && s.processes[pid].Request?
    ensures UsedOnce(AfterTake(s, pid, outcome))
  {
    TakeKeepsIndexed(s, pid, outcome);
    var t := AfterTake(s, pid, outcome);
    forall q | Binds(t, q) && q != pid ensures Binds(s, q) && t.processes[q] == s.processes[q] {
    }
  }

  lemma BindKeepsUsedOnce(c: Config, s: System, pid: nat, outcome: Outcome)
    requires UsedOnce(s) && pid in s.processes && s.processes[pid].Binding?
    ensures UsedOnce(AfterBind(c, s, pid, outcome))
  {
    var t := AfterBind(c, s, pid, outcome);
    assert Binds(s, pid);
    forall q | Binds(t, q) ensures Binds(s, q) && t.processes[q] == s.processes[q] && q != pid {
    }
    forall a | a in t.db.associations
      ensures a in s.db.associations || Of(a) == Bound(s.processes[pid])
    {
    }
  }

  lemma SameUse(c: Config, s: System, step: Step)
    requires Enabled(c, s, step) && !step.TakeIndex? && !step.Bind?
    ensures After(c, s, step).db.associations == s.db.associations
    ensures After(c, s, step).history.issued == s.history.issued
    ensures forall q :: Binds(After(c, s, step), q) ==> Binds(s, q) && After(c, s, step).processes[q] == s.processes[q]
  {
  }

  lemma StepKeepsUsedOnce(c: Config, s: System, step: Step)
    requires Indexed(s) && UsedOnce(s) && Enabled(c, s, step)
    ensures UsedOnce(After(c, s, step))
  {
    match step
    case TakeIndex(pid, outcome) => TakeKeepsUsedOnce(s, pid, outcome);
    case Bind(pid, outcome) => BindKeepsUsedOnce(c, s, pid, outcome);
    case _ => SameUse(c, s, step);
  }

  lemma {:induction false} RunKeepsUsedOnce(c: Config, s: System, steps: seq<Step>)
    requires Indexed(s) && UsedOnce(s) && Runs(c, s, steps)
    ensures UsedOnce(Last(c, s, steps))
    decreases steps
  {
    if steps == [] {
    } else {
      StepKeepsIndexed(c, s, steps[0]);
      StepKeepsUsedOnce(c, s, steps[0]);
      RunKeepsUsedOnce(c, After(c, s, steps[0]), steps[1..]);
    }
  }

  /** In every run two associations of a chain have different indices. */
  lemma IndicesBelongToOne(c: Config, steps: seq<Step>, i: nat, j: nat)
    requires Runs(c, START, steps) && i < j < |Last(c, START, steps).db.associations|
    requires var rows := Last(c, START, steps).db.associations; rows[i].chain == rows[j].chain
    ensures var rows := Last(c, START, steps).db.associations; rows[i].index != rows[j].index
  {
    RunKeepsUsedOnce(c, START, steps);
    assert Of(Last(c, START, steps).db.associations[i]) != Of(Last(c, START, steps).db.associations[j]);
  }
}
