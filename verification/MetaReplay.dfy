/** The answers of meta/bundle.go are the states that a plain replay of the change log goes through. */
module MetaReplay {
  import opened Ledger
  import opened Meta
  import opened Wrappers

  type LedgerState = map<LedgerKey, LedgerEntry>

  function Get(ledger: LedgerState, key: LedgerKey): Option<LedgerEntry> {
    if key in ledger then Some(ledger[key]) else None
  }

  function Apply(ledger: LedgerState, change: Change): LedgerState {
    match change
    case Created(e) => ledger[e.Key() := e]
    case Updated(e) => ledger[e.Key() := e]
    case Removed(k) => ledger - {k}
    case State(_) => ledger
  }

  /** Plain replay: every change of the log in its order, whatever its key. */
  function Replay(ledger: LedgerState, log: seq<Change>): LedgerState {
    if log == [] then ledger else Apply(Replay(ledger, log[..|log| - 1]), log[|log| - 1])
  }

  // ----- well-formed logs -----

  /** What one change makes of the entry it is about. */
  function Step(entry: Option<LedgerEntry>, change: Change): Option<LedgerEntry> {
    match change
    case Created(e) => Some(e)
    case Updated(e) => Some(e)
    case Removed(_) => None
    case State(_) => entry
  }

  function Follow(entry: Option<LedgerEntry>, changes: seq<Change>): Option<LedgerEntry>
    decreases changes
  {
    if changes == [] then entry else Follow(Step(entry, changes[0]), changes[1..])
  }

  /** The changes of one key in one group: a creation when there is no entry, and otherwise the matching state followed
      by an update or a removal, any number of times. */
  predicate Fits(entry: Option<LedgerEntry>, changes: seq<Change>)
    decreases changes
  {
    if changes == [] then true
    else if changes[0].Created? then entry.None? && Fits(Some(changes[0].entry), changes[1..])
    else
      && changes[0].State? && entry == Some(changes[0].entry)
      && |changes| >= 2 && (changes[1].Updated? || changes[1].Removed?)
      && Fits(Step(entry, changes[1]), changes[2..])
  }

  /** Every group of the bundle fits the ledger that the groups before it lead to. */
  ghost predicate WellFormed(b: Bundle, ledger: LedgerState) {
    var groups := Groups(b, |b.transactionMeta.operations|);
    forall key, i :: 0 <= i < |groups| ==>
      Fits(Get(Replay(ledger, Flatten(groups[..i])), key), Filtered(groups[i], key))
  }

  // ----- replay of one key -----

  lemma {:induction false} FilteredConcat(a: seq<Change>, c: seq<Change>, key: LedgerKey)
    ensures Filtered(a + c, key) == Filtered(a, key) + Filtered(c, key)
    decreases c
  {
    if c == [] {
      assert a + c == a;
    } else {
      assert (a + c)[..|a + c| - 1] == a + c[..|c| - 1];
      FilteredConcat(a, c[..|c| - 1], key);
    }
  }

  lemma {:induction false} FollowConcat(entry: Option<LedgerEntry>, a: seq<Change>, c: seq<Change>)
    ensures Follow(entry, a + c) == Follow(Follow(entry, a), c)
    decreases a
  {
    if a == [] {
      assert a + c == c;
    } else {
      assert (a + c)[1..] == a[1..] + c;
      FollowConcat(Step(entry, a[0]), a[1..], c);
    }
  }

  /** Replay of the whole log, seen at one key, is replay of the changes of that key. */
  lemma {:induction false} ReplayAtKey(ledger: LedgerState, log: seq<Change>, key: LedgerKey)
    ensures Get(Replay(ledger, log), key) == Follow(Get(ledger, key), Filtered(log, key))
    decreases log
  {
    if log == [] {
    } else {
      var last := log[|log| - 1];
      ReplayAtKey(ledger, log[..|log| - 1], key);
      if last.Key() == key {
        FollowConcat(Get(ledger, key), Filtered(log[..|log| - 1], key), [last]);
      }
    }
  }

  lemma {:induction false} FitsConcat(entry: Option<LedgerEntry>, a: seq<Change>, c: seq<Change>)
    requires Fits(entry, a) && Fits(Follow(entry, a), c)
    ensures Fits(entry, a + c)
    decreases a
  {
    if a == [] {
      assert a + c == c;
    } else if a[0].Created? {
      assert (a + c)[1..] == a[1..] + c;
      FitsConcat(Some(a[0].entry), a[1..], c);
    } else {
      assert (a + c)[2..] == a[2..] + c;
      assert Follow(entry, a) == Follow(Step(entry, a[1]), a[2..]) by {
        assert a[1..][1..] == a[2..];
      }
      FitsConcat(Step(entry, a[1]), a[2..], c);
    }
  }

  lemma {:induction false} GroupsFit(b: Bundle, ledger: LedgerState, key: LedgerKey, n: nat)
    requires WellFormed(b, ledger) && n <= |Groups(b, |b.transactionMeta.operations|)|
    ensures Fits(Get(ledger, key), Filtered(Flatten(Groups(b, |b.transactionMeta.operations|)[..n]), key))
    decreases n
  {
    var groups := Groups(b, |b.transactionMeta.operations|);
    if n == 0 {
    } else {
      GroupsFit(b, ledger, key, n - 1);
      assert groups[..n][..n - 1] == groups[..n - 1];
      var before := Flatten(groups[..n - 1]);
      ReplayAtKey(ledger, before, key);
      FilteredConcat(before, groups[n - 1], key);
      FitsConcat(Get(ledger, key), Filtered(before, key), Filtered(groups[n - 1], key));
    }
  }

  lemma LogFits(b: Bundle, ledger: LedgerState, key: LedgerKey, maxOp: int)
    requires WellFormed(b, ledger)
    ensures Fits(Get(ledger, key), Filtered(Log(b, maxOp), key))
  {
    var groups := Groups(b, |b.transactionMeta.operations|);
    var n := |Groups(b, maxOp)|;
    assert groups[..n] == Groups(b, maxOp);
    GroupsFit(b, ledger, key, n);
  }

  // ----- the queries -----

  /** The changes before the last creation, update or removal and the state that belongs to it. */
  function BeforeLast(changes: seq<Change>): seq<Change>
    requires changes != []
  {
    if changes[|changes| - 1].Created? || |changes| == 1 then changes[..|changes| - 1] else changes[..|changes| - 2]
  }

  /** The length of the first creation, or of the first state with its update or removal. */
  function FirstLength(changes: seq<Change>): (n: nat)
    requires changes != []
  {
    if changes[0].Created? then 1 else 2
  }

  lemma FirstFits(entry: Option<LedgerEntry>, changes: seq<Change>)
    requires Fits(entry, changes) && changes != []
    ensures FirstLength(changes) <= |changes|
    ensures Follow(entry, changes[..FirstLength(changes)]) == Step(entry, changes[FirstLength(changes) - 1])
    ensures Fits(Step(entry, changes[FirstLength(changes) - 1]), changes[FirstLength(changes)..])
  {
    if changes[0].Created? {
      assert changes[..1][1..] == [];
    } else {
      assert changes[..2][1..] == [changes[1]];
      assert Follow(entry, [changes[1]]) == Step(entry, changes[1]) by {
        assert [changes[1]][1..] == [];
      }
    }
  }

  /** With more than one change left the last two are the same; a last single change is a creation, so that the entry
      before it is missing. */
  lemma LastTwo(head: seq<Change>, rest: seq<Change>, entry: Option<LedgerEntry>, next: Option<LedgerEntry>)
    requires rest != [] && Fits(next, rest) && head != [] && next == Step(entry, head[|head| - 1])
    requires !head[|head| - 1].State?
    ensures LastState(head + rest) == LastState(rest) && LastButOneState(head + rest) == LastButOneState(rest)
  {
  }

  lemma BeforeLastOf(head: seq<Change>, rest: seq<Change>)
    requires rest != [] && (|rest| == 1 ==> rest[0].Created?)
    ensures BeforeLast(head + rest) == head + BeforeLast(rest)
  {
    assert (head + rest)[..|head + rest| - 1] == head + rest[..|rest| - 1];
    if |rest| >= 2 {
      assert (head + rest)[..|head + rest| - 2] == head + rest[..|rest| - 2];
    }
  }

  /** The three answers for the changes of one key. */
  lemma {:induction false} AnswersFit(entry: Option<LedgerEntry>, changes: seq<Change>)
    requires Fits(entry, changes) && changes != []
    ensures FirstState(changes) == Ok(entry)
    ensures LastState(changes) == Ok(Follow(entry, changes))
    ensures LastButOneState(changes) == Ok(Follow(entry, BeforeLast(changes)))
    decreases changes
  {
    var n := FirstLength(changes);
    FirstFits(entry, changes);
    var head, rest := changes[..n], changes[n..];
    assert changes == head + rest;
    if rest == [] {
      assert head == changes && BeforeLast(changes) == [];
    } else {
      var next := Step(entry, changes[n - 1]);
      AnswersFit(next, rest);
      FollowConcat(entry, head, rest);
      BeforeLastOf(head, rest);
      FollowConcat(entry, head, BeforeLast(rest));
      LastTwo(head, rest, entry, next);
    }
  }

  /** StateAfter is the plain replay through the operation, for every key that the log changes by then. */
  lemma StateAfterIsReplay(b: Bundle, ledger: LedgerState, key: LedgerKey, opidx: int)
    requires WellFormed(b, ledger)
    ensures LastState(Filtered(Log(b, opidx), key))
      == if exists c :: c in Log(b, opidx) && c.Key() == key then Ok(Get(Replay(ledger, Log(b, opidx)), key))
         else Err(MetaNotFound)
  {
    var changes := Filtered(Log(b, opidx), key);
    FilteredEmpty(Log(b, opidx), key);
    LogFits(b, ledger, key, opidx);
    ReplayAtKey(ledger, Log(b, opidx), key);
    if changes != [] {
      AnswersFit(Get(ledger, key), changes);
    }
  }

  lemma {:induction false} FilteredEmpty(log: seq<Change>, key: LedgerKey)
    ensures Filtered(log, key) != [] <==> exists c :: c in log && c.Key() == key
    decreases log
  {
    if log == [] {
    } else {
      FilteredEmpty(log[..|log| - 1], key);
      assert log == log[..|log| - 1] + [log[|log| - 1]];
    }
  }

  /** InitialState is the entry before the bundle, for every key in the log. */
  lemma InitialStateIsBefore(b: Bundle, ledger: LedgerState, key: LedgerKey)
    requires WellFormed(b, ledger)
    ensures FirstState(Filtered(Log(b, MAX_INT32), key))
      == if exists c :: c in Log(b, MAX_INT32) && c.Key() == key then Ok(Get(ledger, key)) else Err(MetaNotFound)
  {
    var changes := Filtered(Log(b, MAX_INT32), key);
    FilteredEmpty(Log(b, MAX_INT32), key);
    LogFits(b, ledger, key, MAX_INT32);
    if changes != [] {
      AnswersFit(Get(ledger, key), changes);
    }
  }

  /** StateBefore is the entry before the last change of the key at or before the operation, wherever that change is. */
  lemma StateBeforeIsBeforeLast(b: Bundle, ledger: LedgerState, key: LedgerKey, opidx: int)
    requires WellFormed(b, ledger)
    ensures var changes := Filtered(Log(b, opidx), key);
      LastButOneState(changes)
      == if changes == [] then Err(MetaNotFound) else Ok(Follow(Get(ledger, key), BeforeLast(changes)))
  {
    var changes := Filtered(Log(b, opidx), key);
    LogFits(b, ledger, key, opidx);
    if changes != [] {
      AnswersFit(Get(ledger, key), changes);
    }
  }

  lemma BeforeLastConcat(a: seq<Change>, c: seq<Change>)
    requires c != [] && (|c| == 1 ==> c[0].Created?)
    ensures BeforeLast(a + c) == a + BeforeLast(c)
  {
  }

  lemma LastOfFits(entry: Option<LedgerEntry>, changes: seq<Change>)
    requires Fits(entry, changes) && |changes| == 1
    ensures changes[0].Created?
  {
  }

  /** What the operation itself is about fits the state that the operations before it lead to. */
  lemma OperationFits(b: Bundle, ledger: LedgerState, key: LedgerKey, opidx: nat)
    requires WellFormed(b, ledger) && opidx < |b.transactionMeta.operations|
    ensures Fits(Get(Replay(ledger, Log(b, opidx - 1)), key), Filtered(b.transactionMeta.operations[opidx], key))
  {
    var groups := Groups(b, |b.transactionMeta.operations|);
    assert groups[..opidx + 2] == Groups(b, opidx - 1) && groups[opidx + 2] == b.transactionMeta.operations[opidx];
  }

  /** StateBefore answers with the state before the operation by the log alone: the states that the first change of the
      operation and the last change but one by then name are the same; or, if the operation leaves the key alone, those
      that the last change and the last but one name. */
  predicate NamesStateBefore(before: seq<Change>, op: seq<Change>) {
    if op != [] then FirstState(op) == LastButOneState(op)
    else before != [] && LastState(before) == LastButOneState(before)
  }

  /** StateBefore is the plain replay up to the operation before exactly under this condition, for every operation and
      key, however often the operation changes the key. */
  lemma StateBeforeExactlyWhen(b: Bundle, ledger: LedgerState, key: LedgerKey, opidx: nat)
    requires WellFormed(b, ledger) && opidx < |b.transactionMeta.operations|
    ensures LastButOneState(Filtered(Log(b, opidx), key)) == Ok(Get(Replay(ledger, Log(b, opidx - 1)), key))
      <==> NamesStateBefore(Filtered(Log(b, opidx - 1), key), Filtered(b.transactionMeta.operations[opidx], key))
  {
    var entry := Get(ledger, key);
    var op, before := Filtered(b.transactionMeta.operations[opidx], key), Filtered(Log(b, opidx - 1), key);
    LogGrows(b, opidx);
    FilteredConcat(Log(b, opidx - 1), b.transactionMeta.operations[opidx], key);
    ReplayAtKey(ledger, Log(b, opidx - 1), key);
    StateBeforeIsBeforeLast(b, ledger, key, opidx);
    LogFits(b, ledger, key, opidx - 1);
    if op != [] {
      OperationFits(b, ledger, key, opidx);
      AnswersFit(Follow(entry, before), op);
      if |op| == 1 {
        LastOfFits(Follow(entry, before), op);
      }
      BeforeLastConcat(before, op);
      FollowConcat(entry, before, BeforeLast(op));
    } else if before != [] {
      assert before + op == before;
      AnswersFit(entry, before);
    }
  }

  /** How many creations, updates and removals there are. */
  function Effects(changes: seq<Change>): nat
    decreases changes
  {
    if changes == [] then 0 else (if changes[0].State? then 0 else 1) + Effects(changes[1..])
  }

  lemma OneEffect(entry: Option<LedgerEntry>, changes: seq<Change>)
    requires Fits(entry, changes) && Effects(changes) == 1
    ensures changes != [] && BeforeLast(changes) == []
  {
    var n := FirstLength(changes);
    FirstFits(entry, changes);
    var rest := changes[n..];
    if changes[0].State? {
      assert changes[1..][1..] == rest;
      assert Effects(changes) == 1 + Effects(rest);
    }
    if rest != [] {
      SomeEffect(Step(entry, changes[n - 1]), rest);
    }
  }

  lemma SomeEffect(entry: Option<LedgerEntry>, changes: seq<Change>)
    requires Fits(entry, changes) && changes != []
    ensures Effects(changes) > 0
  {
  }

  /** If the operation changes the key exactly once, StateBefore is the plain replay up to the operation before. */
  lemma StateBeforeIsReplay(b: Bundle, ledger: LedgerState, key: LedgerKey, opidx: nat)
    requires WellFormed(b, ledger) && opidx < |b.transactionMeta.operations|
    requires Effects(Filtered(b.transactionMeta.operations[opidx], key)) == 1
    ensures LastButOneState(Filtered(Log(b, opidx), key)) == Ok(Get(Replay(ledger, Log(b, opidx - 1)), key))
  {
    var entry, op := Get(Replay(ledger, Log(b, opidx - 1)), key), Filtered(b.transactionMeta.operations[opidx], key);
    OperationFits(b, ledger, key, opidx);
    OneEffect(entry, op);
    AnswersFit(entry, op);
    StateBeforeExactlyWhen(b, ledger, key, opidx);
  }

  /** If it changes the key twice, StateBefore is the state between the two changes, whatever was before. */
  lemma StateBeforeOfTwo(b: Bundle, ledger: LedgerState, key: LedgerKey, opidx: nat, e0: LedgerEntry,
        e1: LedgerEntry, e2: LedgerEntry)
    requires WellFormed(b, ledger) && opidx < |b.transactionMeta.operations|
    requires Filtered(b.transactionMeta.operations[opidx], key) == [State(e0), Updated(e1), State(e1), Updated(e2)]
    ensures LastButOneState(Filtered(Log(b, opidx), key)) == Ok(Some(e1))
    ensures Get(Replay(ledger, Log(b, opidx - 1)), key) == Some(e0)
  {
    var entry, op := Get(Replay(ledger, Log(b, opidx - 1)), key), Filtered(b.transactionMeta.operations[opidx], key);
    OperationFits(b, ledger, key, opidx);
    LogGrows(b, opidx);
    FilteredConcat(Log(b, opidx - 1), b.transactionMeta.operations[opidx], key);
  }

  /** An operation that does not touch the key is skipped: the answer is the one for the operation before. */
  lemma StateBeforeSkips(b: Bundle, key: LedgerKey, opidx: nat)
    requires opidx < |b.transactionMeta.operations|
    requires forall c :: c in b.transactionMeta.operations[opidx] ==> c.Key() != key
    ensures LastButOneState(Filtered(Log(b, opidx), key)) == LastButOneState(Filtered(Log(b, opidx - 1), key))
  {
    LogGrows(b, opidx);
    FilteredConcat(Log(b, opidx - 1), b.transactionMeta.operations[opidx], key);
    FilteredEmpty(b.transactionMeta.operations[opidx], key);
  }

  /** A bundle in which an account pays the fee and an operation does nothing. */
  function FeeBundle(before: LedgerEntry, after: LedgerEntry): Bundle {
    Bundle([State(before), Updated(after)], V0([[]]))
  }

  lemma FeeBundleFits(before: LedgerEntry, after: LedgerEntry, key: LedgerKey)
    requires before.Key() == after.Key()
    ensures Filtered([State(before), Updated(after)], before.Key()) == [State(before), Updated(after)]
    ensures Fits(Get(map[before.Key() := before], key), Filtered([State(before), Updated(after)], key))
  {
    FilteredPair(State(before), Updated(after));
    if key != before.Key() {
      FilteredEmpty([State(before), Updated(after)], key);
    }
  }

  lemma FeeBundleWellFormed(before: LedgerEntry, after: LedgerEntry)
    requires before.Key() == after.Key()
    ensures WellFormed(FeeBundle(before, after), map[before.Key() := before])
  {
    var b, ledger := FeeBundle(before, after), map[before.Key() := before];
    var groups := Groups(b, 1);
    assert groups == [b.feeMeta, [], []];
    forall k, i | 0 <= i < |groups|
      ensures Fits(Get(Replay(ledger, Flatten(groups[..i])), k), Filtered(groups[i], k))
    {
      if i == 0 {
        FeeBundleFits(before, after, k);
      }
    }
  }

  /** So StateBefore is not always the replay up to the operation before: an account that only paid the fee has, before
      the first operation, the balance after the fee, and StateBefore gives the balance before it. */
  lemma StateBeforeMissesFee(before: LedgerEntry, after: LedgerEntry)
    requires before.Key() == after.Key()
    ensures var b, ledger := FeeBundle(before, after), map[before.Key() := before];
      && WellFormed(b, ledger)
      && LastButOneState(Filtered(Log(b, 0), before.Key())) == Ok(Some(before))
      && Get(Replay(ledger, Log(b, -1)), before.Key()) == Some(after)
  {
    var key := before.Key();
    var b, ledger := FeeBundle(before, after), map[key := before];
    FeeBundleWellFormed(before, after);
    FeeBundleFits(before, after, key);
    LogStart(b);
    StateBeforeSkips(b, key, 0);
    ReplayAtKey(ledger, b.feeMeta, key);
    FirstFits(Some(before), b.feeMeta);
    assert b.feeMeta[..2] == b.feeMeta;
  }

  lemma FilteredPair(a: Change, c: Change)
    requires a.Key() == c.Key()
    ensures Filtered([a, c], a.Key()) == [a, c]
  {
    assert [a, c] == [a] + [c] && [] + [a] == [a] && [] + [c] == [c];
    FilteredConcat([], [a], a.Key());
    FilteredConcat([], [c], a.Key());
    FilteredConcat([a], [c], a.Key());
    assert forall d: Change :: [d][..0] == [];
  }
}
