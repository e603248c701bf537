/** Which change decides the answer of a query of meta/bundle.go: for every bundle, whether its log is well-formed or
    not, and said of the fields of its entries. */
module MetaQueries {
  import opened Ledger
  import opened Meta
  import opened Wrappers

  // ----- the log -----

  /** The log is the changes of the fee, then those of the transaction, which only version 1 has, then those of the
      operations, one after the other, up to the one that was asked for. */
  lemma LogInOrder(b: Bundle, maxOp: int)
    ensures maxOp < 0 ==>
      Log(b, maxOp) == b.feeMeta + if b.transactionMeta.V0? then [] else b.transactionMeta.txChanges
    ensures 0 <= maxOp < |b.transactionMeta.operations| ==>
      Log(b, maxOp) == Log(b, maxOp - 1) + b.transactionMeta.operations[maxOp]
    ensures |b.transactionMeta.operations| <= maxOp ==> Log(b, maxOp) == Log(b, |b.transactionMeta.operations| - 1)
  {
    LogStart(b);
    if 0 <= maxOp < |b.transactionMeta.operations| {
      LogGrows(b, maxOp);
    }
    assert b.transactionMeta.operations[..|b.transactionMeta.operations|] == b.transactionMeta.operations;
  }

  // ----- the changes of a key -----

  /** The changes that are looked at are those about the entry with this key, all of them, in their order. */
  lemma {:induction false} FilteredInOrder(log: seq<Change>, key: LedgerKey) returns (ids: seq<nat>)
    ensures forall k :: 0 <= k < |ids| ==> ids[k] < |log|
    ensures forall k, m :: 0 <= k < m < |ids| ==> ids[k] < ids[m]
    ensures forall i :: 0 <= i < |log| ==> (i in ids <==> IsAbout(log[i], key))
    ensures |Filtered(log, key)| == |ids|
    ensures forall k :: 0 <= k < |ids| ==> Filtered(log, key)[k] == log[ids[k]]
  {
    if log == [] {
      ids := [];
    } else {
      var n := |log| - 1;
      ids := FilteredInOrder(log[..n], key);
      KeyOfChange(log[n], key);
      assert n !in ids;
      if IsAbout(log[n], key) {
        ids := ids + [n];
      }
    }
  }

  predicate NoneAbout(log: seq<Change>, key: LedgerKey, from: nat, to: nat)
    requires to <= |log|
  {
    forall i :: from <= i < to ==> !IsAbout(log[i], key)
  }

  // ----- the change that decides -----

  /** What a change says about its entry from then on. */
  function Says(change: Change): Answer {
    match change
    case Created(e) => Ok(Some(e))
    case Updated(e) => Ok(Some(e))
    case Removed(_) => Ok(None)
    case State(e) => Ok(Some(e))
  }

  /** Without a change of the key every query answers that there is none. */
  lemma {:induction false} NotFound(log: seq<Change>, key: LedgerKey)
    requires NoneAbout(log, key, 0, |log|)
    ensures var all := Filtered(log, key);
      FirstState(all) == LastState(all) == LastButOneState(all) == Err(MetaNotFound)
  {
    if log == [] {
    } else {
      NotFound(log[..|log| - 1], key);
      KeyOfChange(log[|log| - 1], key);
    }
  }

  /** InitialState answers with the first change of the key, if that is a state; if it is another change there was no
      entry. */
  lemma FirstDecides(log: seq<Change>, key: LedgerKey, i: nat)
    requires i < |log| && IsAbout(log[i], key) && NoneAbout(log, key, 0, i)
    ensures FirstState(Filtered(log, key)) == if log[i].State? then Ok(Some(log[i].entry)) else Ok(None)
  {
    var ids := FilteredInOrder(log, key);
    var k :| 0 <= k < |ids| && ids[k] == i;
    assert ids[0] in ids;
  }

  /** StateAfter answers with the last change of the key; a state there is the panic. */
  lemma LastDecides(log: seq<Change>, key: LedgerKey, i: nat)
    requires i < |log| && IsAbout(log[i], key) && NoneAbout(log, key, i + 1, |log|)
    ensures LastState(Filtered(log, key)) == if log[i].State? then Err(UnexpectedState) else Says(log[i])
  {
    var ids := FilteredInOrder(log, key);
    var k :| 0 <= k < |ids| && ids[k] == i;
    assert ids[|ids| - 1] in ids;
  }

  /** StateBefore answers with the last but one. */
  lemma LastButOneDecides(log: seq<Change>, key: LedgerKey, i: nat, j: nat)
    requires i < j < |log| && IsAbout(log[i], key) && IsAbout(log[j], key)
    requires NoneAbout(log, key, i + 1, j) && NoneAbout(log, key, j + 1, |log|)
    ensures LastButOneState(Filtered(log, key)) == Says(log[i])
  {
    var ids := FilteredInOrder(log, key);
    var k :| 0 <= k < |ids| && ids[k] == i;
    var m :| 0 <= m < |ids| && ids[m] == j;
    assert ids[|ids| - 1] in ids && ids[k + 1] in ids;
  }

  /** If there is only one, StateBefore answers that there was no entry. */
  lemma OnlyOneDecides(log: seq<Change>, key: LedgerKey, i: nat)
    requires i < |log| && IsAbout(log[i], key) && NoneAbout(log, key, 0, i) && NoneAbout(log, key, i + 1, |log|)
    ensures LastButOneState(Filtered(log, key)) == Ok(None)
  {
    var ids := FilteredInOrder(log, key);
    var k :| 0 <= k < |ids| && ids[k] == i;
    assert ids[0] in ids && ids[|ids| - 1] in ids;
  }
}
