/** The queries of meta/bundle.go against a plain replay of the change log. */
module Meta {
  import opened Ledger
  import opened Wrappers

  /** The changes of a transaction: its fee, then in version 1 the transaction itself, then its operations. */
  datatype TransactionMeta = V0(operations: seq<seq<Change>>) | V1(txChanges: seq<Change>, operations: seq<seq<Change>>)

  datatype Bundle = Bundle(feeMeta: seq<Change>, transactionMeta: TransactionMeta)

  datatype MetaError = MetaNotFound | UnexpectedState

  /** An entry, or nothing if the entry did not exist. */
  type Answer = Result<Option<LedgerEntry>, MetaError>

  const MAX_INT32: int := 0x7fff_ffff

  // ----- what the queries are about -----

  function Flatten(groups: seq<seq<Change>>): seq<Change> {
    if groups == [] then [] else Flatten(groups[..|groups| - 1]) + groups[|groups| - 1]
  }

  /** The operations up to and with number maxOp. */
  function Upto(operations: seq<seq<Change>>, maxOp: int): seq<seq<Change>> {
    if maxOp < 0 then [] else if maxOp < |operations| then operations[..maxOp + 1] else operations
  }

  function TxChanges(b: Bundle): seq<Change> {
    if b.transactionMeta.V1? then b.transactionMeta.txChanges else []
  }

  /** The groups of changes through operation maxOp, each the changes of one step of the transaction. */
  function Groups(b: Bundle, maxOp: int): seq<seq<Change>> {
    [b.feeMeta, TxChanges(b)] + Upto(b.transactionMeta.operations, maxOp)
  }

  /** The change log through operation maxOp. */
  function Log(b: Bundle, maxOp: int): seq<Change> {
    Flatten(Groups(b, maxOp))
  }

  function Filtered(log: seq<Change>, key: LedgerKey): seq<Change> {
    if log == [] then []
    else
      var rest := Filtered(log[..|log| - 1], key);
      var last := log[|log| - 1];
      if last.Key() == key then rest + [last] else rest
  }

  lemma {:induction false} FilteredMembers(log: seq<Change>, key: LedgerKey)
    ensures forall change :: change in Filtered(log, key) <==> change in log && IsAbout(change, key)
  {
    if log == [] {
    } else {
      var last := log[|log| - 1];
      assert log == log[..|log| - 1] + [last];
      FilteredMembers(log[..|log| - 1], key);
      KeyOfChange(last, key);
    }
  }

  /** The answer is an entry with the key that was asked for, or none. */
  predicate Answers(key: LedgerKey, r: Answer) {
    r.Ok? && r.value.Some? ==> Names(key, r.value.value.data)
  }

  // ----- the operations -----

  method FilterChanges(changes: seq<Change>, target: LedgerKey) returns (filtered: seq<Change>)
    ensures filtered == Filtered(changes, target)
    ensures forall change :: change in filtered <==> change in changes && IsAbout(change, target)
  {
    filtered := [];
    for i := 0 to |changes|
      invariant filtered == Filtered(changes[..i], target)
    {
      assert changes[..i + 1][..i] == changes[..i];
      var key := changes[i].Key();
      if !key.Equals(target) {
        continue;
      }
      filtered := filtered + [changes[i]];
    }
    assert changes[..|changes|] == changes;
    FilteredMembers(changes, target);
  }

  method OperationsMetas(b: Bundle) returns (operations: seq<seq<Change>>)
    ensures operations == b.transactionMeta.operations
  {
    match b.transactionMeta
    case V0(ops) => operations := ops;
    case V1(_, ops) => operations := ops;
  }

  method ChangesUpto(b: Bundle, target: LedgerKey, maxOp: int) returns (r: seq<Change>)
    ensures r == Filtered(Log(b, maxOp), target)
  {
    var all := b.feeMeta;
    if b.transactionMeta.V1? {
      all := all + b.transactionMeta.txChanges;
    }
    LogStart(b);
    var operations := OperationsMetas(b);
    var i := 0;
    while i < |operations|
      invariant 0 <= i <= |operations| && (i > 0 ==> i - 1 <= maxOp)
      invariant all == Log(b, i - 1)
    {
      if i > maxOp {
        break;
      }
      LogGrows(b, i);
      all := all + operations[i];
      i := i + 1;
    }
    assert Upto(operations, maxOp) == Upto(operations, i - 1);
    r := FilterChanges(all, target);
  }

  lemma LogStart(b: Bundle)
    ensures Log(b, -1) == b.feeMeta + TxChanges(b)
  {
    var two := [b.feeMeta, TxChanges(b)];
    assert Groups(b, -1) == two;
    assert two[..1] == [b.feeMeta] && [b.feeMeta][..0] == [];
    assert Flatten([b.feeMeta]) == [] + b.feeMeta;
  }

  lemma LogGrows(b: Bundle, i: nat)
    requires i < |b.transactionMeta.operations|
    ensures Log(b, i) == Log(b, i - 1) + b.transactionMeta.operations[i]
  {
    var g := Groups(b, i);
    assert g[..|g| - 1] == Groups(b, i - 1);
  }

  method Changes(b: Bundle, target: LedgerKey) returns (r: seq<Change>)
    ensures r == Filtered(Log(b, MAX_INT32), target)
  {
    r := ChangesUpto(b, target, MAX_INT32);
  }

  /** The state named by the first of the changes of a key. */
  function FirstState(all: seq<Change>): Answer {
    if all == [] then Err(MetaNotFound)
    else if all[0].State? then Ok(Some(all[0].entry)) else Ok(None)
  }

  method InitialState(b: Bundle, key: LedgerKey) returns (r: Answer)
    ensures r == FirstState(Filtered(Log(b, MAX_INT32), key)) && Answers(key, r)
  {
    var all := Changes(b, key);
    FilteredMembers(Log(b, MAX_INT32), key);
    if |all| == 0 {
      return Err(MetaNotFound);
    }
    assert all[0] in all;
    var first := all[0];
    if !first.State? {
      return Ok(None);
    }
    return Ok(Some(first.entry));
  }

  function LastState(all: seq<Change>): Answer {
    if all == [] then Err(MetaNotFound)
    else match all[|all| - 1]
      case Created(e) => Ok(Some(e))
      case Removed(_) => Ok(None)
      case Updated(e) => Ok(Some(e))
      case State(_) => Err(UnexpectedState)
  }

  method StateAfter(b: Bundle, key: LedgerKey, opidx: int) returns (r: Answer)
    ensures r == LastState(Filtered(Log(b, opidx), key)) && Answers(key, r)
  {
    var all := ChangesUpto(b, key, opidx);
    FilteredMembers(Log(b, opidx), key);
    if |all| == 0 {
      return Err(MetaNotFound);
    }
    assert all[|all| - 1] in all;
    match all[|all| - 1]
    case Created(e) => return Ok(Some(e));
    case Removed(_) => return Ok(None);
    case Updated(e) => return Ok(Some(e));
    case State(_) => return Err(UnexpectedState);
  }

  function LastButOneState(all: seq<Change>): Answer {
    if all == [] then Err(MetaNotFound)
    else if |all| == 1 then Ok(None)
    else match all[|all| - 2]
      case Created(e) => Ok(Some(e))
      case Removed(_) => Ok(None)
      case Updated(e) => Ok(Some(e))
      case State(e) => Ok(Some(e))
  }

  method StateBefore(b: Bundle, key: LedgerKey, opidx: int) returns (r: Answer)
    ensures r == LastButOneState(Filtered(Log(b, opidx), key)) && Answers(key, r)
  {
    var all := ChangesUpto(b, key, opidx);
    FilteredMembers(Log(b, opidx), key);
    if |all| == 0 {
      return Err(MetaNotFound);
    }
    if |all| == 1 {
      return Ok(None);
    }
    assert all[|all| - 2] in all;
    match all[|all| - 2]
    case Created(e) => return Ok(Some(e));
    case Removed(_) => return Ok(None);
    case Updated(e) => return Ok(Some(e));
    case State(e) => return Ok(Some(e));
  }
}
