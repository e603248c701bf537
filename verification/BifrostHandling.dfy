/** What the handlers and listeners of the bridge make of the tables when nobody else is at work. */
module BifrostHandling {
  import Amount
  import opened BifrostTables
  import opened Wrappers

  /** A payment to an address: an output of a Bitcoin transaction, or an Ethereum transaction. */
  datatype Deposit = Deposit(txId: string, value: int, to: string)

  function KeyOf(chain: Chain, d: Deposit): TxKey {
    TxKey(chain, d.txId)
  }

  function ValueToStellar(chain: Chain, value: int): string {
    match chain
    case Bitcoin => Amount.BtcValueToStellar(value)
    case Ethereum => Amount.EthValueToStellar(value)
  }

  function RowFor(chain: Chain, d: Deposit, publicKey: string): QueueRow {
    QueueRow(d.txId, CodeOf(chain), ValueToStellar(chain, d.value), publicKey, false)
  }

  /** What becomes of the three calls that a handler can make. */
  datatype Faults = Faults(lookup: Outcome, add: Outcome, enqueue: Outcome)

  const WORKS := Faults(Done, Done, Done)

  /** The tables after a call, and whether the call returned no error. */
  datatype Handled = Handled(tables: Tables, ok: bool)

  function Handle(t: Tables, minimum: int, chain: Chain, d: Deposit, f: Faults): Handled {
    if d.value < minimum then Handled(t, true)
    else if !f.lookup.Done? then Handled(t, false)
    else match FindIn(t.associations, chain, d.to)
      case None => Handled(t, true)
      case Some(a) =>
        if f.add.FailedBefore? then Handled(t, false)
        else
          var added := AddProcessed(t, KeyOf(chain, d), d.to);
          if f.add.FailedAfter? then Handled(added, false)
          else if IsProcessed(t, KeyOf(chain, d)) then Handled(t, true)
          else if f.enqueue.FailedBefore? then Handled(added, false)
          else Handled(Enqueue(added, RowFor(chain, d, a.publicKey)), f.enqueue.Done?)
  }

  /** A block's deposits one after the other, up to the first error. */
  function HandleAll(t: Tables, minimum: int, chain: Chain, ds: seq<Deposit>, fs: seq<Faults>): Handled
    requires |ds| <= |fs|
  {
    if ds == [] then Handled(t, true)
    else
      var n := |ds| - 1;
      var h := HandleAll(t, minimum, chain, ds[..n], fs);
      if h.ok then Handle(h.tables, minimum, chain, ds[n], fs[n]) else h
  }

  lemma {:induction false} ErrorStays(t: Tables, minimum: int, chain: Chain, ds: seq<Deposit>, more: seq<Deposit>,
        fs: seq<Faults>)
    requires |ds| + |more| <= |fs| && !HandleAll(t, minimum, chain, ds, fs).ok
    ensures HandleAll(t, minimum, chain, ds + more, fs) == HandleAll(t, minimum, chain, ds, fs)
    decreases more
  {
    if more == [] {
      assert ds + more == ds;
    } else {
      assert (ds + more)[..|ds + more| - 1] == ds + more[..|more| - 1];
      ErrorStays(t, minimum, chain, ds, more[..|more| - 1], fs);
    }
  }

  // ----- handling again -----

  /** A deposit that no handler will do anything about. */
  predicate Settled(t: Tables, minimum: int, chain: Chain, d: Deposit) {
    d.value < minimum || FindIn(t.associations, chain, d.to).None? || IsProcessed(t, KeyOf(chain, d))
  }

  lemma SettledStays(t: Tables, minimum: int, chain: Chain, d: Deposit, e: Deposit, f: Faults)
    requires Settled(t, minimum, chain, d)
    ensures Settled(Handle(t, minimum, chain, e, f).tables, minimum, chain, d)
  {
    var after := Handle(t, minimum, chain, e, f).tables;
    if IsProcessed(t, KeyOf(chain, d)) {
      var i :| 0 <= i < |t.processed| && t.processed[i].key == KeyOf(chain, d);
      assert after.processed[i].key == KeyOf(chain, d);
    }
  }

  lemma HandledSettles(t: Tables, minimum: int, chain: Chain, d: Deposit, f: Faults)
    requires Handle(t, minimum, chain, d, f).ok
    ensures Settled(Handle(t, minimum, chain, d, f).tables, minimum, chain, d)
  {
    var added := AddProcessed(t, KeyOf(chain, d), d.to);
    if !IsProcessed(t, KeyOf(chain, d)) {
      assert added.processed[|t.processed|].key == KeyOf(chain, d);
    }
    assert IsProcessed(added, KeyOf(chain, d));
  }

  lemma {:induction false} BlockSettles(t: Tables, minimum: int, chain: Chain, ds: seq<Deposit>, fs: seq<Faults>)
    requires |ds| <= |fs| && HandleAll(t, minimum, chain, ds, fs).ok
    ensures forall d :: d in ds ==> Settled(HandleAll(t, minimum, chain, ds, fs).tables, minimum, chain, d)
  {
    if ds == [] {
    } else {
      var n := |ds| - 1;
      var before := HandleAll(t, minimum, chain, ds[..n], fs).tables;
      BlockSettles(t, minimum, chain, ds[..n], fs);
      HandledSettles(before, minimum, chain, ds[n], fs[n]);
      forall d | d in ds
        ensures Settled(HandleAll(t, minimum, chain, ds, fs).tables, minimum, chain, d)
      {
        if d != ds[n] {
          assert ds == ds[..n] + [ds[n]];
          SettledStays(before, minimum, chain, d, ds[n], fs[n]);
        }
      }
    }
  }

  lemma SettledDeposit(t: Tables, minimum: int, chain: Chain, d: Deposit, f: Faults)
    requires Settled(t, minimum, chain, d)
    ensures Handle(t, minimum, chain, d, f).tables == t
  {
  }

  lemma {:induction false} SettledBlock(t: Tables, minimum: int, chain: Chain, ds: seq<Deposit>, fs: seq<Faults>)
    requires |ds| <= |fs| && forall d :: d in ds ==> Settled(t, minimum, chain, d)
    ensures HandleAll(t, minimum, chain, ds, fs).tables == t
  {
    if ds == [] {
    } else {
      var n := |ds| - 1;
      assert ds == ds[..n] + [ds[n]];
      SettledBlock(t, minimum, chain, ds[..n], fs);
      SettledDeposit(t, minimum, chain, ds[n], fs[n]);
    }
  }

  /** A block that was handled without error can be handled again, in whole or in part, with any faults: the tables stay
      as they are. */
  lemma RedeliveryChangesNothing(t: Tables, minimum: int, chain: Chain, ds: seq<Deposit>, fs: seq<Faults>,
        again: seq<Deposit>, gs: seq<Faults>)
    requires |ds| <= |fs| && |again| <= |gs| && HandleAll(t, minimum, chain, ds, fs).ok
    requires forall d :: d in again ==> d in ds
    ensures var done := HandleAll(t, minimum, chain, ds, fs).tables;
      HandleAll(done, minimum, chain, again, gs).tables == done
  {
    BlockSettles(t, minimum, chain, ds, fs);
    SettledBlock(HandleAll(t, minimum, chain, ds, fs).tables, minimum, chain, again, gs);
  }

  /** A transaction with several outputs is credited for the first one that pays an associated address enough. */
  lemma LaterOutputsIgnored(t: Tables, minimum: int, chain: Chain, d: Deposit, e: Deposit, f: Faults, g: Faults)
    requires d.txId == e.txId && d.value >= minimum && FindIn(t.associations, chain, d.to).Some?
    requires Handle(t, minimum, chain, d, f).ok
    ensures Handle(Handle(t, minimum, chain, d, f).tables, minimum, chain, e, g).tables
      == Handle(t, minimum, chain, d, f).tables
  {
    HandledSettles(t, minimum, chain, d, f);
    assert KeyOf(chain, d) == KeyOf(chain, e);
  }

  // ----- listeners -----

  /** What the chain's client delivers: a block's number and its deposits. Bitcoin's blocks do not show their number,
      and nobody looks at it. */
  datatype Block = Block(number: nat, deposits: seq<Deposit>)

  /** One turn of a listener's loop: the block fetched, if any, and what becomes of the calls. */
  datatype Turn = Turn(fetched: Option<Block>, faults: seq<Faults>, save: Outcome)

  predicate ValidTurn(turn: Turn) {
    turn.fetched.Some? ==> |turn.fetched.value.deposits| <= |turn.faults|
  }

  /** Where a listener stands: the tables and the block it asks for. */
  datatype Standing = Standing(tables: Tables, cursor: nat)

  function SaveIf(t: Tables, chain: Chain, block: nat, save: Outcome): Tables {
    if save.FailedBefore? then t else SaveBlock(t, chain, block)
  }

  /** Nothing happens without a block, or with Ethereum's block zero, which means that the node is not synced. A block
      with an error is tried again. What is saved is the number asked for, whatever the number of the block. */
  function TakeTurn(s: Standing, minimum: int, chain: Chain, turn: Turn): Standing
    requires ValidTurn(turn)
  {
    match turn.fetched
    case None => s
    case Some(block) =>
      if chain.Ethereum? && block.number == 0 then s
      else
        var h := HandleAll(s.tables, minimum, chain, block.deposits, turn.faults);
        if !h.ok then Standing(h.tables, s.cursor)
        else Standing(SaveIf(h.tables, chain, s.cursor, turn.save),
                      if chain.Ethereum? then block.number + 1 else s.cursor + 1)
  }

  function TakeTurns(s: Standing, minimum: int, chain: Chain, turns: seq<Turn>): Standing
    requires forall i :: 0 <= i < |turns| ==> ValidTurn(turns[i])
  {
    if turns == [] then s
    else TakeTurn(TakeTurns(s, minimum, chain, turns[..|turns| - 1]), minimum, chain, turns[|turns| - 1])
  }

  // ----- addresses -----

  /** The address made for an index of a chain, if one can be made. */
  type Generator = (Chain, nat) -> Option<string>

  /** The answer to a request for an address: an index is taken, and the address for it is bound to the key. */
  datatype Generated = Generated(tables: Tables, address: Option<string>)

  function Generate(t: Tables, chain: Chain, publicKey: string, accepted: bool, generate: Generator, take: Outcome,
        create: Outcome): Generated
  {
    if !accepted || take.FailedBefore? then Generated(t, None)
    else
      var taken := IncrementIndex(t, chain);
      var index := IndexAfter(t, chain);
      if t.indices.Of(chain) >= UINT32 || take.FailedAfter? || generate(chain, index).None? then Generated(taken, None)
      else
        var a := Association(chain, index, generate(chain, index).value, publicKey);
        Generated(if create.FailedBefore? then taken else Associate(taken, a),
          if create.Done? && MayAssociate(taken, a) then Some(a.address) else None)
  }

  // ----- the queue -----

  /** The tables after some turns of the loop that empties the queue, and the rows it has started. */
  datatype Pooled = Pooled(tables: Tables, started: seq<QueueRow>)

  function PoolTurns(t: Tables, outcomes: seq<Outcome>): Pooled {
    if outcomes == [] then Pooled(t, [])
    else
      var before := PoolTurns(t, outcomes[..|outcomes| - 1]);
      var outcome := outcomes[|outcomes| - 1];
      var head := HeadOf(before.tables.queue);
      Pooled(
        if outcome.FailedBefore? then before.tables else Pool(before.tables),
        if outcome.Done? && head.Some? then before.started + [before.tables.queue[head.value]] else before.started)
  }

  /** The rows that were started stood in the queue at these increasing places, not pooled; now they are pooled, and so
      is everything before them. Apart from that the queue is as it was. */
  predicate Taken(was: seq<QueueRow>, now: seq<QueueRow>, started: seq<QueueRow>, ids: seq<nat>) {
    && |started| == |ids| && |was| == |now|
    && (forall i, j :: 0 <= i < j < |ids| ==> ids[i] < ids[j])
    && (forall k :: 0 <= k < |ids| ==> ids[k] < |was| && started[k] == was[ids[k]] && !was[ids[k]].pooled)
    && (forall k, i :: 0 <= k < |ids| && 0 <= i <= ids[k] < |now| ==> now[i].pooled)
    && (forall i :: 0 <= i < |now| ==> now[i] == was[i] || now[i] == was[i].(pooled := true))
  }

  lemma TakeHead(was: seq<QueueRow>, now: seq<QueueRow>, started: seq<QueueRow>, ids: seq<nat>)
    requires DistinctRows(now) && Taken(was, now, started, ids) && HeadOf(now).Some?
    ensures var i := HeadOf(now).value;
      var next := MarkPooled(now, now[i].txId, now[i].asset);
      && DistinctRows(next)
      && Taken(was, next, started, ids)
      && Taken(was, next, started + [now[i]], ids + [i])
  {
    PoolHead(now);
    var i := HeadOf(now).value;
    assert now[i] == was[i];
    assert forall k :: 0 <= k < |ids| ==> ids[k] < i;
  }

  /** Where rows are distinct, taking the head marks the first row that is not pooled, and no other. */
  lemma PoolHead(queue: seq<QueueRow>)
    requires DistinctRows(queue)
    ensures HeadOf(queue).Some? ==>
      var i := HeadOf(queue).value;
      MarkPooled(queue, queue[i].txId, queue[i].asset) == queue[i := queue[i].(pooled := true)]
  {
  }

  /** The rows that are started stand in the queue in this order, each is started once, and none can be started
      again. */
  lemma {:induction false} StartedOnce(t: Tables, outcomes: seq<Outcome>) returns (ids: seq<nat>)
    requires DistinctRows(t.queue)
    ensures DistinctRows(PoolTurns(t, outcomes).tables.queue)
    ensures Taken(t.queue, PoolTurns(t, outcomes).tables.queue, PoolTurns(t, outcomes).started, ids)
    decreases outcomes
  {
    if outcomes == [] {
      ids := [];
    } else {
      var n := |outcomes| - 1;
      ids := StartedOnce(t, outcomes[..n]);
      var before := PoolTurns(t, outcomes[..n]);
      var head := HeadOf(before.tables.queue);
      if head.Some? {
        TakeHead(t.queue, before.tables.queue, before.started, ids);
        if outcomes[n].Done? {
          ids := ids + [head.value];
        }
      }
    }
  }
}
