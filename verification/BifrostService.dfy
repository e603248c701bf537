/** What the bridge does for its users when its calls work, and what it leaves behind when one fails: said of the
    tables alone. */
module BifrostService {
  import Amount
  import opened BifrostHandling
  import opened BifrostTables

  // ----- a deposit -----

  /** An association of this chain has the address. */
  predicate IsBound(t: Tables, chain: Chain, address: string) {
    exists a :: a in t.associations && a.chain == chain && a.address == address
  }

  predicate IsRecorded(t: Tables, chain: Chain, txId: string) {
    exists r :: r in t.processed && r.key == TxKey(chain, txId)
  }

  /** Large enough, paid to an associated address, and not recorded yet. */
  predicate IsDue(t: Tables, minimum: int, chain: Chain, d: Deposit) {
    d.value >= minimum && IsBound(t, chain, d.to) && !IsRecorded(t, chain, d.txId)
  }

  /** What must be paid out for a deposit. */
  function PaymentRow(chain: Chain, d: Deposit, publicKey: string): QueueRow {
    match chain
    case Bitcoin => QueueRow(d.txId, BTC, Amount.BtcValueToStellar(d.value), publicKey, false)
    case Ethereum => QueueRow(d.txId, ETH, Amount.EthValueToStellar(d.value), publicKey, false)
  }

  lemma RecordedIsProcessed(t: Tables, chain: Chain, txId: string)
    ensures IsRecorded(t, chain, txId) <==> IsProcessed(t, TxKey(chain, txId))
  {
    if IsProcessed(t, TxKey(chain, txId)) {
      var i :| 0 <= i < |t.processed| && t.processed[i].key == TxKey(chain, txId);
      assert t.processed[i] in t.processed;
    }
  }

  lemma WaitsIsQueued(t: Tables, row: QueueRow)
    ensures IsQueued(t, row.txId, row.asset) <==> exists r :: r in t.queue && r.txId == row.txId && r.asset == row.asset
  {
    if IsQueued(t, row.txId, row.asset) {
      var i :| 0 <= i < |t.queue| && t.queue[i].txId == row.txId && t.queue[i].asset == row.asset;
      assert t.queue[i] in t.queue;
    }
  }

  /** When all calls work, a deposit that is due is recorded, for the address it was paid to, and its row comes into the
      queue, for the key of that address, unless the queue has a row for this payment already. */
  lemma DepositQueued(t: Tables, minimum: int, chain: Chain, d: Deposit) returns (a: Association)
    requires IsDue(t, minimum, chain, d)
    ensures a in t.associations && a.chain == chain && a.address == d.to
    ensures var h, row := Handle(t, minimum, chain, d, WORKS), PaymentRow(chain, d, a.publicKey);
      var waits := exists r :: r in t.queue && r.txId == row.txId && r.asset == row.asset;
      && h.ok
      && h.tables == t.(processed := t.processed + [Processed(TxKey(chain, d.txId), d.to)],
                        queue := if waits then t.queue else t.queue + [row])
  {
    a := FindIn(t.associations, chain, d.to).value;
    RecordedIsProcessed(t, chain, d.txId);
    WaitsIsQueued(t, PaymentRow(chain, d, a.publicKey));
  }

  /** For a deposit that is due, the handler returns without error exactly if all three calls worked. The record is
      there as soon as the second call made it, and the row as soon as the third one did. */
  lemma FaultyHandler(t: Tables, minimum: int, chain: Chain, d: Deposit, f: Faults)
    requires IsDue(t, minimum, chain, d)
    ensures var h, done := Handle(t, minimum, chain, d, f), Handle(t, minimum, chain, d, WORKS).tables;
      && (h.ok <==> f == WORKS)
      && h.tables == (if !f.lookup.Done? || f.add.FailedBefore? then t
                      else if f.add.FailedAfter? || f.enqueue.FailedBefore? then t.(processed := done.processed)
                      else done)
  {
    RecordedIsProcessed(t, chain, d.txId);
  }

  /** A deposit that is not due changes nothing, whatever fails; and the handler looks no further than it must. */
  lemma NotDue(t: Tables, minimum: int, chain: Chain, d: Deposit, f: Faults)
    requires !IsDue(t, minimum, chain, d)
    ensures var h := Handle(t, minimum, chain, d, f);
      && h.tables == t
      && (h.ok <==> d.value < minimum || (f.lookup.Done? && (IsBound(t, chain, d.to) ==> f.add.Done?)))
  {
    RecordedIsProcessed(t, chain, d.txId);
  }

  // ----- listeners -----

  predicate AllWork(fs: seq<Faults>) {
    forall i :: 0 <= i < |fs| ==> fs[i] == WORKS
  }

  /** Nothing but the records and the queue has changed, and they have only grown; and whatever was recorded since has a
      row in the queue. */
  ghost predicate Serves(chain: Chain, t: Tables, after: Tables) {
    && after.associations == t.associations && after.indices == t.indices
    && t.processed <= after.processed && t.queue <= after.queue
    && forall key :: IsProcessed(after, key) && !IsProcessed(t, key) ==>
         key.chain == chain && IsQueued(after, key.txId, CodeOf(chain))
  }

  lemma RecordsStay(t: Tables, after: Tables, key: TxKey, asset: AssetCode)
    requires t.processed <= after.processed && t.queue <= after.queue
    ensures IsProcessed(t, key) ==> IsProcessed(after, key)
    ensures IsQueued(t, key.txId, asset) ==> IsQueued(after, key.txId, asset)
  {
    if IsProcessed(t, key) {
      var i :| 0 <= i < |t.processed| && t.processed[i].key == key;
      assert after.processed[i].key == key;
    }
    if IsQueued(t, key.txId, asset) {
      var i :| 0 <= i < |t.queue| && t.queue[i].txId == key.txId && t.queue[i].asset == asset;
      assert after.queue[i] == t.queue[i];
    }
  }

  lemma ServesOn(chain: Chain, t: Tables, mid: Tables, after: Tables)
    requires Serves(chain, t, mid) && Serves(chain, mid, after)
    ensures Serves(chain, t, after)
  {
    forall key | IsProcessed(after, key) && !IsProcessed(t, key)
      ensures key.chain == chain && IsQueued(after, key.txId, CodeOf(chain))
    {
      RecordsStay(mid, after, key, CodeOf(chain));
    }
  }

  lemma HandlerServes(t: Tables, minimum: int, chain: Chain, d: Deposit)
    ensures var h := Handle(t, minimum, chain, d, WORKS);
      && h.ok && Serves(chain, t, h.tables) && h.tables.blocks == t.blocks
      && (d.value >= minimum && IsBound(t, chain, d.to) ==> IsProcessed(h.tables, KeyOf(chain, d)))
  {
    var after := Handle(t, minimum, chain, d, WORKS).tables;
    RecordedIsProcessed(t, chain, d.txId);
    if IsDue(t, minimum, chain, d) {
      var a := DepositQueued(t, minimum, chain, d);
      WaitsIsQueued(t, PaymentRow(chain, d, a.publicKey));
      assert after.processed[|t.processed|].key == KeyOf(chain, d);
      RecordsStay(t, after, KeyOf(chain, d), CodeOf(chain));
      if after.queue != t.queue {
        assert after.queue[|t.queue|] == PaymentRow(chain, d, a.publicKey);
      }
    } else {
      NotDue(t, minimum, chain, d, WORKS);
    }
  }

  /** A block whose calls all work is handled without error: each of its deposits that is large enough and paid to an
      associated address is recorded, and what is recorded for the first time is queued. */
  lemma {:induction false} FaultlessBlock(t: Tables, minimum: int, chain: Chain, ds: seq<Deposit>, fs: seq<Faults>)
    requires |ds| <= |fs| && AllWork(fs)
    ensures var h := HandleAll(t, minimum, chain, ds, fs);
      && h.ok && Serves(chain, t, h.tables) && h.tables.blocks == t.blocks
      && forall d :: d in ds && d.value >= minimum && IsBound(t, chain, d.to) ==> IsProcessed(h.tables, KeyOf(chain, d))
    decreases |ds|
  {
    if ds == [] {
    } else {
      var n := |ds| - 1;
      var mid := HandleAll(t, minimum, chain, ds[..n], fs).tables;
      FaultlessBlock(t, minimum, chain, ds[..n], fs);
      HandlerServes(mid, minimum, chain, ds[n]);
      var after := Handle(mid, minimum, chain, ds[n], WORKS).tables;
      ServesOn(chain, t, mid, after);
      forall d | d in ds && d.value >= minimum && IsBound(t, chain, d.to)
        ensures IsProcessed(after, KeyOf(chain, d))
      {
        assert ds == ds[..n] + [ds[n]];
        RecordsStay(mid, after, KeyOf(chain, d), CodeOf(chain));
      }
    }
  }

  /** A handler leaves other transactions alone. */
  lemma OthersUntouched(t: Tables, minimum: int, chain: Chain, d: Deposit, txId: string)
    requires d.txId == txId ==> d.value < minimum || !IsBound(t, chain, d.to)
    ensures var after := Handle(t, minimum, chain, d, WORKS).tables;
      && after.associations == t.associations
      && (IsProcessed(after, TxKey(chain, txId)) <==> IsProcessed(t, TxKey(chain, txId)))
      && (IsQueued(after, txId, CodeOf(chain)) <==> IsQueued(t, txId, CodeOf(chain)))
  {
    var after := Handle(t, minimum, chain, d, WORKS).tables;
    RecordsStay(t, after, TxKey(chain, txId), CodeOf(chain));
    if !IsDue(t, minimum, chain, d) {
      NotDue(t, minimum, chain, d, WORKS);
    }
  }

  lemma {:induction false} BlockUntouched(t: Tables, minimum: int, chain: Chain, ds: seq<Deposit>, fs: seq<Faults>,
        txId: string)
    requires |ds| <= |fs| && AllWork(fs)
    requires forall d :: d in ds && d.txId == txId ==> d.value < minimum || !IsBound(t, chain, d.to)
    ensures var after := HandleAll(t, minimum, chain, ds, fs).tables;
      && after.associations == t.associations
      && (IsProcessed(after, TxKey(chain, txId)) <==> IsProcessed(t, TxKey(chain, txId)))
      && (IsQueued(after, txId, CodeOf(chain)) <==> IsQueued(t, txId, CodeOf(chain)))
    decreases |ds|
  {
    if ds == [] {
    } else {
      var n := |ds| - 1;
      FaultlessBlock(t, minimum, chain, ds[..n], fs);
      BlockUntouched(t, minimum, chain, ds[..n], fs, txId);
      OthersUntouched(HandleAll(t, minimum, chain, ds[..n], fs).tables, minimum, chain, ds[n], txId);
    }
  }

  lemma {:induction false} RowsStay(t: Tables, minimum: int, chain: Chain, ds: seq<Deposit>, fs: seq<Faults>, m: nat)
    requires m <= |ds| <= |fs| && AllWork(fs)
    ensures HandleAll(t, minimum, chain, ds[..m], fs).tables.queue <= HandleAll(t, minimum, chain, ds, fs).tables.queue
    decreases |ds|
  {
    if m == |ds| {
      assert ds[..m] == ds;
    } else {
      var n := |ds| - 1;
      assert ds[..n][..m] == ds[..m];
      RowsStay(t, minimum, chain, ds[..n], fs, m);
      FaultlessBlock(t, minimum, chain, ds[..n], fs);
      HandlerServes(HandleAll(t, minimum, chain, ds[..n], fs).tables, minimum, chain, ds[n]);
    }
  }

  /** Of the deposits of one transaction in a block it is the first one that is due whose row comes into the queue, with
      its value, for the key of the address that it was paid to. */
  lemma FirstDueIsQueued(t: Tables, minimum: int, chain: Chain, ds: seq<Deposit>, fs: seq<Faults>, i: nat)
    returns (a: Association)
    requires i < |ds| <= |fs| && AllWork(fs) && IsDue(t, minimum, chain, ds[i])
    requires forall j :: 0 <= j < i && ds[j].txId == ds[i].txId ==> !IsDue(t, minimum, chain, ds[j])
    requires forall r :: r in t.queue ==> r.txId != ds[i].txId || r.asset != CodeOf(chain)
    ensures a in t.associations && a.chain == chain && a.address == ds[i].to
    ensures PaymentRow(chain, ds[i], a.publicKey) in HandleAll(t, minimum, chain, ds, fs).tables.queue
  {
    a := QueuedAtOnce(t, minimum, chain, ds, fs, i);
    RowsStay(t, minimum, chain, ds, fs, i + 1);
  }

  lemma QueuedAtOnce(t: Tables, minimum: int, chain: Chain, ds: seq<Deposit>, fs: seq<Faults>, i: nat)
    returns (a: Association)
    requires i < |ds| <= |fs| && AllWork(fs) && IsDue(t, minimum, chain, ds[i])
    requires forall j :: 0 <= j < i && ds[j].txId == ds[i].txId ==> !IsDue(t, minimum, chain, ds[j])
    requires forall r :: r in t.queue ==> r.txId != ds[i].txId || r.asset != CodeOf(chain)
    ensures a in t.associations && a.chain == chain && a.address == ds[i].to
    ensures PaymentRow(chain, ds[i], a.publicKey) in HandleAll(t, minimum, chain, ds[..i + 1], fs).tables.queue
  {
    var mid := HandleAll(t, minimum, chain, ds[..i], fs).tables;
    StillDue(t, minimum, chain, ds, fs, i);
    a := DepositQueued(mid, minimum, chain, ds[i]);
    WaitsIsQueued(mid, PaymentRow(chain, ds[i], a.publicKey));
    assert ds[..i + 1][..i] == ds[..i];
    var queue := HandleAll(t, minimum, chain, ds[..i + 1], fs).tables.queue;
    assert queue[|queue| - 1] == PaymentRow(chain, ds[i], a.publicKey);
  }

  lemma StillDue(t: Tables, minimum: int, chain: Chain, ds: seq<Deposit>, fs: seq<Faults>, i: nat)
    requires i < |ds| <= |fs| && AllWork(fs) && IsDue(t, minimum, chain, ds[i])
    requires forall j :: 0 <= j < i && ds[j].txId == ds[i].txId ==> !IsDue(t, minimum, chain, ds[j])
    requires forall r :: r in t.queue ==> r.txId != ds[i].txId || r.asset != CodeOf(chain)
    ensures var h := HandleAll(t, minimum, chain, ds[..i], fs);
      && h.ok && h.tables.associations == t.associations && IsDue(h.tables, minimum, chain, ds[i])
      && !IsQueued(h.tables, ds[i].txId, CodeOf(chain))
  {
    var d := ds[i];
    FaultlessBlock(t, minimum, chain, ds[..i], fs);
    BlockUntouched(t, minimum, chain, ds[..i], fs, d.txId);
    RecordedIsProcessed(t, chain, d.txId);
    RecordedIsProcessed(HandleAll(t, minimum, chain, ds[..i], fs).tables, chain, d.txId);
    WaitsIsQueued(t, PaymentRow(chain, d, ""));
  }

  function Larger(a: nat, b: nat): nat {
    if a < b then b else a
  }

  lemma FaultlessTurn(s: Standing, minimum: int, chain: Chain, turn: Turn)
    requires s.cursor > 0 && turn.fetched.Some? && ValidTurn(turn) && AllWork(turn.faults) && turn.save.Done?
    requires chain.Ethereum? ==> turn.fetched.value.number == s.cursor
    ensures var e := TakeTurn(s, minimum, chain, turn);
      && e.cursor == s.cursor + 1 && Serves(chain, s.tables, e.tables)
      && e.tables.blocks == s.tables.blocks.With(chain, Larger(s.tables.blocks.Of(chain), s.cursor))
      && forall d :: d in turn.fetched.value.deposits && d.value >= minimum && IsBound(s.tables, chain, d.to) ==>
           IsProcessed(e.tables, KeyOf(chain, d))
  {
    var t, ds := s.tables, turn.fetched.value.deposits;
    var h, e := HandleAll(t, minimum, chain, ds, turn.faults).tables, TakeTurn(s, minimum, chain, turn).tables;
    FaultlessBlock(t, minimum, chain, ds, turn.faults);
    assert e == h.(blocks := e.blocks);
    forall key ensures IsProcessed(e, key) <==> IsProcessed(h, key) {
    }
    forall key: TxKey ensures IsQueued(e, key.txId, CodeOf(chain)) <==> IsQueued(h, key.txId, CodeOf(chain)) {
    }
  }

  /** A listener whose client has the blocks it asks for, and that meets no faults, takes one block after the other,
      keeps the saved counter just behind, records every deposit that is large enough and paid to an associated address,
      and queues what it records. */
  lemma {:induction false} FaultlessListener(s: Standing, minimum: int, chain: Chain, turns: seq<Turn>)
    requires s.cursor > 0 && forall i :: 0 <= i < |turns| ==> turns[i].fetched.Some? && ValidTurn(turns[i])
    requires forall i :: 0 <= i < |turns| ==> AllWork(turns[i].faults) && turns[i].save.Done?
    requires chain.Ethereum? ==> forall i :: 0 <= i < |turns| ==> turns[i].fetched.value.number == s.cursor + i
    ensures var e := TakeTurns(s, minimum, chain, turns);
      && e.cursor == s.cursor + |turns| && Serves(chain, s.tables, e.tables)
      && (turns != [] ==>
            e.tables.blocks == s.tables.blocks.With(chain, Larger(s.tables.blocks.Of(chain), e.cursor - 1)))
      && (forall i, d :: 0 <= i < |turns| && d in turns[i].fetched.value.deposits ==>
            d.value >= minimum && IsBound(s.tables, chain, d.to) ==> IsProcessed(e.tables, KeyOf(chain, d)))
    decreases |turns|
  {
    if turns == [] {
    } else {
      var n := |turns| - 1;
      var mid := TakeTurns(s, minimum, chain, turns[..n]);
      FaultlessListener(s, minimum, chain, turns[..n]);
      FaultlessTurn(mid, minimum, chain, turns[n]);
      var e := TakeTurn(mid, minimum, chain, turns[n]);
      ServesOn(chain, s.tables, mid.tables, e.tables);
      forall i, d | 0 <= i < |turns| && d in turns[i].fetched.value.deposits && d.value >= minimum
        && IsBound(s.tables, chain, d.to)
        ensures IsProcessed(e.tables, KeyOf(chain, d))
      {
        RecordsStay(mid.tables, e.tables, KeyOf(chain, d), CodeOf(chain));
        if i < n {
          assert turns[..n][i] == turns[i];
        }
      }
    }
  }

  // ----- the queue -----

  /** The rows that wait to be paid out, in their order. */
  function Waiting(queue: seq<QueueRow>): seq<QueueRow> {
    if queue == [] then []
    else (if queue[0].pooled then [] else [queue[0]]) + Waiting(queue[1..])
  }

  /** The outcomes of the calls that reached the database. */
  function Reached(outcomes: seq<Outcome>): seq<Outcome> {
    if outcomes == [] then []
    else
      var n := |outcomes| - 1;
      if outcomes[n].FailedBefore? then Reached(outcomes[..n]) else Reached(outcomes[..n]) + [outcomes[n]]
  }

  /** The first row goes to the first call, the second to the second, and so on; those of the calls that worked. */
  function Dealt(rows: seq<QueueRow>, calls: seq<Outcome>): seq<QueueRow> {
    if calls == [] then []
    else
      var n := |calls| - 1;
      if n < |rows| && calls[n].Done? then Dealt(rows, calls[..n]) + [rows[n]] else Dealt(rows, calls[..n])
  }

  lemma {:induction false} HeadWaits(queue: seq<QueueRow>)
    ensures HeadOf(queue).None? ==> Waiting(queue) == []
    ensures HeadOf(queue).Some? ==>
      var i := HeadOf(queue).value;
      Waiting(queue) == [queue[i]] + Waiting(queue[i := queue[i].(pooled := true)])
  {
    if queue == [] {
    } else if queue[0].pooled {
      HeadWaits(queue[1..]);
      if HeadOf(queue).Some? {
        var i := HeadOf(queue).value;
        var row := queue[i].(pooled := true);
        assert queue[i := row] == [queue[0]] + queue[1..][i - 1 := row];
        WaitingAfter(queue[0], queue[1..][i - 1 := row]);
      }
    } else {
      var row := queue[0].(pooled := true);
      assert queue[0 := row] == [row] + queue[1..];
      WaitingAfter(row, queue[1..]);
    }
  }

  lemma WaitingAfter(row: QueueRow, rest: seq<QueueRow>)
    requires row.pooled
    ensures Waiting([row] + rest) == Waiting(rest)
  {
    assert ([row] + rest)[1..] == rest;
  }

  lemma PoolTakesFirst(t: Tables)
    requires DistinctRows(t.queue)
    ensures DistinctRows(Pool(t).queue) && Pool(t) == t.(queue := Pool(t).queue)
    ensures Waiting(Pool(t).queue) == if Waiting(t.queue) == [] then [] else Waiting(t.queue)[1..]
  {
    PoolHead(t.queue);
    HeadWaits(t.queue);
  }

  lemma DealtOneMore(rows: seq<QueueRow>, calls: seq<Outcome>, call: Outcome)
    ensures Dealt(rows, calls + [call])
      == if |calls| < |rows| && call.Done? then Dealt(rows, calls) + [rows[|calls|]] else Dealt(rows, calls)
  {
    assert (calls + [call])[..|calls|] == calls;
  }

  lemma OnePoolTurn(t: Tables, outcomes: seq<Outcome>)
    requires outcomes != []
    requires DistinctRows(PoolTurns(t, outcomes[..|outcomes| - 1]).tables.queue)
    ensures var before, after := PoolTurns(t, outcomes[..|outcomes| - 1]), PoolTurns(t, outcomes);
      var rows, outcome := Waiting(before.tables.queue), outcomes[|outcomes| - 1];
      && DistinctRows(after.tables.queue) && after.tables == before.tables.(queue := after.tables.queue)
      && after.started == (if rows != [] && outcome.Done? then before.started + [rows[0]] else before.started)
      && Waiting(after.tables.queue) == if rows == [] || outcome.FailedBefore? then rows else rows[1..]
  {
    var before := PoolTurns(t, outcomes[..|outcomes| - 1]);
    PoolTakesFirst(before.tables);
    HeadWaits(before.tables.queue);
  }

  /** Every call that reaches the database takes the first row that waits; the loop starts those whose answer arrives,
      and no others. The rows after them go on waiting, and nothing but the queue changes. */
  lemma {:induction false} StartsWhatItTakes(t: Tables, outcomes: seq<Outcome>)
    requires DistinctRows(t.queue)
    ensures var p, rows, calls := PoolTurns(t, outcomes), Waiting(t.queue), Reached(outcomes);
      && p.started == Dealt(rows, calls)
      && p.tables == t.(queue := p.tables.queue) && DistinctRows(p.tables.queue)
      && Waiting(p.tables.queue) == if |calls| <= |rows| then rows[|calls|..] else []
    decreases |outcomes|
  {
    if outcomes == [] {
    } else {
      var n := |outcomes| - 1;
      StartsWhatItTakes(t, outcomes[..n]);
      OnePoolTurn(t, outcomes);
      DealtOneMore(Waiting(t.queue), Reached(outcomes[..n]), outcomes[n]);
    }
  }

  lemma {:induction false} AllDealt(rows: seq<QueueRow>, outcomes: seq<Outcome>)
    requires forall i :: 0 <= i < |outcomes| ==> outcomes[i].Done?
    ensures Reached(outcomes) == outcomes
    ensures Dealt(rows, outcomes) == if |outcomes| < |rows| then rows[..|outcomes|] else rows
    decreases |outcomes|
  {
    if outcomes == [] {
    } else {
      var n := |outcomes| - 1;
      AllDealt(rows, outcomes[..n]);
      assert outcomes == outcomes[..n] + [outcomes[n]];
    }
  }

  /** When all calls work the loop starts the rows that wait, the first ones first, as many as it takes turns. */
  lemma FaultlessPool(t: Tables, outcomes: seq<Outcome>)
    requires DistinctRows(t.queue) && forall i :: 0 <= i < |outcomes| ==> outcomes[i].Done?
    ensures var rows := Waiting(t.queue);
      PoolTurns(t, outcomes).started == if |outcomes| < |rows| then rows[..|outcomes|] else rows
  {
    StartsWhatItTakes(t, outcomes);
    AllDealt(Waiting(t.queue), outcomes);
  }

  // ----- addresses -----

  /** The index for the next address: the next number, and zero once after the last 32-bit number. */
  function NextIndex(used: nat): nat {
    if used == 0xffff_ffff then 0 else used + 1
  }

  /** Neither the address nor the key is in the table. */
  predicate AreNew(t: Tables, address: string, publicKey: string) {
    forall a :: a in t.associations ==> a.address != address && a.publicKey != publicKey
  }

  /** An address is handed out exactly if the key is accepted, both calls work, an index is left, an address can be made
      for it, and address and key are new. It is the one made for the next index; and then one row is new, the only one
      with this address, for this chain and key. */
  lemma AddressExactlyWhen(t: Tables, chain: Chain, publicKey: string, accepted: bool, generate: Generator,
        take: Outcome, create: Outcome)
    ensures var g := Generate(t, chain, publicKey, accepted, generate, take, create);
      var index := NextIndex(t.indices.Of(chain));
      && (g.address.Some? <==>
            && accepted && take.Done? && create.Done? && t.indices.Of(chain) <= 0xffff_ffff
            && generate(chain, index).Some? && AreNew(t, generate(chain, index).value, publicKey))
      && (g.address.Some? ==>
            && g.address == generate(chain, index)
            && g.tables == t.(associations := t.associations + [Association(chain, index, g.address.value, publicKey)],
                              indices := t.indices.With(chain, t.indices.Of(chain) + 1))
            && forall a :: a in t.associations ==> a.address != g.address.value && a.publicKey != publicKey)
  {
  }

  /** If none is handed out no row is new, unless only the answer of the second call was lost. */
  lemma NoAddress(t: Tables, chain: Chain, publicKey: string, accepted: bool, generate: Generator, take: Outcome,
        create: Outcome)
    requires Generate(t, chain, publicKey, accepted, generate, take, create).address.None? && !create.FailedAfter?
    ensures Generate(t, chain, publicKey, accepted, generate, take, create).tables.associations == t.associations
  {
  }
}
