/** The handlers and loops of services/bifrost: server/bitcoin_rail.go, server/ethereum_rail.go, server/queue.go,
    bitcoin/listener.go and ethereum/listener.go. */
module BifrostServer {
  import Amount
  import opened BifrostDatabase
  import opened BifrostHandling
  import opened BifrostTables
  import opened Wrappers

  // ----- blocks as the clients deliver them -----

  datatype ScriptClass = PubKey | PubKeyHash | OtherClass

  /** What can be read from an output's script. */
  datatype Script = NonStandard | Script(kind: ScriptClass, addresses: seq<string>)

  datatype Output = Output(script: Script, value: int)

  datatype BitcoinTx = BitcoinTx(hash: string, outputs: seq<Output>)

  /** A transaction without receiver creates a contract. */
  datatype EthereumTx = EthereumTx(hash: string, value: int, to: Option<string>)

  predicate Pays(output: Output) {
    && output.script.Script?
    && output.script.kind != OtherClass
    && |output.script.addresses| == 1
  }

  /** The deposits among the outputs of one transaction. */
  function OutputDeposits(hash: string, outputs: seq<Output>): (ds: seq<Deposit>)
    ensures |ds| <= |outputs|
  {
    if outputs == [] then []
    else
      var n := |outputs| - 1;
      var o := outputs[n];
      OutputDeposits(hash, outputs[..n]) + if Pays(o) then [Deposit(hash, o.value, o.script.addresses[0])] else []
  }

  function BitcoinDeposits(txs: seq<BitcoinTx>): seq<Deposit> {
    if txs == [] then []
    else
      var n := |txs| - 1;
      BitcoinDeposits(txs[..n]) + OutputDeposits(txs[n].hash, txs[n].outputs)
  }

  function EthereumDeposits(txs: seq<EthereumTx>): seq<Deposit> {
    if txs == [] then []
    else
      var n := |txs| - 1;
      EthereumDeposits(txs[..n])
        + match txs[n].to { case None => [] case Some(to) => [Deposit(txs[n].hash, txs[n].value, to)] }
  }

  datatype BitcoinTurn = BitcoinTurn(fetched: Option<seq<BitcoinTx>>, faults: seq<Faults>, save: Outcome) {
    function ToTurn(): Turn {
      match fetched
      case None => Turn(None, faults, save)
      case Some(txs) => Turn(Some(Block(0, BitcoinDeposits(txs))), faults, save)
    }
  }

  datatype EthereumBlock = EthereumBlock(number: nat, txs: seq<EthereumTx>)

  datatype EthereumTurn = EthereumTurn(fetched: Option<EthereumBlock>, faults: seq<Faults>, save: Outcome) {
    function ToTurn(): Turn {
      match fetched
      case None => Turn(None, faults, save)
      case Some(block) => Turn(Some(Block(block.number, EthereumDeposits(block.txs))), faults, save)
    }
  }

  function TurnsOf<T>(turns: seq<T>, toTurn: T -> Turn): (r: seq<Turn>)
    ensures |r| == |turns| && forall i :: 0 <= i < |r| ==> r[i] == toTurn(turns[i])
  {
    seq(|turns|, i requires 0 <= i < |turns| => toTurn(turns[i]))
  }

  function BitcoinTurns(turns: seq<BitcoinTurn>): seq<Turn> {
    TurnsOf(turns, (turn: BitcoinTurn) => turn.ToTurn())
  }

  function EthereumTurns(turns: seq<EthereumTurn>): seq<Turn> {
    TurnsOf(turns, (turn: EthereumTurn) => turn.ToTurn())
  }

  class Server {
    const database: PostgresDatabase
    const minimumValueSat: int
    const minimumValueWei: int

    constructor (database: PostgresDatabase, minimumValueSat: int, minimumValueWei: int)
      ensures this.database == database
      ensures this.minimumValueSat == minimumValueSat && this.minimumValueWei == minimumValueWei
    {
      this.database := database;
      this.minimumValueSat := minimumValueSat;
      this.minimumValueWei := minimumValueWei;
    }

    method OnNewBitcoinTransaction(d: Deposit, f: Faults) returns (r: Result<(), DbError>)
      modifies database
      ensures Handled(database.Contents(), r.Ok?) == Handle(old(database.Contents()), minimumValueSat, Bitcoin, d, f)
    {
      if d.value < minimumValueSat {
        return Ok(());
      }
      var association := database.GetAssociationByChainAddress(Bitcoin, d.to, f.lookup);
      if association.Err? {
        return Err(DbError);
      }
      if association.value.None? {
        return Ok(());
      }
      var processed := database.AddProcessedTransaction(Bitcoin, d.txId, d.to, f.add);
      if processed.Err? {
        return Err(DbError);
      }
      if processed.value {
        return Ok(());
      }
      r := database.QueueAdd(d.txId, BTC, Amount.BtcValueToStellar(d.value),
                             association.value.value.publicKey, f.enqueue);
    }

    method OnNewEthereumTransaction(d: Deposit, f: Faults) returns (r: Result<(), DbError>)
      modifies database
      ensures Handled(database.Contents(), r.Ok?) == Handle(old(database.Contents()), minimumValueWei, Ethereum, d, f)
    {
      if d.value < minimumValueWei {
        return Ok(());
      }
      var association := database.GetAssociationByChainAddress(Ethereum, d.to, f.lookup);
      if association.Err? {
        return Err(DbError);
      }
      if association.value.None? {
        return Ok(());
      }
      var processed := database.AddProcessedTransaction(Ethereum, d.txId, d.to, f.add);
      if processed.Err? {
        return Err(DbError);
      }
      if processed.value {
        return Ok(());
      }
      r := database.QueueAdd(d.txId, ETH, Amount.EthValueToStellar(d.value),
                             association.value.value.publicKey, f.enqueue);
    }

    /** The inner loop of ProcessBitcoinBlock, over the outputs of one transaction. */
    method ProcessOutputs(hash: string, outputs: seq<Output>, fs: seq<Faults>, start: nat,
                          ghost t: Tables, ghost before: seq<Deposit>, ghost all: seq<Deposit>)
      returns (r: Result<(), DbError>, k: nat)
      requires start == |before| && before + OutputDeposits(hash, outputs) <= all
      requires Progress(database.Contents(), t, minimumValueSat, Bitcoin, before, all, fs)
      modifies database
      ensures r.Ok? ==> k == start + |OutputDeposits(hash, outputs)|
      ensures r.Ok? ==>
        Progress(database.Contents(), t, minimumValueSat, Bitcoin, before + OutputDeposits(hash, outputs), all, fs)
      ensures r.Err? ==> HandleAll(t, minimumValueSat, Bitcoin, all, fs) == Handled(database.Contents(), false)
    {
      ghost var done := before;
      k := start;
      for j := 0 to |outputs|
        invariant k == |done| && done == before + OutputDeposits(hash, outputs[..j])
        invariant Progress(database.Contents(), t, minimumValueSat, Bitcoin, done, all, fs)
      {
        NextOutput(hash, outputs, j, before, done, all);
        if outputs[j].script.NonStandard? {
          continue;
        }
        if outputs[j].script.kind != PubKey && outputs[j].script.kind != PubKeyHash {
          continue;
        }
        if |outputs[j].script.addresses| != 1 {
          continue;
        }
        var d := Deposit(hash, outputs[j].value, outputs[j].script.addresses[0]);
        assert Pays(outputs[j]) && done + [d] <= all;
        ghost var now := database.Contents();
        r := OnNewBitcoinTransaction(d, fs[k]);
        Advance(now, t, minimumValueSat, Bitcoin, done, d, all, fs, database.Contents(), r.Ok?);
        done := done + [d];
        if r.Err? {
          return;
        }
        k := k + 1;
      }
      assert outputs[..|outputs|] == outputs;
      r := Ok(());
    }

    method ProcessBitcoinBlock(txs: seq<BitcoinTx>, fs: seq<Faults>) returns (r: Result<(), DbError>)
      requires |BitcoinDeposits(txs)| <= |fs|
      modifies database
      ensures Handled(database.Contents(), r.Ok?)
           == HandleAll(old(database.Contents()), minimumValueSat, Bitcoin, BitcoinDeposits(txs), fs)
    {
      ghost var t, all := database.Contents(), BitcoinDeposits(txs);
      var k := 0;
      for i := 0 to |txs|
        invariant k == |BitcoinDeposits(txs[..i])|
        invariant Progress(database.Contents(), t, minimumValueSat, Bitcoin, BitcoinDeposits(txs[..i]), all, fs)
      {
        BitcoinPrefix(txs, i);
        r, k := ProcessOutputs(txs[i].hash, txs[i].outputs, fs, k, t, BitcoinDeposits(txs[..i]), all);
        if r.Err? {
          return;
        }
      }
      assert txs[..|txs|] == txs;
      r := Ok(());
    }

    method ProcessEthereumBlock(txs: seq<EthereumTx>, fs: seq<Faults>) returns (r: Result<(), DbError>)
      requires |EthereumDeposits(txs)| <= |fs|
      modifies database
      ensures Handled(database.Contents(), r.Ok?)
           == HandleAll(old(database.Contents()), minimumValueWei, Ethereum, EthereumDeposits(txs), fs)
    {
      ghost var t, all := database.Contents(), EthereumDeposits(txs);
      ghost var done := [];
      var k := 0;
      for i := 0 to |txs|
        invariant k == |done| && done == EthereumDeposits(txs[..i])
        invariant Progress(database.Contents(), t, minimumValueWei, Ethereum, done, all, fs)
      {
        EthereumPrefix(txs, i);
        if txs[i].to.None? {
          continue;
        }
        var d := Deposit(txs[i].hash, txs[i].value, txs[i].to.value);
        ghost var now := database.Contents();
        r := OnNewEthereumTransaction(d, fs[k]);
        Advance(now, t, minimumValueWei, Ethereum, done, d, all, fs, database.Contents(), r.Ok?);
        done := done + [d];
        if r.Err? {
          return;
        }
        k := k + 1;
      }
      assert txs[..|txs|] == txs;
      r := Ok(());
    }

    /** The endless loop of the Bitcoin listener, for as many turns as are given. */
    method ProcessBitcoinBlocks(start: nat, turns: seq<BitcoinTurn>) returns (blockNumber: nat)
      requires forall i :: 0 <= i < |turns| ==> ValidTurn(turns[i].ToTurn())
      modifies database
      ensures Standing(database.Contents(), blockNumber)
           == TakeTurns(Standing(old(database.Contents()), start), minimumValueSat, Bitcoin, BitcoinTurns(turns))
    {
      ghost var s, all := Standing(database.Contents(), start), BitcoinTurns(turns);
      blockNumber := start;
      for i := 0 to |turns|
        invariant Standing(database.Contents(), blockNumber) == TakeTurns(s, minimumValueSat, Bitcoin, all[..i])
      {
        NextTurn(s, minimumValueSat, Bitcoin, all, i);
        var turn := turns[i];
        if turn.fetched.None? {
          continue;
        }
        var r := ProcessBitcoinBlock(turn.fetched.value, turn.faults);
        if r.Err? {
          continue;
        }
        var saved := database.SaveLastProcessedBlock(Bitcoin, blockNumber, turn.save);
        blockNumber := blockNumber + 1;
      }
      assert all[..|turns|] == all;
    }

    /** The endless loop of the Ethereum listener, for as many turns as are given. */
    method ProcessEthereumBlocks(start: nat, turns: seq<EthereumTurn>) returns (blockNumber: nat)
      requires forall i :: 0 <= i < |turns| ==> ValidTurn(turns[i].ToTurn())
      modifies database
      ensures Standing(database.Contents(), blockNumber)
           == TakeTurns(Standing(old(database.Contents()), start), minimumValueWei, Ethereum, EthereumTurns(turns))
    {
      ghost var s, all := Standing(database.Contents(), start), EthereumTurns(turns);
      blockNumber := start;
      for i := 0 to |turns|
        invariant Standing(database.Contents(), blockNumber) == TakeTurns(s, minimumValueWei, Ethereum, all[..i])
      {
        NextTurn(s, minimumValueWei, Ethereum, all, i);
        var turn := turns[i];
        if turn.fetched.None? {
          continue;
        }
        var block := turn.fetched.value;
        if block.number == 0 {
          continue;
        }
        var r := ProcessEthereumBlock(block.txs, turn.faults);
        if r.Err? {
          continue;
        }
        var saved := database.SaveLastProcessedBlock(Ethereum, blockNumber, turn.save);
        blockNumber := block.number + 1;
      }
      assert all[..|turns|] == all;
    }

    /** The endless loop that empties the queue, for as many turns as are given: what is started, in order. */
    method PoolTransactionsQueue(outcomes: seq<Outcome>) returns (started: seq<QueueRow>)
      modifies database`queue
      ensures Pooled(database.Contents(), started) == PoolTurns(old(database.Contents()), outcomes)
    {
      started := [];
      for n := 0 to |outcomes|
        invariant Pooled(database.Contents(), started) == PoolTurns(old(database.Contents()), outcomes[..n])
      {
        assert outcomes[..n + 1][..n] == outcomes[..n];
        var transaction := database.QueuePool(outcomes[n]);
        if transaction.Err? {
          continue;
        }
        if transaction.value.None? {
          continue;
        }
        started := started + [transaction.value.value];
      }
      assert outcomes[..|outcomes|] == outcomes;
    }

    /** Where the Bitcoin listener starts, if its node knows the right genesis block and answers. */
    method StartBitcoinListener(genesis: Option<bool>, read: Outcome, count: Option<nat>)
      returns (r: Result<nat, DbError>)
      ensures r.Ok? <==>
        genesis == Some(true) && read.Done? && (database.Contents().blocks.bitcoin == 0 ==> count.Some?)
      ensures r.Ok? && database.Contents().blocks.bitcoin > 0 ==> r.value == database.Contents().blocks.bitcoin + 1
      ensures r.Ok? && database.Contents().blocks.bitcoin == 0 ==> Some(r.value) == count
    {
      if genesis.None? {
        return Err(DbError);
      }
      if !genesis.value {
        return Err(DbError);
      }
      r := database.GetBlockToProcess(Bitcoin, read);
      if r.Err? {
        return;
      }
      if r.value == 0 {
        if count.None? {
          return Err(DbError);
        }
        r := Ok(count.value);
      }
    }

    /** Where the Ethereum listener starts, if its node is in the right network; zero means the current block. */
    method StartEthereumListener(read: Outcome, network: Option<bool>) returns (r: Result<nat, DbError>)
      ensures r.Ok? <==> read.Done? && network == Some(true)
      ensures r.Ok? ==>
        r.value == if database.Contents().blocks.ethereum > 0 then database.Contents().blocks.ethereum + 1 else 0
    {
      r := database.GetBlockToProcess(Ethereum, read);
      if r.Err? {
        return;
      }
      if network.None? {
        return Err(DbError);
      }
      if !network.value {
        return Err(DbError);
      }
    }

    method GenerateAddress(chain: Chain, publicKey: string, accepted: bool, generate: Generator, take: Outcome,
          create: Outcome)
      returns (address: Option<string>)
      modifies database
      ensures Generated(database.Contents(), address)
           == Generate(old(database.Contents()), chain, publicKey, accepted, generate, take, create)
    {
      if !accepted {
        return None;
      }
      var index := database.IncrementAddressIndex(chain, take);
      if index.Err? {
        return None;
      }
      address := generate(chain, index.value);
      if address.None? {
        return None;
      }
      var r := database.CreateAddressAssociation(chain, publicKey, address.value, index.value, create);
      if r.Err? {
        return None;
      }
    }
  }

  lemma NextTurn(s: Standing, minimum: int, chain: Chain, turns: seq<Turn>, i: int)
    requires 0 <= i < |turns| && forall j :: 0 <= j < |turns| ==> ValidTurn(turns[j])
    ensures TakeTurns(s, minimum, chain, turns[..i + 1])
      == TakeTurn(TakeTurns(s, minimum, chain, turns[..i]), minimum, chain, turns[i])
  {
    assert turns[..i + 1][..i] == turns[..i];
  }

  /** The deposits done so far were handled without error, with the present contents as the result. */
  ghost predicate Progress(now: Tables, t: Tables, minimum: int, chain: Chain, done: seq<Deposit>, all: seq<Deposit>,
        fs: seq<Faults>) {
    done <= all && |all| <= |fs| && HandleAll(t, minimum, chain, done, fs) == Handled(now, true)
  }

  lemma Advance(now: Tables, t: Tables, minimum: int, chain: Chain, done: seq<Deposit>, d: Deposit, all: seq<Deposit>,
                fs: seq<Faults>, next: Tables, ok: bool)
    requires Progress(now, t, minimum, chain, done, all, fs) && done + [d] <= all
    requires Handled(next, ok) == Handle(now, minimum, chain, d, fs[|done|])
    ensures ok ==> Progress(next, t, minimum, chain, done + [d], all, fs)
    ensures !ok ==> HandleAll(t, minimum, chain, all, fs) == Handled(next, false)
  {
    assert (done + [d])[..|done|] == done;
    if !ok {
      assert all == (done + [d]) + all[|done| + 1..];
      ErrorStays(t, minimum, chain, done + [d], all[|done| + 1..], fs);
    }
  }

  lemma {:induction false} BitcoinMonotone(txs: seq<BitcoinTx>, i: int)
    requires 0 <= i <= |txs|
    ensures BitcoinDeposits(txs[..i]) <= BitcoinDeposits(txs)
    decreases |txs| - i
  {
    if i == |txs| {
      assert txs[..i] == txs;
    } else {
      assert txs[..i + 1][..i] == txs[..i];
      BitcoinMonotone(txs, i + 1);
    }
  }

  lemma BitcoinPrefix(txs: seq<BitcoinTx>, i: int)
    requires 0 <= i < |txs|
    ensures BitcoinDeposits(txs[..i + 1]) == BitcoinDeposits(txs[..i]) + OutputDeposits(txs[i].hash, txs[i].outputs)
    ensures BitcoinDeposits(txs[..i + 1]) <= BitcoinDeposits(txs)
  {
    assert txs[..i + 1][..i] == txs[..i];
    BitcoinMonotone(txs, i + 1);
  }

  lemma {:induction false} OutputMonotone(hash: string, outputs: seq<Output>, j: int)
    requires 0 <= j <= |outputs|
    ensures OutputDeposits(hash, outputs[..j]) <= OutputDeposits(hash, outputs)
    decreases |outputs| - j
  {
    if j == |outputs| {
      assert outputs[..j] == outputs;
    } else {
      assert outputs[..j + 1][..j] == outputs[..j];
      OutputMonotone(hash, outputs, j + 1);
    }
  }

  lemma NextOutput(hash: string, outputs: seq<Output>, j: int, before: seq<Deposit>, done: seq<Deposit>,
        all: seq<Deposit>)
    requires 0 <= j < |outputs|
    requires done == before + OutputDeposits(hash, outputs[..j]) && before + OutputDeposits(hash, outputs) <= all
    ensures var o := outputs[j];
      var after := before + OutputDeposits(hash, outputs[..j + 1]);
      && after <= all
      && after == if Pays(o) then done + [Deposit(hash, o.value, o.script.addresses[0])] else done
  {
    assert outputs[..j + 1][..j] == outputs[..j];
    OutputMonotone(hash, outputs, j + 1);
  }

  lemma {:induction false} EthereumMonotone(txs: seq<EthereumTx>, i: int)
    requires 0 <= i <= |txs|
    ensures EthereumDeposits(txs[..i]) <= EthereumDeposits(txs)
    decreases |txs| - i
  {
    if i == |txs| {
      assert txs[..i] == txs;
    } else {
      assert txs[..i + 1][..i] == txs[..i];
      EthereumMonotone(txs, i + 1);
    }
  }

  lemma EthereumPrefix(txs: seq<EthereumTx>, i: int)
    requires 0 <= i < |txs|
    ensures var before := EthereumDeposits(txs[..i]);
      EthereumDeposits(txs[..i + 1])
      == if txs[i].to.Some? then before + [Deposit(txs[i].hash, txs[i].value, txs[i].to.value)] else before
    ensures EthereumDeposits(txs[..i + 1]) <= EthereumDeposits(txs)
  {
    assert txs[..i + 1][..i] == txs[..i];
    EthereumMonotone(txs, i + 1);
  }

  // ----- what counts as a deposit -----

  /** A payment to a public key or to the hash of one, with one address. */
  predicate PaysTo(output: Output, to: string) {
    output.script == Script(PubKey, [to]) || output.script == Script(PubKeyHash, [to])
  }

  lemma PaysWhom(output: Output)
    ensures Pays(output) <==> exists to :: PaysTo(output, to)
    ensures Pays(output) ==> forall to :: PaysTo(output, to) <==> to == output.script.addresses[0]
  {
    if Pays(output) {
      assert output.script.addresses == [output.script.addresses[0]];
      assert PaysTo(output, output.script.addresses[0]);
    }
    forall to | PaysTo(output, to) ensures Pays(output) {
      assert output.script.addresses == [to] && output.script.kind != OtherClass;
    }
  }

  /** Each output that pays to one address in one of these two ways adds a deposit at the end; no other output does. */
  lemma OutputAddsDeposit(hash: string, outputs: seq<Output>, last: Output, to: string)
    ensures PaysTo(last, to) ==>
      OutputDeposits(hash, outputs + [last]) == OutputDeposits(hash, outputs) + [Deposit(hash, last.value, to)]
    ensures (forall a :: !PaysTo(last, a)) ==> OutputDeposits(hash, outputs + [last]) == OutputDeposits(hash, outputs)
  {
    assert (outputs + [last])[..|outputs|] == outputs;
    PaysWhom(last);
  }

  /** An output of the transaction pays this deposit. */
  predicate Holds(hash: string, outputs: seq<Output>, d: Deposit) {
    d.txId == hash && exists j :: 0 <= j < |outputs| && outputs[j].value == d.value && PaysTo(outputs[j], d.to)
  }

  lemma HoldsOneMore(hash: string, outputs: seq<Output>, last: Output, d: Deposit)
    ensures Holds(hash, outputs + [last], d) <==>
      Holds(hash, outputs, d) || (d.txId == hash && last.value == d.value && PaysTo(last, d.to))
  {
    var all := outputs + [last];
    if Holds(hash, outputs, d) {
      var j :| 0 <= j < |outputs| && outputs[j].value == d.value && PaysTo(outputs[j], d.to);
      assert all[j] == outputs[j];
    }
    assert all[|outputs|] == last;
  }

  lemma {:induction false} DepositsOfTransaction(hash: string, outputs: seq<Output>, d: Deposit)
    ensures d in OutputDeposits(hash, outputs) <==> Holds(hash, outputs, d)
  {
    if outputs == [] {
    } else {
      var n := |outputs| - 1;
      assert outputs == outputs[..n] + [outputs[n]];
      DepositsOfTransaction(hash, outputs[..n], d);
      HoldsOneMore(hash, outputs[..n], outputs[n], d);
      PaysWhom(outputs[n]);
    }
  }

  predicate InBlock(txs: seq<BitcoinTx>, d: Deposit) {
    exists i :: 0 <= i < |txs| && Holds(txs[i].hash, txs[i].outputs, d)
  }

  lemma InBlockOneMore(txs: seq<BitcoinTx>, last: BitcoinTx, d: Deposit)
    ensures InBlock(txs + [last], d) <==> InBlock(txs, d) || Holds(last.hash, last.outputs, d)
  {
    var all := txs + [last];
    if InBlock(txs, d) {
      var i :| 0 <= i < |txs| && Holds(txs[i].hash, txs[i].outputs, d);
      assert all[i] == txs[i];
    }
    assert all[|txs|] == last;
  }

  /** The deposits of a Bitcoin block are the payments in all of its transactions. */
  lemma {:induction false} DepositsOfBitcoinBlock(txs: seq<BitcoinTx>, d: Deposit)
    ensures d in BitcoinDeposits(txs) <==> InBlock(txs, d)
  {
    if txs == [] {
    } else {
      var n := |txs| - 1;
      assert txs == txs[..n] + [txs[n]];
      DepositsOfBitcoinBlock(txs[..n], d);
      InBlockOneMore(txs[..n], txs[n], d);
      DepositsOfTransaction(txs[n].hash, txs[n].outputs, d);
    }
  }

  lemma TransactionAddsDeposits(txs: seq<BitcoinTx>, last: BitcoinTx)
    ensures BitcoinDeposits(txs + [last]) == BitcoinDeposits(txs) + OutputDeposits(last.hash, last.outputs)
  {
    assert (txs + [last])[..|txs|] == txs;
  }

  /** Each transaction that has a receiver adds a deposit at the end; no other transaction does. */
  lemma TransferAddsDeposit(txs: seq<EthereumTx>, last: EthereumTx, to: string)
    ensures last.to == Some(to) ==>
      EthereumDeposits(txs + [last]) == EthereumDeposits(txs) + [Deposit(last.hash, last.value, to)]
    ensures last.to == None ==> EthereumDeposits(txs + [last]) == EthereumDeposits(txs)
  {
    assert (txs + [last])[..|txs|] == txs;
  }

  /** The deposits of an Ethereum block are those of its transactions that have a receiver. */
  lemma {:induction false} DepositsOfEthereumBlock(txs: seq<EthereumTx>, d: Deposit)
    ensures d in EthereumDeposits(txs) <==> EthereumTx(d.txId, d.value, Some(d.to)) in txs
  {
    if txs == [] {
    } else {
      var n := |txs| - 1;
      assert txs == txs[..n] + [txs[n]];
      DepositsOfEthereumBlock(txs[..n], d);
    }
  }

  /** What the listeners' loops are about: the blocks that were fetched, with their deposits and the outcomes they are
      told. */
  lemma TurnsAreAboutBlocks(b: BitcoinTurn, e: EthereumTurn)
    ensures b.ToTurn().faults == b.faults && b.ToTurn().save == b.save
    ensures b.ToTurn().fetched.Some? <==> b.fetched.Some?
    ensures b.fetched.Some? ==> b.ToTurn().fetched.value.deposits == BitcoinDeposits(b.fetched.value)
    ensures e.ToTurn().faults == e.faults && e.ToTurn().save == e.save
    ensures e.ToTurn().fetched.Some? <==> e.fetched.Some?
    ensures e.fetched.Some? ==> e.ToTurn().fetched.value.number == e.fetched.value.number
    ensures e.fetched.Some? ==> e.ToTurn().fetched.value.deposits == EthereumDeposits(e.fetched.value.txs)
  {
  }
}
