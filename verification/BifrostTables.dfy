/** The tables of the bridge (services/bifrost/database/schema.go) and the changes that the operations of
    services/bifrost/database/postgres.go make to them, each of them in one transaction of the database. */
module BifrostTables {
  import opened Wrappers

  datatype Chain = Bitcoin | Ethereum

  datatype AssetCode = BTC | ETH

  function CodeOf(chain: Chain): AssetCode {
    match chain
    case Bitcoin => BTC
    case Ethereum => ETH
  }

  datatype Association = Association(chain: Chain, index: nat, address: string, publicKey: string)

  /** The primary key of processed_transaction. */
  datatype TxKey = TxKey(chain: Chain, txId: string)

  datatype Processed = Processed(key: TxKey, receiving: string)

  /** What must be paid out, and whether it was handed out for payment. */
  datatype QueueRow = QueueRow(txId: string, asset: AssetCode, amount: string, publicKey: string, pooled: bool)

  /** One number for each chain. */
  datatype Counters = Counters(bitcoin: nat, ethereum: nat) {
    function Of(chain: Chain): nat {
      match chain
      case Bitcoin => bitcoin
      case Ethereum => ethereum
    }

    function With(chain: Chain, n: nat): Counters {
      match chain
      case Bitcoin => this.(bitcoin := n)
      case Ethereum => this.(ethereum := n)
    }
  }

  /** The rows of a table stand in the order of their insertion, which is the order of the column id. */
  datatype Tables = Tables(
    associations: seq<Association>,
    processed: seq<Processed>,
    queue: seq<QueueRow>,
    indices: Counters,
    blocks: Counters)

  const EMPTY := Tables([], [], [], Counters(0, 0), Counters(0, 0))

  /** What becomes of a call: it works, it fails and changes nothing, or its change is made and the answer is lost. */
  datatype Outcome = Done | FailedBefore | FailedAfter

  // ----- address_association -----

  /** A row is refused if its address or its public key is in the table already. */
  predicate MayAssociate(t: Tables, a: Association) {
    forall b :: b in t.associations ==> b.address != a.address && b.publicKey != a.publicKey
  }

  function Associate(t: Tables, a: Association): Tables {
    if MayAssociate(t, a) then t.(associations := t.associations + [a]) else t
  }

  function FindIn(rows: seq<Association>, chain: Chain, address: string): (r: Option<Association>)
    ensures r.Some? ==> r.value in rows && r.value.chain == chain && r.value.address == address
    ensures r.None? ==> forall a :: a in rows ==> a.chain != chain || a.address != address
  {
    if rows == [] then None
    else if rows[0].chain == chain && rows[0].address == address then Some(rows[0])
    else FindIn(rows[1..], chain, address)
  }

  // ----- processed_transaction -----

  predicate IsProcessed(t: Tables, key: TxKey) {
    exists i :: 0 <= i < |t.processed| && t.processed[i].key == key
  }

  function AddProcessed(t: Tables, key: TxKey, receiving: string): Tables {
    if IsProcessed(t, key) then t else t.(processed := t.processed + [Processed(key, receiving)])
  }

  // ----- transactions_queue -----

  predicate IsQueued(t: Tables, txId: string, asset: AssetCode) {
    exists i :: 0 <= i < |t.queue| && t.queue[i].txId == txId && t.queue[i].asset == asset
  }

  function Enqueue(t: Tables, row: QueueRow): Tables {
    if IsQueued(t, row.txId, row.asset) then t else t.(queue := t.queue + [row])
  }

  /** No two rows of the queue are about the same transaction and asset. */
  predicate DistinctRows(queue: seq<QueueRow>) {
    forall i, j :: 0 <= i < j < |queue| ==> queue[i].txId != queue[j].txId || queue[i].asset != queue[j].asset
  }

  /** The first row that is not pooled. */
  function HeadOf(queue: seq<QueueRow>): (r: Option<nat>)
    ensures r.Some? ==> r.value < |queue| && !queue[r.value].pooled && forall i :: 0 <= i < r.value ==> queue[i].pooled
    ensures r.None? ==> forall i :: 0 <= i < |queue| ==> queue[i].pooled
  {
    if queue == [] then None
    else if !queue[0].pooled then Some(0)
    else match HeadOf(queue[1..])
      case None => None
      case Some(i) => Some(i + 1)
  }

  /** Mark the rows of one transaction and asset as pooled. */
  function MarkPooled(queue: seq<QueueRow>, txId: string, asset: AssetCode): (r: seq<QueueRow>)
    ensures |r| == |queue|
  {
    seq(|queue|, i requires 0 <= i < |queue| =>
      if queue[i].txId == txId && queue[i].asset == asset then queue[i].(pooled := true) else queue[i])
  }

  function Pool(t: Tables): Tables {
    match HeadOf(t.queue)
    case None => t
    case Some(i) => t.(queue := MarkPooled(t.queue, t.queue[i].txId, t.queue[i].asset))
  }

  // ----- key_value_store -----

  const UINT32: int := 0x1_0000_0000

  /** The counter of addresses, which is read as a 32-bit number and written as a 64-bit number. */
  function IncrementIndex(t: Tables, chain: Chain): Tables {
    if t.indices.Of(chain) < UINT32 then t.(indices := t.indices.With(chain, t.indices.Of(chain) + 1)) else t
  }

  /** The index that is handed out is the incremented one, cut to 32 bits. */
  function IndexAfter(t: Tables, chain: Chain): nat {
    (t.indices.Of(chain) + 1) % UINT32
  }

  /** The block to start from; zero means the current one. */
  function BlockToProcess(t: Tables, chain: Chain): nat {
    var saved := t.blocks.Of(chain);
    if saved > 0 then saved + 1 else 0
  }

  function SaveBlock(t: Tables, chain: Chain, block: nat): Tables {
    if block > t.blocks.Of(chain) then t.(blocks := t.blocks.With(chain, block)) else t
  }
}
