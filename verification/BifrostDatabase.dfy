/** The database of the bridge, services/bifrost/database/postgres.go. Every call is told what becomes of it. */
module BifrostDatabase {
  import opened BifrostTables
  import opened Wrappers

  datatype DbError = DbError

  class PostgresDatabase {
    var associations: seq<Association>
    var processed: seq<Processed>
    var queue: seq<QueueRow>
    var indices: Counters
    var blocks: Counters

    ghost function Contents(): Tables
      reads this
    {
      Tables(associations, processed, queue, indices, blocks)
    }

    /** The schema with its first rows. */
    constructor ()
      ensures Contents() == EMPTY
    {
      associations, processed, queue := [], [], [];
      indices, blocks := Counters(0, 0), Counters(0, 0);
    }

    method CreateAddressAssociation(chain: Chain, publicKey: string, address: string, index: nat, outcome: Outcome)
      returns (r: Result<(), DbError>)
      modifies this`associations
      ensures var a := Association(chain, index, address, publicKey);
        && (r.Ok? <==> outcome.Done? && MayAssociate(old(Contents()), a))
        && Contents() == if outcome.FailedBefore? then old(Contents()) else Associate(old(Contents()), a)
    {
      if outcome.FailedBefore? {
        return Err(DbError);
      }
      var duplicate := exists b :: b in associations && (b.address == address || b.publicKey == publicKey);
      if duplicate {
        return Err(DbError);
      }
      associations := associations + [Association(chain, index, address, publicKey)];
      if outcome.FailedAfter? {
        return Err(DbError);
      }
      return Ok(());
    }

    method GetAssociationByChainAddress(chain: Chain, address: string, outcome: Outcome)
      returns (r: Result<Option<Association>, DbError>)
      ensures r == if outcome.Done? then Ok(FindIn(associations, chain, address)) else Err(DbError)
    {
      if !outcome.Done? {
        return Err(DbError);
      }
      return Ok(FindIn(associations, chain, address));
    }

    /** Whether the transaction was processed before. */
    method AddProcessedTransaction(chain: Chain, txId: string, receiving: string, outcome: Outcome)
      returns (r: Result<bool, DbError>)
      modifies this`processed
      ensures var t, key := old(Contents()), TxKey(chain, txId);
        && Contents() == (if outcome.FailedBefore? then t else AddProcessed(t, key, receiving))
        && r == if outcome.Done? then Ok(IsProcessed(t, key)) else Err(DbError)
    {
      if outcome.FailedBefore? {
        return Err(DbError);
      }
      var duplicate := exists i :: 0 <= i < |processed| && processed[i].key == TxKey(chain, txId);
      if !duplicate {
        processed := processed + [Processed(TxKey(chain, txId), receiving)];
      }
      if outcome.FailedAfter? {
        return Err(DbError);
      }
      return Ok(duplicate);
    }

    method IncrementAddressIndex(chain: Chain, outcome: Outcome) returns (r: Result<nat, DbError>)
      modifies this`indices
      ensures var t := old(Contents());
        && Contents() == (if outcome.FailedBefore? then t else IncrementIndex(t, chain))
        && r == if outcome.Done? && t.indices.Of(chain) < UINT32 then Ok(IndexAfter(t, chain)) else Err(DbError)
    {
      if outcome.FailedBefore? {
        return Err(DbError);
      }
      var index := indices.Of(chain);
      if index >= UINT32 {
        return Err(DbError);
      }
      index := index + 1;
      indices := indices.With(chain, index);
      if outcome.FailedAfter? {
        return Err(DbError);
      }
      return Ok(index % UINT32);
    }

    method GetBlockToProcess(chain: Chain, outcome: Outcome) returns (r: Result<nat, DbError>)
      ensures r == if outcome.Done? then Ok(BlockToProcess(Contents(), chain)) else Err(DbError)
    {
      if !outcome.Done? {
        return Err(DbError);
      }
      var block := blocks.Of(chain);
      if block > 0 {
        block := block + 1;
      }
      return Ok(block);
    }

    method SaveLastProcessedBlock(chain: Chain, block: nat, outcome: Outcome) returns (r: Result<(), DbError>)
      modifies this`blocks
      ensures r.Ok? <==> outcome.Done?
      ensures Contents() == if outcome.FailedBefore? then old(Contents()) else SaveBlock(old(Contents()), chain, block)
    {
      if outcome.FailedBefore? {
        return Err(DbError);
      }
      if block > blocks.Of(chain) {
        blocks := blocks.With(chain, block);
      }
      if outcome.FailedAfter? {
        return Err(DbError);
      }
      return Ok(());
    }

    method QueueAdd(txId: string, asset: AssetCode, amount: string, publicKey: string, outcome: Outcome)
      returns (r: Result<(), DbError>)
      modifies this`queue
      ensures r.Ok? <==> outcome.Done?
      ensures Contents() == if outcome.FailedBefore? then old(Contents())
        else Enqueue(old(Contents()), QueueRow(txId, asset, amount, publicKey, false))
    {
      if outcome.FailedBefore? {
        return Err(DbError);
      }
      var duplicate := exists i :: 0 <= i < |queue| && queue[i].txId == txId && queue[i].asset == asset;
      if !duplicate {
        queue := queue + [QueueRow(txId, asset, amount, publicKey, false)];
      }
      if outcome.FailedAfter? {
        return Err(DbError);
      }
      return Ok(());
    }

    /** The head of the queue, which leaves the queue. */
    method QueuePool(outcome: Outcome) returns (r: Result<Option<QueueRow>, DbError>)
      modifies this`queue
      ensures var t := old(Contents());
        && Contents() == (if outcome.FailedBefore? then t else Pool(t))
        && r == if !outcome.Done? then Err(DbError)
                else if HeadOf(t.queue).None? then Ok(None) else Ok(Some(t.queue[HeadOf(t.queue).value]))
    {
      if outcome.FailedBefore? {
        return Err(DbError);
      }
      var head := HeadOf(queue);
      if head.None? {
        if outcome.FailedAfter? {
          return Err(DbError);
        }
        return Ok(None);
      }
      var row := queue[head.value];
      queue := MarkPooled(queue, row.txId, row.asset);
      if outcome.FailedAfter? {
        return Err(DbError);
      }
      return Ok(Some(row));
    }
  }
}
