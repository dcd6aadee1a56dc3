/** The backward backfill of `backwardBlockProcessor.js`: one turn of its outer loop
    captures the gas price if none is cached, reads the lowest block number in the
    `block` table, stops for good once that is 0 or below, and otherwise walks from
    one below it down to block 0, upserting one record per block whose signer
    resolves. */
module BackwardSync {
  import opened Js
  import opened Chain

  /** The start block used when none is configured. */
  const DefaultStartFallback: int := 4834000

  /** `parseInt(process.env.DEFAULT_START_BLOCK, 10) || 4834000`: an unset, unparsable
      or zero setting falls back to 4834000. */
  function DefaultStartBlock(configured: Option<string>): (b: int)
    ensures configured.None? ==> b == DefaultStartFallback
    ensures configured.Some? ==>
      b == match ParseInt(configured.value)
           case None => DefaultStartFallback
           case Some(v) => if v == 0 then DefaultStartFallback else v
    ensures b != 0
  {
    match configured
    case None => DefaultStartFallback
    case Some(text) =>
      match ParseInt(text)
      case None => DefaultStartFallback
      case Some(v) => if v == 0 then DefaultStartFallback else v
  }

  /** `getMinBlockNumber`: `MIN(block_number)`, or the start block on an empty table. */
  function LowWatermark(t: BlockTable, defaultStart: int): (w: int)
    ensures t == map[] ==> w == defaultStart
    ensures t != map[] ==> w in t && forall b :: b in t ==> w <= b
  {
    match MinBlockNumber(t)
    case None => defaultStart
    case Some(m) => m
  }

  /** The branch one turn of the outer loop takes. */
  datatype Plan =
    | Backoff         // the gas price or the watermark could not be read: sleep 5s
    | Done            // the watermark is 0 or below: leave the loop
    | Pass(from: int) // visit from, from - 1, ..., 0

  /** The gas price the turn works with: the cached one when it is truthy, otherwise
      what `eth_gasPrice` answers now (`Failed` when that call throws). */
  function CapturedGasPrice(cached: Option<int>, quote: Fetch<int>): (g: Fetch<int>)
    ensures GasPriceSet(cached) ==> g == Got(cached.value)
    ensures !GasPriceSet(cached) ==> g == quote
  {
    if GasPriceSet(cached) then Got(cached.value) else quote
  }

  /** The record `updateBlock` stores for block `b`: the signer lower-cased and a fee
      of gasUsed * gasPrice. */
  function Record(b: int, info: BlockInfo, signer: string, gasPrice: int): (r: BlockRecord)
    ensures r.blockNumber == b && r.signerAddress == Lower(signer)
    ensures r.feeEarned == info.gasUsed * gasPrice
    ensures r.timestamp == info.timestamp && r.hash == info.hash
    ensures r.transactionCount == info.transactionCount
  {
    BlockRecord(b, info.timestamp, info.hash, Lower(signer), info.transactionCount, info.gasUsed * gasPrice)
  }

  /** The record block `b` stores, when it stores one: its signer resolved with a
      truthy hash and a truthy address, and the upsert succeeded. */
  function Written(node: Node, db: Db, gasPrice: int, b: int): (r: Option<BlockRecord>)
    ensures r.Some? <==> Resolve(node, b).Some? && db.writeOk(b)
    ensures r.Some? ==> r.value == Record(b, Resolve(node, b).value.0, Resolve(node, b).value.1, gasPrice)
  {
    match Resolve(node, b)
    case None => None
    case Some((info, signer)) => if db.writeOk(b) then Some(Record(b, info, signer, gasPrice)) else None
  }

  /** The body of the inner `for` for block `b`. */
  function Step(t: BlockTable, node: Node, db: Db, gasPrice: int, b: int): BlockTable
  {
    match Written(node, db, gasPrice, b)
    case None => t
    case Some(r) => UpsertBlock(t, r)
  }

  /** The table after visiting `hi, hi - 1, ..., lo` in that order. */
  function PassDown(t: BlockTable, node: Node, db: Db, gasPrice: int, lo: int, hi: int): BlockTable
    decreases if hi < lo then 0 else hi - lo + 1
  {
    if hi < lo then t else Step(PassDown(t, node, db, gasPrice, lo + 1, hi), node, db, gasPrice, lo)
  }

  /** What one turn of the outer loop leaves behind. */
  datatype Turn = Turn(plan: Plan, gasPrice: Option<int>, table: BlockTable)

  function Iteration(cached: Option<int>, quote: Fetch<int>, t: BlockTable, node: Node, db: Db,
                     defaultStart: int): Turn
  {
    match CapturedGasPrice(cached, quote)
    case Failed => Turn(Backoff, cached, t)
    case Got(p) =>
      if !db.readOk then Turn(Backoff, Some(p), t)
      else
        var low := LowWatermark(t, defaultStart);
        if low <= 0 then Turn(Done, Some(p), t)
        else Turn(Pass(low - 1), Some(p), PassDown(t, node, db, p, 0, low - 1))
  }

  // ---------------------------------------------------------------- properties

  /** The exact effect of a pass on every block number: one it visits holds what that
      block wrote, if it wrote anything; every other row is as it was. */
  lemma {:induction false} PassDownAt(t: BlockTable, node: Node, db: Db, gasPrice: int, lo: int, hi: int, k: int)
    ensures var r := PassDown(t, node, db, gasPrice, lo, hi);
      if lo <= k <= hi && Written(node, db, gasPrice, k).Some? then
        k in r && r[k] == Written(node, db, gasPrice, k).value
      else
        (k in r <==> k in t) && (k in t ==> r[k] == t[k])
    decreases if hi < lo then 0 else hi - lo + 1
  {
    if lo <= hi {
      PassDownAt(t, node, db, gasPrice, lo + 1, hi, k);
    }
  }

  /** A turn either stops (no write), backs off (no write), or passes from low - 1
      down to 0: a key outside [0, low) is never touched, and a key inside holds
      what its block wrote, fee included, if it wrote. */
  lemma IterationEffect(cached: Option<int>, quote: Fetch<int>, t: BlockTable, node: Node, db: Db,
                        defaultStart: int, k: int)
    ensures var turn := Iteration(cached, quote, t, node, db, defaultStart);
      match turn.plan
      case Pass(from) =>
        && from == LowWatermark(t, defaultStart) - 1 && from >= 0
        && turn.gasPrice.Some?
        && var w := Written(node, db, turn.gasPrice.value, k);
           if 0 <= k <= from && w.Some? then
             k in turn.table && turn.table[k] == w.value
           else
             (k in turn.table <==> k in t) && (k in t ==> turn.table[k] == t[k])
      case _ => turn.table == t
  {
    var turn := Iteration(cached, quote, t, node, db, defaultStart);
    if turn.plan.Pass? {
      PassDownAt(t, node, db, turn.gasPrice.value, 0, turn.plan.from, k);
    }
  }

  /** The controller stops exactly when the gas price and the watermark were read and
      the watermark is 0 or below. */
  lemma DoneIffAtGenesis(cached: Option<int>, quote: Fetch<int>, t: BlockTable, node: Node, db: Db,
                         defaultStart: int)
    ensures Iteration(cached, quote, t, node, db, defaultStart).plan.Done? <==>
      CapturedGasPrice(cached, quote).Got? && db.readOk && LowWatermark(t, defaultStart) <= 0
  {
  }

  /** The cached gas price is fetched only while it is falsy, and once truthy it is
      reused unchanged on every turn. */
  lemma GasPriceCapturedOnce(cached: Option<int>, quote: Fetch<int>, t: BlockTable, node: Node, db: Db,
                             defaultStart: int)
    ensures var turn := Iteration(cached, quote, t, node, db, defaultStart);
      && (GasPriceSet(cached) ==> turn.gasPrice == cached)
      && (!GasPriceSet(cached) && quote.Got? ==> turn.gasPrice == Some(quote.value))
      && (!GasPriceSet(cached) && quote.Failed? ==> turn.gasPrice == cached && turn.plan.Backoff?)
  {
  }

  /** Once a pass has stored block 0, the next turn (gas price cached, watermark readable)
      is the terminal one. If block 0 was skipped, the next turn walks down again from
      the new low watermark. */
  lemma GenesisStoredMeansDone(cached: Option<int>, quote: Fetch<int>, quote': Fetch<int>, t: BlockTable,
                               node: Node, db: Db, defaultStart: int)
    requires var turn := Iteration(cached, quote, t, node, db, defaultStart);
      turn.plan.Pass? && GasPriceSet(turn.gasPrice) && db.readOk
    requires var turn := Iteration(cached, quote, t, node, db, defaultStart);
      Written(node, db, turn.gasPrice.value, 0).Some?
    ensures var turn := Iteration(cached, quote, t, node, db, defaultStart);
      Iteration(turn.gasPrice, quote', turn.table, node, db, defaultStart).plan.Done?
  {
    var turn := Iteration(cached, quote, t, node, db, defaultStart);
    PassDownAt(t, node, db, turn.gasPrice.value, 0, turn.plan.from, 0);
    assert 0 in turn.table;
    assert turn.table != map[];
    assert LowWatermark(turn.table, defaultStart) <= 0;
  }

  // ---------------------------------------------------------------- the program

  /** The PostgreSQL `block` table with its failure behaviour. */
  class BlockStore {
    var blocks: BlockTable
    const db: Db

    constructor(initial: BlockTable, db: Db)
      ensures blocks == initial && this.db == db
    {
      blocks := initial;
      this.db := db;
    }

    /** `getMinBlockNumber`. */
    method GetMinBlockNumber(defaultStart: int) returns (m: Fetch<int>)
      ensures m == if db.readOk then Got(LowWatermark(blocks, defaultStart)) else Failed
    {
      if db.readOk {
        m := Got(LowWatermark(blocks, defaultStart));
      } else {
        m := Failed;
      }
    }

    /** `updateBlock`: upsert by block number with the signer lower-cased, or a
        thrown error that leaves the table alone. */
    method UpdateBlock(blockNumber: int, timestamp: int, hash: string, signerAddress: string,
                       transactionCount: nat, feeEarned: int) returns (ok: bool)
      modifies this
      ensures ok == db.writeOk(blockNumber)
      ensures blocks == if ok then
                          UpsertBlock(old(blocks), BlockRecord(blockNumber, timestamp, hash, Lower(signerAddress),
                                                               transactionCount, feeEarned))
                        else old(blocks)
    {
      ok := db.writeOk(blockNumber);
      if ok {
        blocks := blocks[blockNumber := BlockRecord(blockNumber, timestamp, hash, Lower(signerAddress),
                                                    transactionCount, feeEarned)];
      }
    }
  }

  /** `processBlocks` with its process-lifetime gas price cache. */
  class BackwardSync {
    var gasPrice: Option<int>
    const defaultStart: int

    constructor(configured: Option<string>)
      ensures gasPrice == None && defaultStart == DefaultStartBlock(configured)
    {
      gasPrice := None;
      defaultStart := DefaultStartBlock(configured);
    }

    /** One turn of the `while (true)` loop, given what `eth_gasPrice` would answer if
        asked. `askedGasPrice` says whether it was asked; `visited` lists the block
        numbers fetched, in order. */
    method ProcessIteration(store: BlockStore, node: Node, quote: Fetch<int>)
      returns (plan: Plan, askedGasPrice: bool, visited: seq<int>)
      modifies this, store
      ensures askedGasPrice == !GasPriceSet(old(gasPrice))
      ensures var turn := Iteration(old(gasPrice), quote, old(store.blocks), node, store.db, defaultStart);
        plan == turn.plan && gasPrice == turn.gasPrice && store.blocks == turn.table
      ensures visited == if plan.Pass? then Descending(plan.from, 0) else []
    {
      visited := [];
      askedGasPrice := !GasPriceSet(gasPrice);
      if askedGasPrice {
        if quote.Failed? {
          plan := Backoff;
          return;
        }
        gasPrice := Some(quote.value);
      }
      var latest := store.GetMinBlockNumber(defaultStart);
      if latest.Failed? {
        plan := Backoff;
        return;
      }
      var latestBlockProcessed := latest.value;
      if latestBlockProcessed <= 0 {
        plan := Done;
        return;
      }
      plan := Pass(latestBlockProcessed - 1);
      var price := gasPrice.value;
      ghost var t0 := store.blocks;
      for i := latestBlockProcessed downto 0
        modifies store
        invariant store.blocks == PassDown(t0, node, store.db, price, i, latestBlockProcessed - 1)
        invariant visited == Descending(latestBlockProcessed - 1, i)
      {
        var blockNumber := i;
        var blockInfo := node.blockAt(blockNumber);
        if blockInfo.Got? {
          var feeEarned := blockInfo.value.gasUsed * price;
          if blockInfo.value.hash != "" {
            var signerAddress := node.signerOf(blockInfo.value.hash);
            if signerAddress.Got? && signerAddress.value != "" {
              var _ := store.UpdateBlock(blockNumber, blockInfo.value.timestamp, blockInfo.value.hash,
                                         signerAddress.value, blockInfo.value.transactionCount, feeEarned);
            }
          }
        }
        visited := visited + [blockNumber];
      }
    }
  }
}
