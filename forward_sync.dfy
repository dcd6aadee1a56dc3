/** The forward signer-liveness sync of `blockProcessor.js`: one turn of its outer
    loop reads the chain head and the highest block number in the `signer` table,
    walks the block numbers from that watermark up to head - 10, and upserts, per
    block whose signer resolves, the row (block number, timestamp) of that signer. */
module ForwardSync {
  import opened Js
  import opened Chain

  /** Blocks this close to the head are left for a later turn. */
  const ConfirmationLag: int := 10

  /** How far below the head the pass starts when the table gives no watermark. */
  const FallbackDepth: int := 500

  /** A row of the `signer` table: the last block the signer was seen producing. */
  datatype SignerRow = SignerRow(blockNumber: int, timestamp: int)

  /** The `signer` table, keyed by lower-cased signer address. */
  type SignerTable = map<string, SignerRow>

  // ---------------------------------------------------------------- the store

  lemma NumbersOfNonEmptyTable(t: SignerTable)
    requires t != map[]
    ensures (set s | s in t :: t[s].blockNumber) != {}
  {
    assert t.Keys != {};
    var s := ElementOf(t.Keys);
    var numbers := set s | s in t :: t[s].blockNumber;
    assert t[s].blockNumber in numbers;
    if numbers == {} {
      assert false;
    }
  }

  /** `SELECT MAX(block_number) FROM signer`: `null` on an empty table. */
  function MaxBlockNumber(t: SignerTable): (m: Option<int>)
    ensures m.None? <==> t == map[]
    ensures m.Some? ==> exists s :: s in t && t[s].blockNumber == m.value
    ensures m.Some? ==> forall s :: s in t ==> t[s].blockNumber <= m.value
  {
    if t == map[] then None
    else
      NumbersOfNonEmptyTable(t);
      var numbers := set s | s in t :: t[s].blockNumber;
      var m := MaxOf(numbers);
      assert forall s :: s in t ==> t[s].blockNumber in numbers;
      Some(m)
  }

  /** What the watermark query answers. */
  function MaxRead(t: SignerTable, db: Db): (r: Fetch<Option<int>>)
    ensures r.Failed? <==> !db.readOk
    ensures r.Got? ==> r.value == MaxBlockNumber(t)
  {
    if db.readOk then Got(MaxBlockNumber(t)) else Failed
  }

  /** `updateSigner`: one row per lower-cased signer, replaced on conflict. */
  function UpsertSigner(t: SignerTable, signerAddress: string, blockNumber: int, timestamp: int): (t': SignerTable)
    ensures t'.Keys == t.Keys + {Lower(signerAddress)}
    ensures t'[Lower(signerAddress)] == SignerRow(blockNumber, timestamp)
    ensures forall s :: s in t && s != Lower(signerAddress) ==> t'[s] == t[s]
  {
    t[Lower(signerAddress) := SignerRow(blockNumber, timestamp)]
  }

  // ---------------------------------------------------------------- range determination

  /** `(await getMaxBlockNumber() || (currentBlockNumber - 500))`: an empty table (`null`)
      and a maximum of 0 both fall back to head - 500. */
  function Watermark(maxBlock: Option<int>, head: int): (w: int)
    ensures maxBlock.None? || maxBlock.value == 0 ==> w == head - FallbackDepth
    ensures maxBlock.Some? && maxBlock.value != 0 ==> w == maxBlock.value
  {
    match maxBlock
    case None => head - FallbackDepth
    case Some(m) => if m == 0 then head - FallbackDepth else m
  }

  /** The branch one turn of the outer loop takes. */
  datatype Plan =
    | Backoff              // the head could not be read: sleep 5s
    | Crash                // the watermark read failed: the database callback throws and the process dies
    | Idle                 // nothing below head - 10 beyond the watermark: sleep 10s
    | Pass(from: int, to: int)  // visit from..to, both included

  function PlanIteration(head: Fetch<int>, maxRead: Fetch<Option<int>>): (p: Plan)
    ensures p.Backoff? <==> head.Failed?
    ensures p.Crash? <==> head.Got? && maxRead.Failed?
    ensures p.Idle? <==>
      head.Got? && maxRead.Got? && head.value - ConfirmationLag <= Watermark(maxRead.value, head.value)
    ensures p.Pass? ==>
      && p.from == Watermark(maxRead.value, head.value)
      && p.to == head.value - ConfirmationLag
      && p.from < p.to
  {
    if head.Failed? then Backoff
    else if maxRead.Failed? then Crash
    else
      var w := Watermark(maxRead.value, head.value);
      var target := head.value - ConfirmationLag;
      if target <= w then Idle else Pass(w, target)
  }

  // ---------------------------------------------------------------- the pass

  /** The key block `b` writes under, when it writes: its signer resolved with a
      truthy hash and a truthy address, and the upsert succeeded. */
  function Written(node: Node, db: Db, b: int): (key: Option<string>)
    ensures key.Some? <==> Resolve(node, b).Some? && db.writeOk(b)
    ensures key.Some? ==> key.value == Lower(Resolve(node, b).value.1)
  {
    match Resolve(node, b)
    case None => None
    case Some((_, signer)) => if db.writeOk(b) then Some(Lower(signer)) else None
  }

  /** The body of the inner `for`: fetch block `b`, resolve its signer, upsert. Any
      failure on the way leaves the table as it was. */
  function Step(t: SignerTable, node: Node, db: Db, b: int): SignerTable
  {
    match Resolve(node, b)
    case None => t
    case Some((info, signer)) =>
      if db.writeOk(b) then UpsertSigner(t, signer, b, info.timestamp) else t
  }

  /** The table after visiting `lo, lo + 1, ..., hi` in that order. */
  function PassUp(t: SignerTable, node: Node, db: Db, lo: int, hi: int): SignerTable
    decreases if hi < lo then 0 else hi - lo + 1
  {
    if hi < lo then t else Step(PassUp(t, node, db, lo, hi - 1), node, db, hi)
  }

  /** The table after one turn of the outer loop. */
  function IterationResult(t: SignerTable, node: Node, db: Db, head: Fetch<int>): SignerTable
  {
    match PlanIteration(head, MaxRead(t, db))
    case Pass(from, to) => PassUp(t, node, db, from, to)
    case _ => t
  }

  /** The highest block number in lo..hi that writes under `key`. */
  function LastWrite(node: Node, db: Db, key: string, lo: int, hi: int): (b: Option<int>)
    ensures b.Some? ==>
      && lo <= b.value <= hi
      && Written(node, db, b.value) == Some(key)
      && forall c :: b.value < c <= hi ==> Written(node, db, c) != Some(key)
    ensures b.None? ==> forall c :: lo <= c <= hi ==> Written(node, db, c) != Some(key)
    decreases if hi < lo then 0 else hi - lo + 1
  {
    if hi < lo then None
    else if Written(node, db, hi) == Some(key) then Some(hi)
    else LastWrite(node, db, key, lo, hi - 1)
  }

  // ---------------------------------------------------------------- properties

  /** A block whose fetch fails, whose hash or signer is falsy, or whose upsert fails
      leaves the table unchanged; the pass then goes on to the next block number. */
  lemma FailedBlockChangesNothing(t: SignerTable, node: Node, db: Db, b: int)
    requires Written(node, db, b).None?
    ensures Step(t, node, db, b) == t
  {
  }

  /** After a pass, every signer written during it holds the row of the highest
      block in the pass that it signed, and every other row is as it was. */
  lemma {:induction false} PassLastWriterWins(t: SignerTable, node: Node, db: Db, lo: int, hi: int, key: string)
    ensures var r := PassUp(t, node, db, lo, hi);
      match LastWrite(node, db, key, lo, hi)
      case Some(b) =>
        key in r && r[key] == SignerRow(b, Resolve(node, b).value.0.timestamp)
      case None =>
        (key in r <==> key in t) && (key in t ==> r[key] == t[key])
    decreases if hi < lo then 0 else hi - lo + 1
  {
    if hi >= lo {
      PassLastWriterWins(t, node, db, lo, hi - 1, key);
    }
  }

  /** A pass writes no row outside the block numbers it visits. */
  lemma PassWritesOnlyVisited(t: SignerTable, node: Node, db: Db, lo: int, hi: int)
    ensures var r := PassUp(t, node, db, lo, hi);
      forall key :: key in r ==> (key in t && r[key] == t[key]) || lo <= r[key].blockNumber <= hi
  {
    var r := PassUp(t, node, db, lo, hi);
    forall key | key in r
      ensures (key in t && r[key] == t[key]) || lo <= r[key].blockNumber <= hi
    {
      PassLastWriterWins(t, node, db, lo, hi, key);
    }
  }

  /** One turn of the outer loop never writes a block number above head - 10, nor
      below the watermark it started from. */
  lemma IterationStaysBelowTarget(t: SignerTable, node: Node, db: Db, head: Fetch<int>)
    ensures var r := IterationResult(t, node, db, head);
      forall key :: key in r ==>
        (key in t && r[key] == t[key]) ||
        (head.Got? && MaxRead(t, db).Got? &&
         Watermark(MaxRead(t, db).value, head.value) <= r[key].blockNumber <= head.value - ConfirmationLag)
  {
    match PlanIteration(head, MaxRead(t, db))
    case Pass(from, to) =>
      PassWritesOnlyVisited(t, node, db, from, to);
    case _ =>
  }

  // ---------------------------------------------------------------- the program

  /** The SQLite `signer` table with its failure behaviour. */
  class SignerStore {
    var signers: SignerTable
    const db: Db

    constructor(initial: SignerTable, db: Db)
      ensures signers == initial && this.db == db
    {
      signers := initial;
      this.db := db;
    }

    /** `getMaxBlockNumber`. A failed read comes back as `Failed`; the caller turns it into
        `Crash`, since the callback then reads a field of the undefined row and throws. */
    method GetMaxBlockNumber() returns (m: Fetch<Option<int>>)
      ensures m == MaxRead(signers, db)
    {
      if db.readOk {
        m := Got(MaxBlockNumber(signers));
      } else {
        m := Failed;
      }
    }

    /** `updateSigner`: the upsert, or a rejected promise that leaves the table alone. */
    method UpdateSigner(signerAddress: string, blockNumber: int, timestamp: int) returns (ok: bool)
      modifies this
      ensures ok == db.writeOk(blockNumber)
      ensures signers == if ok then UpsertSigner(old(signers), signerAddress, blockNumber, timestamp) else old(signers)
    {
      ok := db.writeOk(blockNumber);
      if ok {
        signers := signers[Lower(signerAddress) := SignerRow(blockNumber, timestamp)];
      }
    }
  }

  /** One turn of the `while (true)` loop of `processBlocks`, given what
      `eth_blockNumber` answered. `visited` lists the block numbers fetched, in order. */
  method ProcessIteration(store: SignerStore, node: Node, head: Fetch<int>) returns (plan: Plan, visited: seq<int>)
    modifies store
    ensures plan == PlanIteration(head, MaxRead(old(store.signers), store.db))
    ensures store.signers == IterationResult(old(store.signers), node, store.db, head)
    ensures visited == if plan.Pass? then Ascending(plan.from, plan.to) else []
  {
    visited := [];
    if head.Failed? {
      plan := Backoff;
      return;
    }
    var maxRead := store.GetMaxBlockNumber();
    if maxRead.Failed? {
      plan := Crash;
      return;
    }
    var latestBlockProcessed := Watermark(maxRead.value, head.value);
    var maxBlockToProcess := head.value - ConfirmationLag;
    if maxBlockToProcess <= latestBlockProcessed {
      plan := Idle;
      return;
    }
    plan := Pass(latestBlockProcessed, maxBlockToProcess);
    ghost var t0 := store.signers;
    for blockNumber := latestBlockProcessed to maxBlockToProcess + 1
      invariant store.signers == PassUp(t0, node, store.db, latestBlockProcessed, blockNumber - 1)
      invariant visited == Ascending(latestBlockProcessed, blockNumber - 1)
    {
      var blockInfo := node.blockAt(blockNumber);
      if blockInfo.Got? && blockInfo.value.hash != "" {
        var signerAddress := node.signerOf(blockInfo.value.hash);
        if signerAddress.Got? && signerAddress.value != "" {
          var _ := store.UpdateSigner(signerAddress.value, blockNumber, blockInfo.value.timestamp);
        }
      }
      visited := visited + [blockNumber];
    }
  }
}
