/** What every script shares: the node's JSON-RPC answers as oracles, the decoded
    block summary, the record the block table stores, the SQL aggregates the
    watermarks are read with, and the block ranges the passes walk. */
module Chain {
  import opened Js

  /** The outcome of one RPC call or store access: it threw, or it produced a value. */
  datatype Fetch<+T> = Failed | Got(value: T)

  /** `eth_getBlockByNumber`, decoded: an empty `hash` is a falsy one, `timestamp`
      and `gasUsed` are the integers of their hex fields, and `transactionCount`
      is the length of the `transactions` list. An answer without these fields
      (or `null`) makes the script throw, and is `Failed` here. */
  datatype BlockInfo = BlockInfo(hash: string, timestamp: int, transactionCount: nat, gasUsed: int)

  /** The node as the scripts see it: what `eth_getBlockByNumber` answers for a block
      number, and what `clique_getSigner` answers for a block hash (an empty string
      for a falsy answer). */
  datatype Node = Node(blockAt: int -> Fetch<BlockInfo>, signerOf: string -> Fetch<string>)

  /** How the database behaves over one run: whether the watermark query succeeds,
      and, per block number, whether the upsert for that block succeeds. */
  datatype Db = Db(readOk: bool, writeOk: int -> bool)

  /** A row of the `block` table, and a line of the staging file. */
  datatype BlockRecord = BlockRecord(
    blockNumber: int,
    timestamp: int,
    hash: string,
    signerAddress: string,
    transactionCount: nat,
    feeEarned: int)

  /** The block table, keyed by `block_number`. */
  type BlockTable = map<int, BlockRecord>

  /** The fetch-and-resolve unit for one block: the block summary and the signer the
      node names for it, when the block was fetched, its hash is truthy, and the
      signer call answered with a truthy address. */
  function Resolve(node: Node, b: int): (r: Option<(BlockInfo, string)>)
    ensures r.Some? <==>
      && node.blockAt(b).Got?
      && node.blockAt(b).value.hash != ""
      && node.signerOf(node.blockAt(b).value.hash).Got?
      && node.signerOf(node.blockAt(b).value.hash).value != ""
    ensures r.Some? ==>
      && r.value.0 == node.blockAt(b).value
      && r.value.1 == node.signerOf(r.value.0.hash).value
  {
    match node.blockAt(b)
    case Failed => None
    case Got(info) =>
      if info.hash == "" then None
      else
        match node.signerOf(info.hash)
        case Failed => None
        case Got(signer) => if signer == "" then None else Some((info, signer))
  }

  /** JavaScript truthiness of the cached gas price: unset, `NaN` and `0` are falsy. */
  predicate GasPriceSet(gasPrice: Option<int>)
  {
    gasPrice.Some? && gasPrice.value != 0
  }

  // ---------------------------------------------------------------- ranges

  /** The block numbers `lo, lo + 1, ..., hi`. */
  function Ascending(lo: int, hi: int): (r: seq<int>)
    ensures |r| == if hi < lo then 0 else hi - lo + 1
    ensures forall i :: 0 <= i < |r| ==> r[i] == lo + i
    decreases if hi < lo then 0 else hi - lo + 1
  {
    if hi < lo then [] else Ascending(lo, hi - 1) + [hi]
  }

  /** The block numbers `hi, hi - 1, ..., lo`. */
  function Descending(hi: int, lo: int): (r: seq<int>)
    ensures |r| == if hi < lo then 0 else hi - lo + 1
    ensures forall i :: 0 <= i < |r| ==> r[i] == hi - i
    decreases if hi < lo then 0 else hi - lo + 1
  {
    if hi < lo then [] else Descending(hi, lo + 1) + [lo]
  }

  // ---------------------------------------------------------------- SQL aggregates

  /** A non-empty set has an element. */
  lemma ElementOf<X>(s: set<X>) returns (y: X)
    requires s != {}
    ensures y in s
  {
    if forall z :: z !in s {
      assert false;
    }
    y :| y in s;
  }

  lemma {:induction false} HasMax(s: set<int>)
    requires s != {}
    ensures exists m :: m in s && forall x :: x in s ==> x <= m
    decreases |s|
  {
    var y := ElementOf(s);
    var r := s - {y};
    if r == {} {
      forall x | x in s ensures x <= y {
        assert x == y || x in r;
      }
    } else {
      assert |r| < |s| by { assert s == r + {y}; }
      HasMax(r);
      var m :| m in r && forall x :: x in r ==> x <= m;
      var top := if y > m then y else m;
      forall x | x in s
        ensures x <= top
      {
        assert x == y || x in r;
      }
    }
  }

  lemma {:induction false} HasMin(s: set<int>)
    requires s != {}
    ensures exists m :: m in s && forall x :: x in s ==> m <= x
    decreases |s|
  {
    var y := ElementOf(s);
    var r := s - {y};
    if r == {} {
      forall x | x in s ensures y <= x {
        assert x == y || x in r;
      }
    } else {
      assert |r| < |s| by { assert s == r + {y}; }
      HasMin(r);
      var m :| m in r && forall x :: x in r ==> m <= x;
      var bottom := if y < m then y else m;
      forall x | x in s
        ensures bottom <= x
      {
        assert x == y || x in r;
      }
    }
  }

  /** `MAX(...)` over a non-empty column. */
  function MaxOf(s: set<int>): (m: int)
    requires s != {}
    ensures m in s && forall x :: x in s ==> x <= m
  {
    HasMax(s);
    var m :| m in s && forall x :: x in s ==> x <= m; m
  }

  /** `MIN(...)` over a non-empty column. */
  function MinOf(s: set<int>): (m: int)
    requires s != {}
    ensures m in s && forall x :: x in s ==> m <= x
  {
    HasMin(s);
    var m :| m in s && forall x :: x in s ==> m <= x; m
  }

  /** `SELECT MIN(block_number) FROM block`: `null` on an empty table. */
  function MinBlockNumber(t: BlockTable): (m: Option<int>)
    ensures m.None? <==> t == map[]
    ensures m.Some? ==> m.value in t && forall b :: b in t ==> m.value <= b
  {
    if t == map[] then None
    else
      assert t.Keys != {};
      Some(MinOf(t.Keys))
  }

  /** Upsert by `block_number`: the record replaces whatever row the block had. */
  function UpsertBlock(t: BlockTable, r: BlockRecord): (t': BlockTable)
    ensures t'.Keys == t.Keys + {r.blockNumber}
    ensures t'[r.blockNumber] == r
    ensures forall b :: b in t && b != r.blockNumber ==> t'[b] == t[b]
  {
    t[r.blockNumber := r]
  }

  /** Writing the same block twice leaves exactly the second payload. */
  lemma UpsertBlockTwice(t: BlockTable, r1: BlockRecord, r2: BlockRecord)
    requires r1.blockNumber == r2.blockNumber
    ensures UpsertBlock(UpsertBlock(t, r1), r2) == UpsertBlock(t, r2)
  {
  }
}
