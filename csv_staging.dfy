/** The CSV staging writer of `blockProcessorToCsv.js`: it walks block numbers upward
    from 71, buffers one record per block whose signer resolves, and every 10 records
    appends the buffer to `blocks.csv`, writing the header line first when the file
    does not exist yet. */
module CsvStaging {
  import opened Js
  import opened Chain

  /** The first block number the writer fetches. */
  const StartBlock: int := 71

  /** The buffer is flushed when it holds this many records. */
  const WriteQty: nat := 10

  /** The first line of a new staging file. */
  const Header: string := "block_number,timestamp,hash,signer_address,transaction_count,fee_earned\n"

  // ---------------------------------------------------------------- serialisation

  /** The six columns of one record, in header order, as the template literal prints them. */
  function Fields(r: BlockRecord): (f: seq<string>)
    ensures |f| == 6
  {
    [IntToDecimal(r.blockNumber), IntToDecimal(r.timestamp), r.hash, r.signerAddress,
     IntToDecimal(r.transactionCount), IntToDecimal(r.feeEarned)]
  }

  /** One record's line, without its line break. */
  function Line(r: BlockRecord): string
  {
    Join(Fields(r), ",")
  }

  /** `data.map(...).join('\n') + '\n'`: what one call of `appendToCsv` appends. */
  function CsvData(data: seq<BlockRecord>): string
  {
    Join(seq(|data|, i requires 0 <= i < |data| => Line(data[i])), "\n") + "\n"
  }

  /** Every record's line, each followed by a line break, in order. */
  function Lines(data: seq<BlockRecord>): string
    decreases |data|
  {
    if data == [] then "" else Line(data[0]) + "\n" + Lines(data[1..])
  }

  /** For a non-empty batch the joined text is one terminated line per record. */
  lemma {:induction false} CsvDataIsLines(data: seq<BlockRecord>)
    requires data != []
    ensures CsvData(data) == Lines(data)
    decreases |data|
  {
    var lines := seq(|data|, i requires 0 <= i < |data| => Line(data[i]));
    if |data| == 1 {
      assert Lines(data) == Line(data[0]) + "\n" + "";
    } else {
      var rest := seq(|data| - 1, i requires 0 <= i < |data| - 1 => Line(data[1..][i]));
      assert lines[1..] == rest;
      CsvDataIsLines(data[1..]);
      assert Join(lines, "\n") == lines[0] + "\n" + Join(rest, "\n");
    }
  }

  lemma {:induction false} LinesAppend(a: seq<BlockRecord>, b: seq<BlockRecord>)
    ensures Lines(a + b) == Lines(a) + Lines(b)
    decreases |a|
  {
    if a == [] {
      assert a + b == b;
    } else {
      assert (a + b)[1..] == a[1..] + b;
      LinesAppend(a[1..], b);
    }
  }

  /** What `appendToCsv` leaves in the file: the old content, or the header when the
      file did not exist, followed by the batch. */
  function AppendToCsv(file: Option<string>, data: seq<BlockRecord>): string
  {
    FileBase(file) + CsvData(data)
  }

  /** The text a flush appends to: the header for a missing file, its content otherwise. */
  function FileBase(file: Option<string>): string
  {
    match file
    case None => Header
    case Some(text) => text
  }

  // ---------------------------------------------------------------- one block

  /** The writer's state between two turns of its `for (;;)` loop. */
  datatype Stager = Stager(blockNumber: int, gasPrice: Option<int>, blocksToWrite: seq<BlockRecord>,
                           file: Option<string>)

  /** The state before the first turn, with the staging file as it is on disk. */
  function Start(file: Option<string>): Stager
  {
    Stager(StartBlock, None, [], file)
  }

  /** The record block `s.blockNumber` pushes, when it pushes one: the gas price was
      cached or could be fetched, the block was fetched, and its hash and signer are
      truthy. `quote` is what `eth_gasPrice` answers if it is asked in this turn. */
  function Pushed(s: Stager, node: Node, quote: Fetch<int>): (r: Option<BlockRecord>)
    ensures r.Some? <==> (GasPriceSet(s.gasPrice) || quote.Got?) && Resolve(node, s.blockNumber).Some?
    ensures r.Some? ==>
      && Resolve(node, s.blockNumber).Some?
      && var (info, signer) := Resolve(node, s.blockNumber).value;
         var price := if GasPriceSet(s.gasPrice) then s.gasPrice.value else quote.value;
         r.value == BlockRecord(s.blockNumber, info.timestamp, info.hash, Lower(signer), info.transactionCount,
                                info.gasUsed * price)
  {
    var gas := if GasPriceSet(s.gasPrice) then Got(s.gasPrice.value) else quote;
    match gas
    case Failed => None
    case Got(price) =>
      match Resolve(node, s.blockNumber)
      case None => None
      case Some((info, signer)) =>
        Some(BlockRecord(s.blockNumber, info.timestamp, info.hash, Lower(signer), info.transactionCount,
                         info.gasUsed * price))
  }

  /** The record block `s.blockNumber` pushes, as a list of zero or one records. */
  function PushedSeq(s: Stager, node: Node, quote: Fetch<int>): seq<BlockRecord>
  {
    match Pushed(s, node, quote)
    case None => []
    case Some(r) => [r]
  }

  /** One turn: the gas price is captured if unset, the record (if any) is pushed, a full
      buffer is flushed and reset, and the block number moves on whatever happened. */
  function Step(s: Stager, node: Node, quote: Fetch<int>): Stager
  {
    var gasPrice := if GasPriceSet(s.gasPrice) || quote.Failed? then s.gasPrice else Some(quote.value);
    match Pushed(s, node, quote)
    case None => Stager(s.blockNumber + 1, gasPrice, s.blocksToWrite, s.file)
    case Some(r) =>
      var buffer := s.blocksToWrite + [r];
      if |buffer| >= WriteQty then Stager(s.blockNumber + 1, gasPrice, [], Some(AppendToCsv(s.file, buffer)))
      else Stager(s.blockNumber + 1, gasPrice, buffer, s.file)
  }

  /** The state after `n` turns; `quotes(b)` is what `eth_gasPrice` answers when it is
      asked while block `b` is processed. */
  function Run(s: Stager, node: Node, quotes: int -> Fetch<int>, n: nat): Stager
    decreases n
  {
    if n == 0 then s else Run(Step(s, node, quotes(s.blockNumber)), node, quotes, n - 1)
  }

  /** The records pushed during those `n` turns, in order. */
  function Staged(s: Stager, node: Node, quotes: int -> Fetch<int>, n: nat): seq<BlockRecord>
    decreases n
  {
    if n == 0 then []
    else
      PushedSeq(s, node, quotes(s.blockNumber)) + Staged(Step(s, node, quotes(s.blockNumber)), node, quotes, n - 1)
  }

  // ---------------------------------------------------------------- properties

  /** After any number of turns from a state whose buffer is not full: the block number
      has advanced by one per turn; of all records buffered or pushed, the largest
      multiple of 10 has been flushed, in order, and the rest (fewer than 10) are still
      buffered; and the file, if anything was flushed, holds its old content (or the
      header, for a file that did not exist) followed by one line per flushed record. */
  lemma {:induction false} RunLayout(s: Stager, node: Node, quotes: int -> Fetch<int>, n: nat)
    requires |s.blocksToWrite| < WriteQty
    ensures var all := s.blocksToWrite + Staged(s, node, quotes, n);
      var k := |all| - |all| % WriteQty;
      var r := Run(s, node, quotes, n);
      && r.blockNumber == s.blockNumber + n
      && r.blocksToWrite == all[k..]
      && |r.blocksToWrite| < WriteQty
      && r.file == if k == 0 then s.file else Some(FileBase(s.file) + Lines(all[..k]))
    decreases n
  {
    if n > 0 {
      var quote := quotes(s.blockNumber);
      var s' := Step(s, node, quote);
      var rest := Staged(s', node, quotes, n - 1);
      var buffer := s.blocksToWrite + PushedSeq(s, node, quote);
      assert s.blocksToWrite + Staged(s, node, quotes, n) == buffer + rest;
      assert Run(s, node, quotes, n) == Run(s', node, quotes, n - 1);
      RunLayout(s', node, quotes, n - 1);
      StepShape(s, node, quote);
      if s'.blocksToWrite == [] && |buffer| == WriteQty {
        assert [] + rest == rest;
        FlushLayout(buffer, rest, FileBase(s.file));
      } else {
        assert s'.blocksToWrite + rest == buffer + rest;
      }
    }
  }

  /** One turn either only buffers what it pushes, or fills the buffer and flushes it. */
  lemma StepShape(s: Stager, node: Node, quote: Fetch<int>)
    requires |s.blocksToWrite| < WriteQty
    ensures var s' := Step(s, node, quote);
      var buffer := s.blocksToWrite + PushedSeq(s, node, quote);
      && s'.blockNumber == s.blockNumber + 1
      && |s'.blocksToWrite| < WriteQty
      && if s'.blocksToWrite == [] && |buffer| == WriteQty
         then s'.file == Some(FileBase(s.file) + Lines(buffer))
         else s'.file == s.file && s'.blocksToWrite == buffer
  {
    var buffer := s.blocksToWrite + PushedSeq(s, node, quote);
    if |buffer| == WriteQty {
      CsvDataIsLines(buffer);
    }
  }

  /** One turn's effect on the cached gas price: a falsy one is replaced by the quote
      when `eth_gasPrice` answers, and is kept when the call fails; a truthy one is kept. */
  lemma StepGasPrice(s: Stager, node: Node, quote: Fetch<int>)
    ensures Step(s, node, quote).gasPrice ==
      if !GasPriceSet(s.gasPrice) && quote.Got? then Some(quote.value) else s.gasPrice
  {
  }

  /** The arithmetic of a flush: a full buffer ahead of the later records shifts the
      flushed prefix by exactly one batch. */
  lemma FlushLayout(buffer: seq<BlockRecord>, rest: seq<BlockRecord>, base: string)
    requires |buffer| == WriteQty
    ensures var all := buffer + rest;
      var k := |all| - |all| % WriteQty;
      var k' := |rest| - |rest| % WriteQty;
      && k == WriteQty + k'
      && all[k..] == rest[k'..]
      && (if k' == 0 then base + Lines(buffer) else base + Lines(buffer) + Lines(rest[..k'])) == base + Lines(all[..k])
  {
    var all := buffer + rest;
    var k' := |rest| - |rest| % WriteQty;
    assert (WriteQty + |rest|) % WriteQty == |rest| % WriteQty;
    var k := WriteQty + k';
    assert all[k..] == rest[k'..];
    assert all[..k] == buffer + rest[..k'];
    LinesAppend(buffer, rest[..k']);
    if k' == 0 {
      assert Lines(rest[..k']) == "";
      assert Lines(buffer) + "" == Lines(buffer);
    }
  }

  /** With a fresh file and an empty buffer the layout is exact: after every flush the
      file is the header line followed by the flushed records' lines. */
  lemma FreshFileLayout(node: Node, quotes: int -> Fetch<int>, n: nat)
    ensures var staged := Staged(Start(None), node, quotes, n);
      var k := |staged| - |staged| % WriteQty;
      var r := Run(Start(None), node, quotes, n);
      && r.blockNumber == StartBlock + n
      && r.blocksToWrite == staged[k..]
      && r.file == if k == 0 then None else Some(Header + Lines(staged[..k]))
  {
    RunLayout(Start(None), node, quotes, n);
    assert [] + Staged(Start(None), node, quotes, n) == Staged(Start(None), node, quotes, n);
  }

  /** Once the gas price is truthy it is never fetched again, never changes, and every
      record pushed afterwards has fee = gasUsed * that price. */
  lemma {:induction false} GasPriceStaysCaptured(s: Stager, node: Node, quotes: int -> Fetch<int>, n: nat)
    requires GasPriceSet(s.gasPrice)
    ensures Run(s, node, quotes, n).gasPrice == s.gasPrice
    ensures forall r :: r in Staged(s, node, quotes, n) ==>
      && Resolve(node, r.blockNumber).Some?
      && r.feeEarned == Resolve(node, r.blockNumber).value.0.gasUsed * s.gasPrice.value
    decreases n
  {
    if n > 0 {
      var s' := Step(s, node, quotes(s.blockNumber));
      GasPriceStaysCaptured(s', node, quotes, n - 1);
    }
  }

  /** The lazy capture: while the cached price is falsy, the first quote that arrives is
      cached, and from then on every record's fee is gas used times that quote, provided
      it is truthy. */
  lemma FirstQuoteCaptured(s: Stager, node: Node, quotes: int -> Fetch<int>, n: nat)
    requires !GasPriceSet(s.gasPrice) && quotes(s.blockNumber).Got? && quotes(s.blockNumber).value != 0
    requires n >= 1
    ensures Run(s, node, quotes, n).gasPrice == Some(quotes(s.blockNumber).value)
    ensures forall r :: r in Staged(s, node, quotes, n) ==>
      && Resolve(node, r.blockNumber).Some?
      && r.feeEarned == Resolve(node, r.blockNumber).value.0.gasUsed * quotes(s.blockNumber).value
  {
    var s' := Step(s, node, quotes(s.blockNumber));
    StepGasPrice(s, node, quotes(s.blockNumber));
    GasPriceStaysCaptured(s', node, quotes, n - 1);
  }

  /** Every record pushed in a run carries the number of the block it came from, which
      lies in the range the run visited, and that block's timestamp, hash and transaction
      count, with its signer lower-cased; no record for a block that did not resolve is
      ever pushed. */
  lemma {:induction false} StagedRecordsResolved(s: Stager, node: Node, quotes: int -> Fetch<int>, n: nat)
    ensures forall r :: r in Staged(s, node, quotes, n) ==>
      && s.blockNumber <= r.blockNumber < s.blockNumber + n
      && Resolve(node, r.blockNumber).Some?
      && var (info, signer) := Resolve(node, r.blockNumber).value;
         && r.timestamp == info.timestamp && r.hash == info.hash
         && r.signerAddress == Lower(signer) && r.transactionCount == info.transactionCount
    decreases n
  {
    if n > 0 {
      var s' := Step(s, node, quotes(s.blockNumber));
      StagedRecordsResolved(s', node, quotes, n - 1);
    }
  }

  /** Conversely, every block of the range that resolves is staged, provided a gas price
      is cached when its turn begins (captured before the run or earlier in it) or
      `eth_gasPrice` answers in that turn. */
  lemma {:induction false} ResolvedBlocksStaged(s: Stager, node: Node, quotes: int -> Fetch<int>, n: nat, b: int)
    requires s.blockNumber <= b < s.blockNumber + n && Resolve(node, b).Some?
    requires GasPriceSet(Run(s, node, quotes, b - s.blockNumber).gasPrice) || quotes(b).Got?
    ensures exists r :: r in Staged(s, node, quotes, n) && r.blockNumber == b
    decreases n
  {
    var s' := Step(s, node, quotes(s.blockNumber));
    if b == s.blockNumber {
      var r := Pushed(s, node, quotes(s.blockNumber)).value;
      assert r in Staged(s, node, quotes, n);
    } else {
      assert Run(s, node, quotes, b - s.blockNumber) == Run(s', node, quotes, b - s'.blockNumber);
      ResolvedBlocksStaged(s', node, quotes, n - 1, b);
      var r :| r in Staged(s', node, quotes, n - 1) && r.blockNumber == b;
      assert r in Staged(s, node, quotes, n);
    }
  }

  // ---------------------------------------------------------------- the program

  /** The first `n` turns of `processBlocks`, starting from the staging file as it is on
      disk (`None` when it does not exist). `visited` lists the block numbers tried. */
  method ProcessBlocks(node: Node, quotes: int -> Fetch<int>, n: nat, onDisk: Option<string>)
    returns (file: Option<string>, blocksToWrite: seq<BlockRecord>, gasPrice: Option<int>,
             blockNumber: int, visited: seq<int>)
    ensures Stager(blockNumber, gasPrice, blocksToWrite, file) == Run(Start(onDisk), node, quotes, n)
    ensures visited == Ascending(StartBlock, StartBlock + n - 1)
  {
    file, blocksToWrite, gasPrice, blockNumber := onDisk, [], None, StartBlock;
    visited := [];
    var turn := 0;
    while turn < n
      invariant 0 <= turn <= n
      invariant blockNumber == StartBlock + turn
      invariant Run(Start(onDisk), node, quotes, n) ==
                Run(Stager(blockNumber, gasPrice, blocksToWrite, file), node, quotes, n - turn)
      invariant visited == Ascending(StartBlock, blockNumber - 1)
    {
      visited := visited + [blockNumber];
      var failed := false;
      if !GasPriceSet(gasPrice) {
        var quote := quotes(blockNumber);
        if quote.Failed? {
          failed := true;
        } else {
          gasPrice := Some(quote.value);
        }
      }
      if !failed {
        var blockInfo := node.blockAt(blockNumber);
        if blockInfo.Got? {
          var feeEarned := blockInfo.value.gasUsed * gasPrice.value;
          if blockInfo.value.hash != "" {
            var signerAddress := node.signerOf(blockInfo.value.hash);
            if signerAddress.Got? && signerAddress.value != "" {
              blocksToWrite := blocksToWrite + [BlockRecord(blockNumber, blockInfo.value.timestamp,
                                                            blockInfo.value.hash, Lower(signerAddress.value),
                                                            blockInfo.value.transactionCount, feeEarned)];
              if |blocksToWrite| >= WriteQty {
                file := Some(AppendToCsv(file, blocksToWrite));
                blocksToWrite := [];
              }
            }
          }
        }
      }
      blockNumber := blockNumber + 1;
      turn := turn + 1;
    }
  }
}
