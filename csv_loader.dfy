/** The bulk loader of `loadFromCsv.js`: it consumes the rows the CSV parser emits
    from `blocks.csv`, in order, turns each into a six-column tuple, inserts them
    into the Postgres `block` table 1000 at a time with one multi-row upsert, and
    stops at the first row above an optional `MAX_BLOCK`. */
module CsvLoader {
  import opened Js
  import opened Chain
  import CsvStaging

  /** A batch is inserted once it holds this many tuples. */
  const BatchSize: nat := 1000

  /** The number of columns, and so of placeholders, per tuple. */
  const Arity: nat := 6

  // ---------------------------------------------------------------- rows and tuples

  /** A row as the CSV parser hands it over: one text per header column. */
  datatype CsvRow = CsvRow(blockNumber: string, timestamp: string, hash: string, signerAddress: string,
                           transactionCount: string, feeEarned: string)

  /** A query parameter: an integer column (`None` for `NaN`), a text column, and the
      fee, which the loader passes as a float and which is kept here as its text. */
  datatype SqlValue = Number(n: Option<int>) | Text(s: string) | Float(literal: string)

  /** The array `batch.push` receives for one row. */
  datatype Tuple = Tuple(blockNumber: Option<int>, timestamp: Option<int>, hash: string, signerAddress: string,
                         transactionCount: Option<int>, feeEarned: string)

  /** The conversion of one row: `parseInt` for the integer columns, the signer
      lower-cased, the hash as it is, and the fee text for `parseFloat`. */
  function ToTuple(row: CsvRow): Tuple
  {
    Tuple(ParseInt(row.blockNumber), ParseInt(row.timestamp), row.hash, Lower(row.signerAddress),
          ParseInt(row.transactionCount), row.feeEarned)
  }

  /** The six parameters of one tuple, in column order. */
  function Params(t: Tuple): (p: seq<SqlValue>)
    ensures |p| == Arity
  {
    [Number(t.blockNumber), Number(t.timestamp), Text(t.hash), Text(t.signerAddress),
     Number(t.transactionCount), Float(t.feeEarned)]
  }

  // ---------------------------------------------------------------- insertBatch

  /** `batch.flat()`: every tuple's parameters, tuple after tuple. */
  function Flat(batch: seq<Tuple>): (f: seq<SqlValue>)
    ensures |f| == Arity * |batch|
  {
    if batch == [] then [] else Flat(batch[..|batch| - 1]) + Params(batch[|batch| - 1])
  }

  /** The placeholder numbers of the `i`-th parenthesised group: `$(6i+1) .. $(6i+6)`. */
  function Slots(i: nat): seq<nat>
  {
    seq(Arity, j requires 0 <= j < Arity => Arity * i + j + 1)
  }

  /** The `i`-th group of the `VALUES` list, `($1, $2, $3, $4, $5, $6)` for `i = 0`. */
  function Group(i: nat): string
  {
    "(" + Join(seq(Arity, j requires 0 <= j < Arity => "$" + NatToDecimal(Slots(i)[j])), ", ") + ")"
  }

  /** The placeholder numbers the `VALUES` list of an `n`-row insert mentions, in order. */
  function Numbering(n: nat): seq<nat>
  {
    if n == 0 then [] else Numbering(n - 1) + Slots(n - 1)
  }

  /** The statement `insertBatch` sends: the `VALUES` list and its parameters. */
  datatype Query = Query(values: string, params: seq<SqlValue>)

  function InsertBatch(batch: seq<Tuple>): (q: Query)
    ensures |q.params| == Arity * |batch|
    ensures |q.params| == |Numbering(|batch|)|
  {
    NumberingIsOneToN(|batch|);
    Query(Join(seq(|batch|, i requires 0 <= i < |batch| => Group(i)), ","), Flat(batch))
  }

  /** The placeholders of an `n`-row insert are `$1 .. $(6n)`, each exactly once and in
      increasing order, so they are as many as the parameters `batch.flat()` supplies. */
  lemma {:induction false} NumberingIsOneToN(n: nat)
    ensures Numbering(n) == seq(Arity * n, p requires 0 <= p < Arity * n => p + 1)
  {
    if n > 0 {
      NumberingIsOneToN(n - 1);
      var all := seq(Arity * n, p requires 0 <= p < Arity * n => p + 1);
      assert all[..Arity * (n - 1)] == Numbering(n - 1);
      assert all[Arity * (n - 1)..] == Slots(n - 1);
      assert all == all[..Arity * (n - 1)] + all[Arity * (n - 1)..];
    }
  }

  /** Placeholder `$p` of group `i`, column `j`, names the `j`-th value of tuple `i`:
      the numbering and the flattening agree. */
  lemma {:induction false} SlotBindsColumn(batch: seq<Tuple>, i: nat, j: nat)
    requires i < |batch| && j < Arity
    ensures Slots(i)[j] <= |InsertBatch(batch).params|
    ensures InsertBatch(batch).params[Slots(i)[j] - 1] == Params(batch[i])[j]
    decreases |batch|
  {
    var last := |batch| - 1;
    var front := batch[..last];
    assert Flat(batch) == Flat(front) + Params(batch[last]);
    if i < last {
      SlotBindsColumn(front, i, j);
      assert InsertBatch(front).params == Flat(front);
    }
  }

  // ---------------------------------------------------------------- the data handler

  /** `process.env.MAX_BLOCK ? parseInt(process.env.MAX_BLOCK, 10) : null`. */
  function MaxBlock(env: Option<string>): (m: Option<int>)
    ensures env.None? || env.value == "" ==> m.None?
    ensures env.Some? && env.value != "" ==> m == ParseInt(env.value)
  {
    match env
    case None => None
    case Some(text) => if text == "" then None else ParseInt(text)
  }

  /** `MAX_BLOCK && blockNumber > MAX_BLOCK`: a `null`, `0` or `NaN` bound is off, and a
      `NaN` block number is never above it. */
  predicate Exceeds(maxBlock: Option<int>, blockNumber: Option<int>)
  {
    maxBlock.Some? && maxBlock.value != 0 && blockNumber.Some? && blockNumber.value > maxBlock.value
  }

  /** What the handler makes of one row, before looking at the batch. */
  datatype Disposition = Skip | Stop | Take(t: Tuple)

  function Classify(row: Option<CsvRow>, maxBlock: Option<int>): (d: Disposition)
    ensures d.Skip? <==> row.None? || row.value.blockNumber == ""
    ensures d.Stop? <==> row.Some? && row.value.blockNumber != "" && Exceeds(maxBlock, ParseInt(row.value.blockNumber))
    ensures d.Take? ==> d.t == ToTuple(row.value) && !Exceeds(maxBlock, d.t.blockNumber)
  {
    if row.None? || row.value.blockNumber == "" then Skip
    else if Exceeds(maxBlock, ParseInt(row.value.blockNumber)) then Stop
    else Take(ToTuple(row.value))
  }

  /** The tuples the rows are meant to load: every row with a block number, up to the
      first one above the bound. */
  function Accepted(rows: seq<Option<CsvRow>>, maxBlock: Option<int>): seq<Tuple>
  {
    if rows == [] then []
    else
      match Classify(rows[0], maxBlock)
      case Skip => Accepted(rows[1..], maxBlock)
      case Stop => []
      case Take(t) => [t] + Accepted(rows[1..], maxBlock)
  }

  /** Some row with a block number is above the bound. */
  predicate Halts(rows: seq<Option<CsvRow>>, maxBlock: Option<int>)
  {
    rows != [] && (Classify(rows[0], maxBlock).Stop? || Halts(rows[1..], maxBlock))
  }

  lemma {:induction false} HaltsAtSomeRow(rows: seq<Option<CsvRow>>, maxBlock: Option<int>)
    ensures Halts(rows, maxBlock) <==> exists i :: 0 <= i < |rows| && Classify(rows[i], maxBlock).Stop?
  {
    if rows != [] {
      HaltsAtSomeRow(rows[1..], maxBlock);
      if Halts(rows[1..], maxBlock) {
        var i :| 0 <= i < |rows[1..]| && Classify(rows[1..][i], maxBlock).Stop?;
        assert rows[i + 1] == rows[1..][i];
      }
      if exists i :: 0 <= i < |rows| && Classify(rows[i], maxBlock).Stop? {
        var i :| 0 <= i < |rows| && Classify(rows[i], maxBlock).Stop?;
        if i > 0 {
          assert rows[1..][i - 1] == rows[i];
        }
      }
    }
  }

  /** One call of `insertBatch`: the tuples it carried and whether it succeeded. */
  datatype Insert = Insert(rows: seq<Tuple>, ok: bool)

  /** The `block` table, keyed by `block_number`. */
  type Table = map<int, Tuple>

  /** The upsert of one tuple: all non-key columns are overwritten. A tuple without a
      numeric block number has no key to land under and changes nothing. */
  function UpsertTuple(t: Table, tuple: Tuple): (t': Table)
    ensures tuple.blockNumber.None? ==> t' == t
    ensures tuple.blockNumber.Some? ==>
      && t'.Keys == t.Keys + {tuple.blockNumber.value}
      && t'[tuple.blockNumber.value] == tuple
      && forall b :: b in t && b != tuple.blockNumber.value ==> t'[b] == t[b]
  {
    match tuple.blockNumber
    case None => t
    case Some(b) => t[b := tuple]
  }

  /** The table after upserting `rows` in order. */
  function UpsertAll(t: Table, rows: seq<Tuple>): Table
  {
    if rows == [] then t else UpsertTuple(UpsertAll(t, rows[..|rows| - 1]), rows[|rows| - 1])
  }

  /** The tuples the successful inserts of `log` carried, in order. */
  function Delivered(log: seq<Insert>): seq<Tuple>
  {
    if log == [] then []
    else Delivered(log[..|log| - 1]) + (if log[|log| - 1].ok then log[|log| - 1].rows else [])
  }

  /** The loader's variables: `batch`, `reachedMaxBlock`, the table, the inserts so far,
      and the status `process.exit` was called with, if it was. */
  datatype Loader = Loader(batch: seq<Tuple>, reachedMaxBlock: bool, table: Table, log: seq<Insert>,
                           exitCode: Option<int>)

  function Start(table: Table): Loader
  {
    Loader([], false, table, [], None)
  }

  /** The `data` handler for one row; `ok(k)` says whether the `k`-th insert succeeds. */
  function OnRow(s: Loader, row: Option<CsvRow>, maxBlock: Option<int>, ok: nat -> bool): Loader
  {
    if s.reachedMaxBlock then s
    else
      match Classify(row, maxBlock)
      case Skip => s
      case Stop => Halt(s, ok)
      case Take(t) => Push(s, t, ok)
  }

  /** The first row above the bound: the batch, if any, is inserted and the process
      exits, with status 1 exactly when that insert failed. */
  function Halt(s: Loader, ok: nat -> bool): Loader
  {
    if |s.batch| > 0 then
      var success := ok(|s.log|);
      Loader(s.batch, true, if success then UpsertAll(s.table, s.batch) else s.table,
             s.log + [Insert(s.batch, success)], Some(if success then 0 else 1))
    else Loader(s.batch, true, s.table, s.log, Some(0))
  }

  /** A row that is taken: its tuple is pushed, and a full batch is inserted and, only
      if that succeeded, cleared. */
  function Push(s: Loader, t: Tuple, ok: nat -> bool): Loader
  {
    var batch := s.batch + [t];
    if |batch| >= BatchSize then
      var success := ok(|s.log|);
      Loader(if success then [] else batch, false, if success then UpsertAll(s.table, batch) else s.table,
             s.log + [Insert(batch, success)], s.exitCode)
    else s.(batch := batch)
  }

  /** The rows handed to the `data` handler one after another. */
  function LoadRows(s: Loader, rows: seq<Option<CsvRow>>, maxBlock: Option<int>, ok: nat -> bool): Loader
    decreases |rows|
  {
    if rows == [] then s else LoadRows(OnRow(s, rows[0], maxBlock, ok), rows[1..], maxBlock, ok)
  }

  /** How a run ends: the table, the inserts, the exit status, and the accepted tuples
      that no successful insert carried. */
  datatype Outcome = Outcome(table: Table, log: seq<Insert>, exitCode: int, undelivered: seq<Tuple>)

  /** The accepted tuples not yet stored: none once the process exited with status 0. */
  function Undelivered(s: Loader): seq<Tuple>
  {
    if s.exitCode == Some(0) then [] else s.batch
  }

  /** The `end` handler: it never runs once the process exited at the bound; otherwise
      the leftover batch is inserted, and a failure only logged. */
  function OnEnd(s: Loader, ok: nat -> bool): Outcome
  {
    if s.exitCode.Some? then Outcome(s.table, s.log, s.exitCode.value, Undelivered(s))
    else if !s.reachedMaxBlock && |s.batch| > 0 then
      var success := ok(|s.log|);
      Outcome(if success then UpsertAll(s.table, s.batch) else s.table, s.log + [Insert(s.batch, success)], 0,
              if success then [] else s.batch)
    else Outcome(s.table, s.log, 0, s.batch)
  }

  /** A whole run of `processCsv` over the parsed rows. */
  function LoadCsv(rows: seq<Option<CsvRow>>, maxBlock: Option<int>, ok: nat -> bool, table: Table): Outcome
  {
    OnEnd(LoadRows(Start(table), rows, maxBlock, ok), ok)
  }

  // ---------------------------------------------------------------- properties of the bound

  /** Rows after the first stopping row contribute nothing. */
  lemma {:induction false} AcceptedAppend(a: seq<Option<CsvRow>>, b: seq<Option<CsvRow>>, maxBlock: Option<int>)
    ensures Accepted(a + b, maxBlock) == Accepted(a, maxBlock) + (if Halts(a, maxBlock) then [] else Accepted(b, maxBlock))
    decreases |a|
  {
    if a == [] {
      assert a + b == b;
    } else {
      assert (a + b)[0] == a[0];
      assert (a + b)[1..] == a[1..] + b;
      AcceptedAppend(a[1..], b, maxBlock);
    }
  }

  /** The first row above the bound, and every later row, is never loaded. */
  lemma AcceptedCutAtStop(rows: seq<Option<CsvRow>>, maxBlock: Option<int>, i: nat)
    requires i < |rows| && Classify(rows[i], maxBlock).Stop?
    ensures Accepted(rows, maxBlock) == Accepted(rows[..i], maxBlock)
  {
    assert rows == rows[..i] + rows[i..];
    AcceptedAppend(rows[..i], rows[i..], maxBlock);
    assert rows[i..][0] == rows[i];
  }

  /** A missing row or one with an empty block number can be dropped without effect. */
  lemma AcceptedIgnoresSkipped(rows: seq<Option<CsvRow>>, maxBlock: Option<int>, i: nat)
    requires i < |rows| && Classify(rows[i], maxBlock).Skip?
    ensures Accepted(rows, maxBlock) == Accepted(rows[..i] + rows[i + 1..], maxBlock)
  {
    assert rows == rows[..i] + rows[i..];
    AcceptedAppend(rows[..i], rows[i..], maxBlock);
    AcceptedAppend(rows[..i], rows[i + 1..], maxBlock);
    assert rows[i..][0] == rows[i] && rows[i..][1..] == rows[i + 1..];
  }

  /** No accepted tuple lies above an active bound, and every accepted tuple comes
      from a row whose block number is non-empty. */
  lemma {:induction false} AcceptedWithinBound(rows: seq<Option<CsvRow>>, maxBlock: Option<int>)
    ensures forall t :: t in Accepted(rows, maxBlock) ==>
      !Exceeds(maxBlock, t.blockNumber) &&
      exists i :: 0 <= i < |rows| && rows[i].Some? && rows[i].value.blockNumber != "" && t == ToTuple(rows[i].value)
  {
    if rows != [] {
      AcceptedWithinBound(rows[1..], maxBlock);
      forall t | t in Accepted(rows, maxBlock)
        ensures exists i :: 0 <= i < |rows| && rows[i].Some? && rows[i].value.blockNumber != "" && t == ToTuple(rows[i].value)
      {
        if t !in Accepted(rows[1..], maxBlock) {
          assert t == ToTuple(rows[0].value);
        } else {
          var i :| 0 <= i < |rows[1..]| && rows[1..][i].Some? && rows[1..][i].value.blockNumber != "" &&
                   t == ToTuple(rows[1..][i].value);
          assert rows[i + 1] == rows[1..][i];
        }
      }
    }
  }

  // ---------------------------------------------------------------- properties of a run

  lemma DeliveredAppend(log: seq<Insert>, x: Insert)
    ensures Delivered(log + [x]) == Delivered(log) + (if x.ok then x.rows else [])
  {
    assert (log + [x])[..|log|] == log;
  }

  /** A failed insert leaves its tuples in the batch, so the next insert carries them
      again, at its front. */
  predicate RetriesCarried(log: seq<Insert>)
  {
    forall k, l :: 0 <= k < |log| && l == k + 1 && l < |log| && !log[k].ok ==> log[k].rows <= log[l].rows
  }

  /** The accepted tuples accounted for so far: those the successful inserts carried,
      then those still waiting. */
  function Progress(s: Loader): seq<Tuple>
  {
    Delivered(s.log) + Undelivered(s)
  }

  /** What holds between two rows of a run that started from `table`. */
  predicate Accounted(s: Loader, table: Table)
  {
    && (s.exitCode.Some? <==> s.reachedMaxBlock)
    && (s.exitCode.None? || s.exitCode == Some(0) || s.exitCode == Some(1))
    && (s.exitCode == Some(1) ==> |s.log| > 0 && !s.log[|s.log| - 1].ok && s.batch != [])
    && s.table == UpsertAll(table, Delivered(s.log))
    && RetriesCarried(s.log)
    && (s.exitCode.None? && |s.log| > 0 && !s.log[|s.log| - 1].ok ==> s.log[|s.log| - 1].rows <= s.batch)
  }

  lemma UpsertAllAppend(t: Table, a: seq<Tuple>, b: seq<Tuple>)
    ensures UpsertAll(t, a + b) == UpsertAll(UpsertAll(t, a), b)
    decreases |b|
  {
    if b == [] {
      assert a + b == a;
    } else {
      assert (a + b)[..|a + b| - 1] == a + b[..|b| - 1];
      UpsertAllAppend(t, a, b[..|b| - 1]);
    }
  }

  lemma RetriesCarriedAppend(log: seq<Insert>, x: Insert)
    requires RetriesCarried(log)
    requires |log| > 0 && !log[|log| - 1].ok ==> log[|log| - 1].rows <= x.rows
    ensures RetriesCarried(log + [x])
  {
    var log' := log + [x];
    forall k, l | 0 <= k && l == k + 1 && l < |log'| && !log'[k].ok
      ensures log'[k].rows <= log'[l].rows
    {
      if l < |log| {
        assert log'[k] == log[k] && log'[l] == log[l];
      }
    }
  }

  /** Recording one more insert keeps the table, the delivered tuples and the retry
      chain in step. */
  lemma InsertAccounted(log: seq<Insert>, current: Table, table: Table, x: Insert)
    requires current == UpsertAll(table, Delivered(log))
    requires RetriesCarried(log)
    requires |log| > 0 && !log[|log| - 1].ok ==> log[|log| - 1].rows <= x.rows
    ensures (if x.ok then UpsertAll(current, x.rows) else current) == UpsertAll(table, Delivered(log + [x]))
    ensures RetriesCarried(log + [x])
    ensures Delivered(log + [x]) == Delivered(log) + (if x.ok then x.rows else [])
  {
    DeliveredAppend(log, x);
    UpsertAllAppend(table, Delivered(log), x.rows);
    RetriesCarriedAppend(log, x);
    if !x.ok {
      assert Delivered(log) + [] == Delivered(log);
    }
  }

  /** The tuple one row adds to the batch, if any. */
  function Contribution(row: Option<CsvRow>, maxBlock: Option<int>): seq<Tuple>
  {
    match Classify(row, maxBlock)
    case Take(t) => [t]
    case _ => []
  }

  lemma HaltAccounted(s: Loader, ok: nat -> bool, table: Table)
    requires Accounted(s, table) && !s.reachedMaxBlock
    ensures var s' := Halt(s, ok);
      && Accounted(s', table)
      && Progress(s') == Progress(s)
      && s'.reachedMaxBlock
      && s'.log == (if |s.batch| > 0 then s.log + [Insert(s.batch, ok(|s.log|))] else s.log)
      && s'.exitCode == Some(if |s.batch| > 0 && !ok(|s.log|) then 1 else 0)
  {
    if |s.batch| > 0 {
      var x := Insert(s.batch, ok(|s.log|));
      InsertAccounted(s.log, s.table, table, x);
    }
  }

  lemma PushAccounted(s: Loader, t: Tuple, ok: nat -> bool, table: Table)
    requires Accounted(s, table) && !s.reachedMaxBlock
    ensures var s' := Push(s, t, ok);
      && Accounted(s', table)
      && Progress(s') == Progress(s) + [t]
      && !s'.reachedMaxBlock
      && var batch := s.batch + [t];
         if |batch| >= BatchSize then
           s'.log == s.log + [Insert(batch, ok(|s.log|))] && s'.batch == (if ok(|s.log|) then [] else batch)
         else
           s'.log == s.log && s'.batch == batch
  {
    var batch := s.batch + [t];
    if |batch| >= BatchSize {
      FlushAccounted(s, t, ok(|s.log|), table);
    } else {
      BufferAccounted(s, t, table);
    }
  }

  /** A batch that is not yet full only grows. */
  lemma BufferAccounted(s: Loader, t: Tuple, table: Table)
    requires Accounted(s, table) && !s.reachedMaxBlock
    ensures Accounted(s.(batch := s.batch + [t]), table)
    ensures Progress(s.(batch := s.batch + [t])) == Progress(s) + [t]
  {
    assert s.batch <= s.batch + [t];
    assert Delivered(s.log) + (s.batch + [t]) == Delivered(s.log) + s.batch + [t];
  }

  /** The new state after a full batch was handed to `insertBatch`. */
  lemma FlushAccounted(s: Loader, t: Tuple, success: bool, table: Table)
    requires Accounted(s, table) && !s.reachedMaxBlock
    ensures var batch := s.batch + [t];
      var s' := Loader(if success then [] else batch, false, if success then UpsertAll(s.table, batch) else s.table,
                       s.log + [Insert(batch, success)], None);
      && Accounted(s', table)
      && Progress(s') == Progress(s) + [t]
  {
    var batch := s.batch + [t];
    var x := Insert(batch, success);
    if |s.log| > 0 && !s.log[|s.log| - 1].ok {
      assert s.log[|s.log| - 1].rows <= batch;
    }
    InsertAccounted(s.log, s.table, table, x);
    assert Delivered(s.log) + s.batch + [t] == Delivered(s.log) + batch;
    if !success {
      assert Delivered(s.log + [x]) == Delivered(s.log);
    }
  }

  /** One row keeps the run accounted for, and adds its own tuple (if any) to the
      tuples delivered or still pending. */
  lemma OnRowAccounted(s: Loader, row: Option<CsvRow>, maxBlock: Option<int>, ok: nat -> bool, table: Table)
    requires Accounted(s, table)
    ensures var s' := OnRow(s, row, maxBlock, ok);
      && Accounted(s', table)
      && Progress(s') ==
         Progress(s) + (if s.reachedMaxBlock then [] else Contribution(row, maxBlock))
      && s'.reachedMaxBlock == (s.reachedMaxBlock || Classify(row, maxBlock).Stop?)
  {
    if s.reachedMaxBlock {
      assert Progress(s) + [] == Progress(s);
    } else {
      match Classify(row, maxBlock)
      case Skip =>
        assert Progress(s) + [] == Progress(s);
      case Stop =>
        HaltAccounted(s, ok, table);
        assert Progress(s) + [] == Progress(s);
      case Take(t) =>
        PushAccounted(s, t, ok, table);
    }
  }

  /** The first row's share of the accepted tuples, and of halting. */
  lemma AcceptedFirstRow(rows: seq<Option<CsvRow>>, maxBlock: Option<int>)
    requires rows != []
    ensures Accepted(rows, maxBlock) ==
      if Classify(rows[0], maxBlock).Stop? then [] else Contribution(rows[0], maxBlock) + Accepted(rows[1..], maxBlock)
    ensures Halts(rows, maxBlock) == (Classify(rows[0], maxBlock).Stop? || Halts(rows[1..], maxBlock))
  {
  }

  lemma {:induction false} LoadRowsAccounted(s: Loader, rows: seq<Option<CsvRow>>, maxBlock: Option<int>,
                                             ok: nat -> bool, table: Table)
    requires Accounted(s, table)
    ensures var r := LoadRows(s, rows, maxBlock, ok);
      Accounted(r, table) && r.reachedMaxBlock == (s.reachedMaxBlock || Halts(rows, maxBlock))
    decreases |rows|
  {
    if rows != [] {
      var s' := OnRow(s, rows[0], maxBlock, ok);
      OnRowAccounted(s, rows[0], maxBlock, ok, table);
      LoadRowsAccounted(s', rows[1..], maxBlock, ok, table);
    }
  }

  /** The rows' accepted tuples are exactly what a run adds to the tuples accounted for. */
  lemma {:induction false} LoadRowsProgress(s: Loader, rows: seq<Option<CsvRow>>, maxBlock: Option<int>,
                                            ok: nat -> bool, table: Table)
    requires Accounted(s, table)
    ensures Progress(LoadRows(s, rows, maxBlock, ok)) ==
      Progress(s) + (if s.reachedMaxBlock then [] else Accepted(rows, maxBlock))
    decreases |rows|
  {
    var p := Progress(s);
    if rows == [] {
      assert p + [] == p;
    } else {
      var s' := OnRow(s, rows[0], maxBlock, ok);
      OnRowAccounted(s, rows[0], maxBlock, ok, table);
      LoadRowsProgress(s', rows[1..], maxBlock, ok, table);
      AcceptedFirstRow(rows, maxBlock);
      if s.reachedMaxBlock || Classify(rows[0], maxBlock).Stop? {
        assert p + [] == p;
      } else {
        SeqAssoc(p, Contribution(rows[0], maxBlock), Accepted(rows[1..], maxBlock));
      }
    }
  }

  /** Regrouping a concatenation. Dafny knows this fact; it is a separate lemma so that
      `LoadRowsProgress` uses it on three named terms only, which keeps that proof
      within its resource limit (the same step asserted inline there runs out). */
  lemma SeqAssoc(a: seq<Tuple>, b: seq<Tuple>, c: seq<Tuple>)
    ensures a + b + c == a + (b + c)
  {
  }

  /** The `end` handler, or the exit at the bound, settles what was accounted for. */
  lemma OnEndAccounted(s: Loader, ok: nat -> bool, table: Table)
    requires Accounted(s, table)
    ensures var o := OnEnd(s, ok);
      && Delivered(o.log) + o.undelivered == Progress(s)
      && o.table == UpsertAll(table, Delivered(o.log))
      && RetriesCarried(o.log)
      && (o.exitCode == 0 || o.exitCode == 1)
      && (o.exitCode == 1 <==> s.reachedMaxBlock && o.undelivered != [])
      && ((forall k :: 0 <= k < |o.log| ==> o.log[k].ok) ==> o.undelivered == [])
      && (s.reachedMaxBlock ==> o.log == s.log)
      && (!s.reachedMaxBlock ==> o.log == (if |s.batch| > 0 then s.log + [Insert(s.batch, ok(|s.log|))] else s.log))
  {
    var o := OnEnd(s, ok);
    if s.exitCode.None? && |s.batch| > 0 {
      var x := Insert(s.batch, ok(|s.log|));
      InsertAccounted(s.log, s.table, table, x);
      assert o.log == s.log + [x];
      if x.ok {
        assert Delivered(o.log) + [] == Delivered(o.log);
      } else {
        assert !o.log[|s.log|].ok;
      }
    } else if s.exitCode == Some(1) {
      assert !o.log[|o.log| - 1].ok;
    }
  }

  /** Every run accounts for every accepted tuple: the successful inserts carried a
      prefix of them, in order, and the rest are reported undelivered; the table is the
      start table with the delivered tuples upserted in order; a failed insert's tuples
      are carried again by the next insert; the exit status is 1 exactly when the
      bound was reached and the insert made there failed; and when every insert
      succeeds nothing is left undelivered. */
  lemma LoadCsvAccountsForEveryRow(rows: seq<Option<CsvRow>>, maxBlock: Option<int>, ok: nat -> bool, table: Table)
    ensures var o := LoadCsv(rows, maxBlock, ok, table);
      && Delivered(o.log) + o.undelivered == Accepted(rows, maxBlock)
      && o.table == UpsertAll(table, Delivered(o.log))
      && RetriesCarried(o.log)
      && (o.exitCode == 0 || o.exitCode == 1)
      && (o.exitCode == 1 <==> Halts(rows, maxBlock) && o.undelivered != [])
      && ((forall k :: 0 <= k < |o.log| ==> o.log[k].ok) ==> o.undelivered == [])
  {
    var s0 := Start(table);
    assert Progress(s0) == [];
    LoadRowsAccounted(s0, rows, maxBlock, ok, table);
    LoadRowsProgress(s0, rows, maxBlock, ok, table);
    var s := LoadRows(s0, rows, maxBlock, ok);
    assert Progress(s) == Accepted(rows, maxBlock);
    OnEndAccounted(s, ok, table);
  }

  /** The block table after a run: a block number that some delivered tuple carries
      holds the last such tuple, whole; every other row is as it was. */
  lemma {:induction false} UpsertAllLastWins(t: Table, rows: seq<Tuple>, b: int)
    ensures var r := UpsertAll(t, rows);
      if exists i :: 0 <= i < |rows| && rows[i].blockNumber == Some(b) then
        b in r && exists i :: (0 <= i < |rows| && rows[i].blockNumber == Some(b) && r[b] == rows[i] &&
          forall j :: i < j < |rows| ==> rows[j].blockNumber != Some(b))
      else (b in r <==> b in t) && (b in t ==> r[b] == t[b])
    decreases |rows|
  {
    if rows != [] {
      var last := |rows| - 1;
      var front := rows[..last];
      UpsertAllLastWins(t, front, b);
      if rows[last].blockNumber == Some(b) {
        assert UpsertAll(t, rows)[b] == rows[last];
      } else if exists i :: 0 <= i < |front| && front[i].blockNumber == Some(b) {
        var i :| 0 <= i < |front| && front[i].blockNumber == Some(b) && UpsertAll(t, front)[b] == front[i] &&
                 forall j :: i < j < |front| ==> front[j].blockNumber != Some(b);
        assert rows[i] == front[i];
        assert forall j :: i < j < |rows| ==> rows[j].blockNumber != Some(b) by {
          forall j | i < j < |rows| ensures rows[j].blockNumber != Some(b) {
            if j < last { assert rows[j] == front[j]; }
          }
        }
      } else {
        forall i | 0 <= i < |rows| ensures rows[i].blockNumber != Some(b) {
          if i < last { assert rows[i] == front[i]; }
        }
      }
    }
  }

  /** Upserting the same tuples a second time changes nothing. */
  lemma UpsertAllTwice(t: Table, rows: seq<Tuple>)
    ensures UpsertAll(UpsertAll(t, rows), rows) == UpsertAll(t, rows)
  {
    var once := UpsertAll(t, rows);
    var twice := UpsertAll(once, rows);
    forall b | b in once || b in twice
      ensures b in once && b in twice && once[b] == twice[b]
    {
      UpsertAllLastWins(t, rows, b);
      UpsertAllLastWins(once, rows, b);
      if exists i :: 0 <= i < |rows| && rows[i].blockNumber == Some(b) {
        var i1 :| 0 <= i1 < |rows| && rows[i1].blockNumber == Some(b) && once[b] == rows[i1] &&
                  forall j :: i1 < j < |rows| ==> rows[j].blockNumber != Some(b);
        var i2 :| 0 <= i2 < |rows| && rows[i2].blockNumber == Some(b) && twice[b] == rows[i2] &&
                  forall j :: i2 < j < |rows| ==> rows[j].blockNumber != Some(b);
        assert i1 == i2;
      }
    }
    assert once.Keys == twice.Keys;
  }

  /** The `k`-th recorded insert succeeded exactly when `ok(k)` says so. */
  predicate Follows(log: seq<Insert>, ok: nat -> bool)
  {
    forall k :: 0 <= k < |log| ==> log[k].ok == ok(k)
  }

  lemma FollowsAppend(log: seq<Insert>, ok: nat -> bool, rows: seq<Tuple>)
    requires Follows(log, ok)
    ensures Follows(log + [Insert(rows, ok(|log|))], ok)
  {
    var log' := log + [Insert(rows, ok(|log|))];
    forall k | 0 <= k < |log'| ensures log'[k].ok == ok(k) {
      if k < |log| {
        assert log'[k] == log[k];
      }
    }
  }

  lemma {:induction false} LoadRowsFollows(s: Loader, rows: seq<Option<CsvRow>>, maxBlock: Option<int>, ok: nat -> bool)
    requires Follows(s.log, ok)
    ensures Follows(LoadRows(s, rows, maxBlock, ok).log, ok)
    decreases |rows|
  {
    if rows != [] {
      FollowsAppend(s.log, ok, s.batch);
      FollowsAppend(s.log, ok, s.batch + Contribution(rows[0], maxBlock));
      LoadRowsFollows(OnRow(s, rows[0], maxBlock, ok), rows[1..], maxBlock, ok);
    }
  }

  lemma LoadCsvFollows(rows: seq<Option<CsvRow>>, maxBlock: Option<int>, ok: nat -> bool, table: Table)
    ensures Follows(LoadCsv(rows, maxBlock, ok, table).log, ok)
  {
    var s := LoadRows(Start(table), rows, maxBlock, ok);
    LoadRowsFollows(Start(table), rows, maxBlock, ok);
    FollowsAppend(s.log, ok, s.batch);
  }

  /** When every insert succeeds, a run stores exactly the accepted tuples, in order. */
  lemma AllInsertsSucceeding(rows: seq<Option<CsvRow>>, maxBlock: Option<int>, ok: nat -> bool, table: Table)
    requires forall k :: ok(k)
    ensures LoadCsv(rows, maxBlock, ok, table).table == UpsertAll(table, Accepted(rows, maxBlock))
  {
    var o := LoadCsv(rows, maxBlock, ok, table);
    LoadCsvFollows(rows, maxBlock, ok, table);
    assert forall k :: 0 <= k < |o.log| ==> o.log[k].ok;
    LoadCsvAccountsForEveryRow(rows, maxBlock, ok, table);
    assert Delivered(o.log) == Accepted(rows, maxBlock);
  }

  /** Loading the same staging file a second time, every insert succeeding both times,
      leaves the block table as the first load left it. */
  lemma LoadingTwiceChangesNothing(rows: seq<Option<CsvRow>>, maxBlock: Option<int>, ok: nat -> bool,
                                   ok': nat -> bool, table: Table)
    requires forall k :: ok(k) && ok'(k)
    ensures var first := LoadCsv(rows, maxBlock, ok, table);
      LoadCsv(rows, maxBlock, ok', first.table).table == first.table
  {
    var first := LoadCsv(rows, maxBlock, ok, table);
    AllInsertsSucceeding(rows, maxBlock, ok, table);
    AllInsertsSucceeding(rows, maxBlock, ok', first.table);
    UpsertAllTwice(table, Accepted(rows, maxBlock));
  }

  // ---------------------------------------------------------------- reading back the staging file

  function RowOfFields(f: seq<string>): CsvRow
    requires |f| == 6
  {
    CsvRow(f[0], f[1], f[2], f[3], f[4], f[5])
  }

  lemma NoCommaInDecimal(i: int)
    ensures ',' !in IntToDecimal(i)
  {
    var n: nat := if i < 0 then -i else i;
    assert forall k :: 0 <= k < |NatToDecimal(n)| ==> NatToDecimal(n)[k] != ',';
    if i < 0 {
      assert IntToDecimal(i) == "-" + NatToDecimal(n);
    }
  }

  /** A line the staging writer appends, cut at its commas and converted by the loader,
      gives back the record's values, the signer lower-cased: the writer and the loader
      agree on the column order. This needs the hash and the signer to be free of
      commas, which a hexadecimal hash and address are. */
  lemma ReadsBackStagedLine(r: BlockRecord)
    requires ',' !in r.hash && ',' !in r.signerAddress
    ensures |Split(CsvStaging.Line(r), ',')| == 6
    ensures ToTuple(RowOfFields(Split(CsvStaging.Line(r), ','))) ==
      Tuple(Some(r.blockNumber), Some(r.timestamp), r.hash, Lower(r.signerAddress), Some(r.transactionCount),
            IntToDecimal(r.feeEarned))
  {
    var f := CsvStaging.Fields(r);
    NoCommaInDecimal(r.blockNumber);
    NoCommaInDecimal(r.timestamp);
    NoCommaInDecimal(r.transactionCount);
    NoCommaInDecimal(r.feeEarned);
    assert forall p :: p in f ==> ',' !in p;
    SplitJoin(f, ',');
    ParseIntDecimal(r.blockNumber);
    ParseIntDecimal(r.timestamp);
    ParseIntDecimal(r.transactionCount);
  }

  // ---------------------------------------------------------------- the program

  /** `processCsv` over the parsed rows, as the `data` handler sees them one by one,
      then the `end` handler; `ok(k)` says whether the `k`-th insert succeeds. */
  method ProcessCsv(rows: seq<Option<CsvRow>>, maxBlock: Option<int>, ok: nat -> bool, initial: Table)
    returns (table: Table, log: seq<Insert>, exitCode: int, undelivered: seq<Tuple>)
    ensures Outcome(table, log, exitCode, undelivered) == LoadCsv(rows, maxBlock, ok, initial)
  {
    var batch: seq<Tuple> := [];
    var reachedMaxBlock := false;
    var exited: Option<int> := None;
    table, log := initial, [];
    for i := 0 to |rows|
      invariant LoadRows(Loader(batch, reachedMaxBlock, table, log, exited), rows[i..], maxBlock, ok) ==
                LoadRows(Start(initial), rows, maxBlock, ok)
    {
      assert rows[i..][1..] == rows[i + 1..];
      var row := rows[i];
      if reachedMaxBlock || row.None? || row.value.blockNumber == "" {
        continue;
      }
      var blockNumber := ParseInt(row.value.blockNumber);
      if Exceeds(maxBlock, blockNumber) {
        reachedMaxBlock := true;
        if |batch| > 0 {
          var success := ok(|log|);
          if success {
            table := UpsertAll(table, batch);
          }
          log := log + [Insert(batch, success)];
          exited := Some(if success then 0 else 1);
        } else {
          exited := Some(0);
        }
        continue;
      }
      batch := batch + [Tuple(blockNumber, ParseInt(row.value.timestamp), row.value.hash,
                              Lower(row.value.signerAddress), ParseInt(row.value.transactionCount),
                              row.value.feeEarned)];
      if |batch| >= BatchSize {
        var success := ok(|log|);
        if success {
          table := UpsertAll(table, batch);
        }
        log := log + [Insert(batch, success)];
        if success {
          batch := [];
        }
      }
    }
    if exited.Some? {
      exitCode := exited.value;
      undelivered := Undelivered(Loader(batch, reachedMaxBlock, table, log, exited));
      return;
    }
    exitCode := 0;
    undelivered := batch;
    if !reachedMaxBlock && |batch| > 0 {
      var success := ok(|log|);
      if success {
        table := UpsertAll(table, batch);
        undelivered := [];
      }
      log := log + [Insert(batch, success)];
    }
  }
}
