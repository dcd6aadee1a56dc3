# signer-check-node, modelled in Dafny

signer-check-node watches a Clique proof-of-authority chain and answers whether a
signer has produced a block recently. It has five programs, and each one is a
module here:

- `blockProcessor.js` → `ForwardSync`. A forward sync keeps an SQLite table
  `signer` with one row per signer: the last block it signed and that block's
  timestamp. Each turn it reads the chain head and the table's highest block
  number. It then walks up to head − 10 and upserts the signer of every block whose
  signer resolves.
- `backwardBlockProcessor.js` → `BackwardSync`. A backward backfill fills a Postgres
  table `block` with one row per block. Each turn walks down from the lowest stored
  block number to block 0. The fee column is gas used × a gas price that is fetched
  once and then cached.
- `blockProcessorToCsv.js` → `CsvStaging`. A staging writer walks up from block 71.
  It buffers one record per resolved block and appends the buffer to `blocks.csv`
  every 10 records, writing a header line first when the file does not exist.
- `loadFromCsv.js` → `CsvLoader`. A bulk loader reads the rows of `blocks.csv` and
  upserts them into `block` with one multi-row statement per 1000 rows. If
  `MAX_BLOCK` is set, it stops at the first row above it.
- `server.js` → `SignerCheck`. An HTTP service answers `GET /checksigner`. It checks
  the address against an allow-list file holding one `address,expiry` per line, and
  then against the `signer` table.

Two shared modules: `Js` holds the JavaScript built-ins the programs rely on
(`toLowerCase` on ASCII, `split`, `join`, decimal printing, `parseInt` in base 10).
`Chain` holds the RPC node, the block record and the store helpers.

The RPC node is a pair of total functions. `blockAt(b)` gives what
`eth_getBlockByNumber` returns; `signerOf(hash)` gives what `clique_getSigner`
returns. Either one can fail. A database is a flag that says whether reads succeed
and a predicate that says which writes succeed. The gas price, the loader's inserts and the clock are
also given as parameters. The endless loops are modelled one turn at a time (the
forward and backward syncs) or as `n` turns (the staging writer). Each sleep is
recorded as the branch that leads to it (`Backoff`, `Idle`). Every program is an
imperative method, proved against a functional specification, and the properties
are lemmas about that specification.

In these places the model follows the code's text:

- The forward pass starts at the watermark itself, not one above it, so the
  watermark block is visited again on every turn.
- When the `signer` table is empty, or its maximum is 0, the forward pass falls back
  to head − 500, not to a configured start block. The forward table is keyed by
  signer address, not by block number.
- A failed batch insert in the loader does not clear the batch. Its rows are sent
  again at the front of the next insert, so they are retried rather than dropped.
- When the loader reaches `MAX_BLOCK` and the final insert fails, it exits with
  status 1, not successfully. A `MAX_BLOCK` of 0 or one that is not a number turns
  the bound off.
- A failed read of the forward watermark does not back off. After `reject`, the
  `sqlite3` callback reads a field of the undefined row and throws an exception that
  nothing catches (blockProcessor.js:15-16), so the process ends. The model records
  this as the terminal plan `Crash`; here the model follows the code's text.
- The forward sync never reads a gas price. Only the backward sync and the staging
  writer compute fees.

## Model

| member | source | states |
|---|---|---|
| Js.Lower | server.js:69 | lower-casing keeps the length and maps each character through ASCII `toLowerCase` |
| Js.LowerIdempotent | loadFromCsv.js:87 | lower-casing an already lower-cased address changes nothing, so the loader's `toLowerCase` of a signer that blockProcessorToCsv.js:103 already lower-cased leaves it as it is |
| Js.Split | server.js:40-41 | `split` on a one-character separator always gives at least one field |
| Js.SplitJoin | blockProcessorToCsv.js:69-71 | splitting a join of separator-free fields on that separator gives the fields back |
| Js.ParseInt | server.js:43 | `parseInt(s, 10)` is `NaN` exactly when no digit follows the optional blanks and sign |
| Js.ParseIntDecimal | loadFromCsv.js:59 | `parseInt` of an integer's decimal text gives that integer back |
| Js.ParseIntIgnoresTrailingText | server.js:43 | after leading blanks, `parseInt` reads the run of digits and ignores whatever non-digit text follows, such as the carriage return of a CRLF line |
| Js.Join | blockProcessorToCsv.js:69-71 | no contract of its own; its meaning is stated by `Js.SplitJoin` and `Js.JoinSplit` |
| Js.IntToDecimal | blockProcessorToCsv.js:70 | no contract of its own; its meaning is stated by `Js.ParseIntDecimal` |
| Chain.Resolve | blockProcessor.js:90-96 | a block resolves exactly when the fetch succeeds, the hash is truthy, the signer fetch succeeds and the signer is truthy; the result is that block and that signer |
| Chain.GasPriceSet | backwardBlockProcessor.js:119 | no contract of its own; the JavaScript truthiness of the cached gas price (unset and 0 are falsy), as `!gasPrice` tests it here and at blockProcessorToCsv.js:83; its meaning is stated by `BackwardSync.CapturedGasPrice`, `BackwardSync.GasPriceCapturedOnce` and `CsvStaging.StepGasPrice` |
| Chain.Ascending | blockProcessor.js:88 | the block numbers lo, lo+1, …, hi in order, and none when hi < lo |
| Chain.Descending | backwardBlockProcessor.js:136 | the block numbers hi, hi−1, …, lo in order |
| Chain.MinBlockNumber | backwardBlockProcessor.js:23-24 | `MIN(block_number)` is null exactly on an empty table, and otherwise is a stored key no larger than any other |
| Chain.UpsertBlock | backwardBlockProcessor.js:34-43 | the upsert adds the key, stores the whole record under it and leaves every other row alone |
| Chain.UpsertBlockTwice | backwardBlockProcessor.js:37-42 | upserting the same block number twice leaves only the second record |
| ForwardSync.MaxBlockNumber | blockProcessor.js:14-16 | `MAX(block_number)` is null exactly on an empty table, and otherwise is the block number of some row and at least that of every row |
| ForwardSync.MaxRead | blockProcessor.js:11-20 | the watermark query fails exactly when the database read fails, and otherwise answers `MAX(block_number)` of the table |
| ForwardSync.UpsertSigner | blockProcessor.js:26-32 | the row of the lower-cased signer is replaced by (block number, timestamp); every other signer's row is untouched |
| ForwardSync.Watermark | blockProcessor.js:78 | a null or 0 maximum falls back to head − 500; any other maximum is the watermark |
| ForwardSync.PlanIteration | blockProcessor.js:77-86 | back off exactly when the head is unreadable; crash exactly when the head was read and the watermark read failed; stay idle exactly when head − 10 ≤ watermark; otherwise pass from the watermark to head − 10 |
| ForwardSync.Written | blockProcessor.js:89-99 | a block writes exactly when it resolves and its upsert succeeds, and then under the lower-cased signer |
| ForwardSync.LastWrite | blockProcessor.js:88-99 | the highest block of a range that writes under a given signer, with no later block of the range writing under it |
| ForwardSync.FailedBlockChangesNothing | blockProcessor.js:100-103 | a block whose fetch, hash, signer or upsert fails leaves the table unchanged |
| ForwardSync.PassLastWriterWins | blockProcessor.js:88-105 | after a pass, each signer holds the row of the last block in the pass it signed; signers not written keep their old row or stay absent |
| ForwardSync.PassWritesOnlyVisited | blockProcessor.js:88-105 | every changed row carries a block number inside the visited range |
| ForwardSync.Step | blockProcessor.js:89-103 | no contract of its own; its meaning is stated by `ForwardSync.FailedBlockChangesNothing` and `ForwardSync.PassLastWriterWins` |
| ForwardSync.PassUp | blockProcessor.js:88-105 | no contract of its own; its meaning is stated by `ForwardSync.PassLastWriterWins` and `ForwardSync.PassWritesOnlyVisited` |
| ForwardSync.IterationResult | blockProcessor.js:75-109 | no contract of its own; its meaning is stated by `ForwardSync.IterationStaysBelowTarget` |
| ForwardSync.IterationStaysBelowTarget | blockProcessor.js:77-105 | one turn writes no block number above head − 10 and none below the watermark |
| ForwardSync.SignerStore.GetMaxBlockNumber | blockProcessor.js:11-20 | returns the watermark read, or a failure when the read fails |
| ForwardSync.SignerStore.UpdateSigner | blockProcessor.js:23-38 | reports whether the write succeeded and applies the upsert exactly when it did |
| ForwardSync.ProcessIteration | blockProcessor.js:75-109 | takes the branch the plan says, leaves the table as the pass specification does, and fetches exactly the block numbers of the range in ascending order |
| BackwardSync.DefaultStartBlock | backwardBlockProcessor.js:15 | an unset, non-numeric or 0 setting gives 4834000; any other setting is parsed in base 10 |
| BackwardSync.LowWatermark | backwardBlockProcessor.js:21-29 | the default start on an empty table; otherwise a stored key no larger than any other |
| BackwardSync.CapturedGasPrice | backwardBlockProcessor.js:119-121 | a truthy cached gas price is reused; otherwise `eth_gasPrice` is asked |
| BackwardSync.Record | backwardBlockProcessor.js:138-150 | the stored record has the block's timestamp, hash and transaction count, the lower-cased signer, and fee = gas used × gas price |
| BackwardSync.Written | backwardBlockProcessor.js:138-152 | a block writes exactly when it resolves and its upsert succeeds, and then writes its record |
| BackwardSync.Step | backwardBlockProcessor.js:137-155 | no contract of its own; its meaning is stated by `BackwardSync.PassDownAt` |
| BackwardSync.PassDown | backwardBlockProcessor.js:136-157 | no contract of its own; its meaning is stated by `BackwardSync.PassDownAt` |
| BackwardSync.Iteration | backwardBlockProcessor.js:115-162 | no contract of its own; its meaning is stated by `BackwardSync.IterationEffect`, `BackwardSync.DoneIffAtGenesis` and `BackwardSync.GasPriceCapturedOnce` |
| BackwardSync.PassDownAt | backwardBlockProcessor.js:136-157 | after a pass, each visited block that wrote holds its record, and every other row is as it was |
| BackwardSync.IterationEffect | backwardBlockProcessor.js:117-162 | a turn either backs off or stops with the table unchanged, or passes from the low watermark − 1 down to 0 and has exactly the per-block effect on the table |
| BackwardSync.DoneIffAtGenesis | backwardBlockProcessor.js:123-133 | the loop breaks exactly when the gas price and the watermark were read and the watermark is at most 0 |
| BackwardSync.GasPriceCapturedOnce | backwardBlockProcessor.js:116-121 | a truthy cached gas price is never refetched; a falsy one is replaced by the quote, or the turn backs off when the quote fails |
| BackwardSync.GenesisStoredMeansDone | backwardBlockProcessor.js:129-136 | once a pass stored block 0, the next readable turn is the terminal one |
| BackwardSync.BlockStore.GetMinBlockNumber | backwardBlockProcessor.js:21-29 | returns the low watermark, or a failure when the read fails |
| BackwardSync.BlockStore.UpdateBlock | backwardBlockProcessor.js:32-48 | reports whether the write succeeded and applies the upsert of the record exactly when it did |
| BackwardSync.BackwardSync.constructor | backwardBlockProcessor.js:15-16 | the gas price cache starts unset and the default start block comes from the setting |
| BackwardSync.BackwardSync.ProcessIteration | backwardBlockProcessor.js:115-162 | asks for a gas price exactly when the cache is falsy, updates the cache and the table as the turn specification does, and fetches the block numbers from low − 1 down to 0 |
| CsvStaging.Line | blockProcessorToCsv.js:70 | no contract of its own; its meaning is stated by `CsvLoader.ReadsBackStagedLine` |
| CsvStaging.Fields | blockProcessorToCsv.js:70 | the six columns of the template literal, in header order; what they hold is stated by `CsvLoader.ReadsBackStagedLine` |
| CsvStaging.CsvData | blockProcessorToCsv.js:69-71 | no contract of its own; its meaning is stated by `CsvStaging.CsvDataIsLines` |
| CsvStaging.AppendToCsv | blockProcessorToCsv.js:59-74 | no contract of its own; its meaning is stated by `CsvStaging.FreshFileLayout` and `CsvStaging.RunLayout` |
| CsvStaging.FileBase | blockProcessorToCsv.js:63-67 | no contract of its own; the header written once for a missing file, or the file's content; its meaning is stated by `CsvStaging.FreshFileLayout` and `CsvStaging.RunLayout` |
| CsvStaging.Start | blockProcessorToCsv.js:78-81 | no contract of its own; the gas price unset, an empty buffer and `START_BLOCK`; its meaning is stated by `CsvStaging.ProcessBlocks` and `CsvStaging.FreshFileLayout` |
| CsvStaging.Step | blockProcessorToCsv.js:82-120 | no contract of its own; its meaning is stated by `CsvStaging.StepShape` |
| CsvStaging.Run | blockProcessorToCsv.js:81-121 | no contract of its own; its meaning is stated by `CsvStaging.RunLayout` and `CsvStaging.GasPriceStaysCaptured` |
| CsvStaging.Staged | blockProcessorToCsv.js:96-106 | no contract of its own; its meaning is stated by `CsvStaging.StagedRecordsResolved` and `CsvStaging.ResolvedBlocksStaged` |
| CsvStaging.CsvDataIsLines | blockProcessorToCsv.js:69-71 | the text appended for a non-empty buffer is one line per record, each ending in a newline |
| CsvStaging.LinesAppend | blockProcessorToCsv.js:73 | the lines of two buffers written in turn are the lines of their concatenation |
| CsvStaging.Pushed | blockProcessorToCsv.js:83-106 | a record is pushed exactly when a gas price is cached or quoted in this turn and the block resolves; it is the block's number, timestamp, hash and transaction count, the lower-cased signer, and gas used × the cached price, or × the quote when none is cached |
| CsvStaging.StepShape | blockProcessorToCsv.js:96-112 | one turn adds the block's record to the buffer, or flushes the full buffer to the file and empties it |
| CsvStaging.StepGasPrice | blockProcessorToCsv.js:83-85 | a falsy cached gas price is replaced by the quote when `eth_gasPrice` answers and kept when the call fails; a truthy one is kept |
| CsvStaging.FirstQuoteCaptured | blockProcessorToCsv.js:83-94 | while the cached price is falsy, a truthy quote is cached for the rest of the run, and every record staged from that turn on has fee = gas used × that quote |
| CsvStaging.FlushLayout | blockProcessorToCsv.js:109-112 | flushing a full buffer and then the rest in multiples of 10 writes the same lines as one flush of everything |
| CsvStaging.RunLayout | blockProcessorToCsv.js:81-121 | after n turns the block number is n higher; of all records, the largest multiple of 10 is on file in order after the old content, and the rest (fewer than 10) are still buffered |
| CsvStaging.FreshFileLayout | blockProcessorToCsv.js:59-74 | starting with no file, the file is the header followed by one line per flushed record |
| CsvStaging.GasPriceStaysCaptured | blockProcessorToCsv.js:83-85 | once a truthy gas price is cached it never changes, and every later record's fee uses it |
| CsvStaging.StagedRecordsResolved | blockProcessorToCsv.js:96-106 | every staged record is for a block of the run's range that resolved, and carries its timestamp, hash, transaction count and lower-cased signer |
| CsvStaging.ResolvedBlocksStaged | blockProcessorToCsv.js:83-106 | every block of the range that resolves is staged, provided a gas price is cached when its turn begins (before the run or captured earlier in it) or is quoted in that turn |
| CsvStaging.ProcessBlocks | blockProcessorToCsv.js:77-122 | the loop ends in the state the turn specification gives, and tried the block numbers 71, 72, … in order |
| CsvLoader.ToTuple | loadFromCsv.js:85-92 | no contract of its own; its meaning is stated by `CsvLoader.ReadsBackStagedLine` |
| CsvLoader.Params | loadFromCsv.js:92 | the six values of the array `batch.push` receives, in column order |
| CsvLoader.Group | loadFromCsv.js:27 | no contract of its own; its meaning is stated by `CsvLoader.NumberingIsOneToN` and `CsvLoader.SlotBindsColumn` |
| CsvLoader.Numbering | loadFromCsv.js:27 | no contract of its own; its meaning is stated by `CsvLoader.NumberingIsOneToN` |
| CsvLoader.Slots | loadFromCsv.js:27 | no contract of its own; the numbers 6i+1 … 6i+6 of group i; its meaning is stated by `CsvLoader.NumberingIsOneToN` and `CsvLoader.SlotBindsColumn` |
| CsvLoader.Exceeds | loadFromCsv.js:61 | no contract of its own; its meaning is stated by `CsvLoader.Classify` |
| CsvLoader.Accepted | loadFromCsv.js:54-92 | no contract of its own; its meaning is stated by `CsvLoader.AcceptedAppend`, `CsvLoader.AcceptedCutAtStop`, `CsvLoader.AcceptedIgnoresSkipped` and `CsvLoader.AcceptedWithinBound` |
| CsvLoader.UpsertAll | loadFromCsv.js:28-33 | no contract of its own; its meaning is stated by `CsvLoader.UpsertAllLastWins` and `CsvLoader.UpsertAllTwice` |
| CsvLoader.OnRow | loadFromCsv.js:54-107 | no contract of its own; its meaning is stated by `CsvLoader.OnRowAccounted` |
| CsvLoader.Halt | loadFromCsv.js:61-83 | no contract of its own; its meaning is stated by `CsvLoader.HaltAccounted` |
| CsvLoader.Push | loadFromCsv.js:92-106 | no contract of its own; its meaning is stated by `CsvLoader.PushAccounted` |
| CsvLoader.LoadRows | loadFromCsv.js:53-107 | no contract of its own; its meaning is stated by `CsvLoader.LoadRowsAccounted` and `CsvLoader.LoadRowsProgress` |
| CsvLoader.Start | loadFromCsv.js:50-51 | no contract of its own; `batch = []` and `reachedMaxBlock = false` over the table as it is; its meaning is stated by `CsvLoader.LoadCsvAccountsForEveryRow` |
| CsvLoader.OnEnd | loadFromCsv.js:108-119 | no contract of its own; its meaning is stated by `CsvLoader.OnEndAccounted` |
| CsvLoader.LoadCsv | loadFromCsv.js:48-125 | no contract of its own; its meaning is stated by `CsvLoader.LoadCsvAccountsForEveryRow` and `CsvLoader.LoadingTwiceChangesNothing` |
| CsvLoader.Flat | loadFromCsv.js:37 | `batch.flat()` has six parameters per tuple |
| CsvLoader.InsertBatch | loadFromCsv.js:24-45 | the statement binds six parameters per tuple, one per placeholder |
| CsvLoader.NumberingIsOneToN | loadFromCsv.js:27 | the placeholders of the VALUES list are $1, $2, …, $6n, in order |
| CsvLoader.SlotBindsColumn | loadFromCsv.js:27-37 | placeholder j of group i binds column j of tuple i |
| CsvLoader.MaxBlock | loadFromCsv.js:17 | an unset or empty `MAX_BLOCK` gives no bound; any other is parsed in base 10 |
| CsvLoader.Classify | loadFromCsv.js:55-61 | a row is skipped exactly when it is missing or has an empty block number; it stops the load exactly when its block number is above an active bound; otherwise its tuple is taken |
| CsvLoader.HaltsAtSomeRow | loadFromCsv.js:61-62 | the load halts exactly when some row lies above the bound |
| CsvLoader.Halts | loadFromCsv.js:61-62 | no contract of its own; its meaning is stated by `CsvLoader.HaltsAtSomeRow` |
| CsvLoader.AcceptedAppend | loadFromCsv.js:55-83 | the rows of a later part of the file contribute only when no earlier row halted the load |
| CsvLoader.AcceptedCutAtStop | loadFromCsv.js:61-82 | the first row above the bound, and every row after it, is never loaded |
| CsvLoader.AcceptedIgnoresSkipped | loadFromCsv.js:55-57 | a missing row, or one with an empty block number, has no effect |
| CsvLoader.AcceptedWithinBound | loadFromCsv.js:59-92 | every accepted tuple is within the bound and converts a row with a block number |
| CsvLoader.UpsertTuple | loadFromCsv.js:28-33 | a tuple overwrites every column of its block number's row; a tuple with a `NaN` block number changes nothing |
| CsvLoader.HaltAccounted | loadFromCsv.js:61-83 | at the bound, a non-empty batch is inserted exactly once and an empty one not at all; the exit status is 1 exactly when that insert failed, and 0 otherwise |
| CsvLoader.PushAccounted | loadFromCsv.js:92-106 | a batch that reaches 1000 tuples is inserted once, and cleared exactly when that insert succeeds, so a failed batch is carried into the next insert; a smaller batch only grows, with no insert |
| CsvLoader.OnRowAccounted | loadFromCsv.js:54-107 | one row keeps the run accounted for, adds its tuple (if taken and the bound not yet reached) to the delivered or pending tuples, and sets the halt flag exactly at the first row above the bound |
| CsvLoader.LoadRowsProgress | loadFromCsv.js:54-107 | after the rows, the delivered tuples followed by the pending batch are exactly the accepted tuples |
| CsvLoader.LoadRowsAccounted | loadFromCsv.js:54-107 | after the rows, the table is the start table with the delivered tuples upserted, and each failed insert's tuples lead the next insert |
| CsvLoader.OnEndAccounted | loadFromCsv.js:108-119 | the end handler makes no insert once the bound was reached, and otherwise inserts the leftover batch exactly when it is non-empty; delivered plus undelivered tuples are what was accounted for |
| CsvLoader.LoadCsvAccountsForEveryRow | loadFromCsv.js:48-125 | delivered plus undelivered tuples are exactly the accepted ones; the table holds the delivered ones in order; the status is 1 exactly when the bound was reached and its insert failed; with every insert succeeding, nothing is undelivered |
| CsvLoader.UpsertAllLastWins | loadFromCsv.js:28-33 | a block number carried by a delivered tuple holds the last such tuple; every other row is as it was |
| CsvLoader.UpsertAllTwice | loadFromCsv.js:28-33 | upserting the same tuples again changes nothing |
| CsvLoader.AllInsertsSucceeding | loadFromCsv.js:48-119 | with every insert succeeding, a run stores exactly the accepted tuples |
| CsvLoader.LoadingTwiceChangesNothing | loadFromCsv.js:48-119 | loading the same file twice, with every insert succeeding, leaves the table as one load did |
| CsvLoader.ReadsBackStagedLine | loadFromCsv.js:59-92 | a line the staging writer wrote, cut at its commas, converts back to the record's values with the signer lower-cased |
| CsvLoader.ProcessCsv | loadFromCsv.js:48-125 | the handlers leave the table, the inserts, the exit status and the pending rows as the run specification does |
| SignerCheck.Entries | server.js:40-45 | no contract of its own; its meaning is stated by `SignerCheck.EntriesLastLineWins` and `SignerCheck.EntriesAreLowerCase` |
| SignerCheck.ParseAllowList | server.js:36-47 | no contract of its own; its meaning is stated by `SignerCheck.SignerCheckService.LoadAllowedSigners` and `SignerCheck.EntriesLastLineWins` |
| SignerCheck.DatabaseAnswer | server.js:92-111 | no contract of its own; its meaning is stated by `SignerCheck.AdmittedGoesToDatabase` |
| SignerCheck.CheckSigner | server.js:60-113 | no contract of its own; its meaning is stated by `SignerCheck.ValidatedExactly`, `SignerCheck.AdmittedGoesToDatabase`, `SignerCheck.RejectedBeforeDatabase`, `SignerCheck.ReloadOnlyWhenExpired` and `SignerCheck.CaseInsensitive` |
| SignerCheck.LineEntry | server.js:41-43 | a line gives an entry exactly when its first and second comma fields are non-empty; the entry is the lower-cased address and the parsed expiry |
| SignerCheck.LastEntry | server.js:40-44 | the last line that gives an entry for an address, and no entry for it after that line |
| SignerCheck.Listed | server.js:72 | no contract of its own; the truthiness of an allow-list entry (present, neither `NaN` nor 0); its meaning is stated by `SignerCheck.RejectedBeforeDatabase` and `SignerCheck.ValidatedExactly` |
| SignerCheck.Stale | server.js:99 | no contract of its own; the staleness test, never true for a `NaN` window; its meaning is stated by `SignerCheck.AdmittedGoesToDatabase` and `SignerCheck.UnreadableTimeoutNeverOutdated` |
| SignerCheck.Key | server.js:64-69 | no contract of its own; a truthy address lower-cased; its meaning is stated by `SignerCheck.CaseInsensitive` and `SignerCheck.RejectedBeforeDatabase` |
| SignerCheck.ListInForce | server.js:79-89 | no contract of its own; the cached list, or the reloaded one when the entry expired; its meaning is stated by `SignerCheck.ReloadOnlyWhenExpired` |
| SignerCheck.EntriesLastLineWins | server.js:36-47 | an address on the list has the expiry of its last line; an address on no line is not on the list |
| SignerCheck.EntriesAreLowerCase | server.js:43 | every address on the list is lower-case |
| SignerCheck.ErrorAfter | server.js:62 | a missing or empty timeout gives 2700 seconds; any other is its parsed minutes × 60, or `NaN` |
| SignerCheck.Status | server.js:64-111 | the status is 200 exactly for a validated signer; 400 exactly for a missing address or a stale row; 404 exactly for an address not on the list, not on it after the reload, or not in the table; 500 exactly for a database error |
| SignerCheck.ValidatedExactly | server.js:60-113 | 200 exactly when the address is truthy, listed (again after a reload if its entry expired), in the table, and not stale; the reply carries that row's timestamp |
| SignerCheck.AdmittedGoesToDatabase | server.js:92-111 | once admitted: 500 exactly on a query error, 404 exactly without a row, 400 exactly for a stale row, with the window in whole minutes |
| SignerCheck.RejectedBeforeDatabase | server.js:64-77 | a falsy address gives 400 and a falsy entry 404, with the list unchanged |
| SignerCheck.ReloadOnlyWhenExpired | server.js:79-89 | the list is reloaded exactly when a listed entry has expired, and the reloaded list is kept; the second 404 happens exactly when the address is not on it |
| SignerCheck.UnreadableTimeoutNeverOutdated | server.js:62 | a timeout `parseInt` cannot read never yields a stale answer: an admitted signer with a row gets 200 |
| SignerCheck.CaseInsensitive | server.js:69 | two addresses that differ only in letter case get the same reply and leave the same list |
| SignerCheck.SignerCheckService.constructor | server.js:54 | the service starts with the list parsed from the file |
| SignerCheck.SignerCheckService.LoadAllowedSigners | server.js:36-47 | the list is reset and rebuilt from the file's lines, and is empty when there is no file |
| SignerCheck.SignerCheckService.HandleCheckSigner | server.js:60-113 | the answer and the list kept afterwards are those the request specification gives |

## Left out

- JSON-RPC over HTTP (`axios`) and the parsing of hexadecimal fields: the node is an oracle that returns decoded block fields or a failure.
- The SQLite and Postgres clients, `client.connect`, `db.close` and `client.end`: a database is a table value plus the reads and writes that succeed.
- Sleeps and rate-limit pauses: only the branch that leads to each sleep is recorded.
- The endless `while (true)` and `for (;;)` loops: the syncs are modelled one turn at a time and the staging writer as `n` turns.
- The csv-parser stream, its tokenising, `pause` and `resume`: the loader takes the sequence of parsed rows, and each insert completes before the next row.
- Partial rows: a row missing its `signer_address` column makes `toLowerCase` throw; the model takes every row with all six columns.
- A failure reading `blocks.csv`, which exits with status 1: the row sequence is assumed readable.
- `parseFloat` of the fee column: the fee is kept as its text.
- JavaScript number precision: integers are unbounded, so rounding of `gasUsed * gasPrice` above 2^53 is not modelled.
- A gas-price answer that `parseInt` cannot read: the code caches `NaN` and that turn's fees come out `NaN`; the quote is an integer or a failure in the model, so this case cannot arise.
- `Js.Lower`: lower-cases ASCII letters only, not the rest of Unicode.
- `Js.ParseInt`: recognises space, tab, line feed and carriage return as leading blanks, a subset of JavaScript's whitespace.
- `Date.now`, Express routing and JSON bodies, `app.listen`, `dotenv`, database and file initialisation (server.js:14-33), and the five-minute `setInterval` reload (server.js:57): the clock is a parameter, and the reload can be driven by calling `LoadAllowedSigners`.
- Keys such as `constructor` that a JavaScript object inherits: the allow-list is a plain map.
- `req.query.address` given as several values.
- Write failures of `appendToCsv`: the model assumes every append succeeds. A failure would leave the buffer full and let it grow past 10.
- Postgres rejecting a multi-row upsert that names one block number twice, or that holds `NaN` in an integer column: whether an insert succeeds is a parameter, so the model also lets such an insert succeed, applying the last tuple per block number and skipping a tuple whose block number is `NaN`, where Postgres would reject the whole statement. The run lemmas hold for every choice of outcomes, so they also cover the rejection.
- What happens after the forward sync dies on a failed watermark read: the turn ends in `Crash`, and a restart by a supervisor is outside the model.
- The `NaN` check on the low watermark (backwardBlockProcessor.js:125-127): the watermark is a stored integer or the default, so it never happens in the model.
- Programs running at the same time: the backward sync and the bulk loader both upsert the Postgres `block` table, and the service reads the SQLite `signer` table while the forward sync writes it. Each program is modelled alone, with its table as its own.
