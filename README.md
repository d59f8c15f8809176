# futurestracer collection pipeline in Dafny

This is a model of the data-collection half of futurestracer (`getdata.py`). Each cycle, the collector does four things:

- It reads the symbol registry (table `um_pairs`) and groups the symbols by exchange tag: `BN` for Binance, `BG` for Bitget.
- It splits the Binance symbols across `max(1, num_threads - 1)` workers and gives all Bitget symbols to one worker.
- Each worker fetches its symbols one by one and keeps only those that yield a metric record. Every kept record is stamped with the cycle's one timestamp.
- It joins the workers in submission order and writes the batch only when the batch is not empty.

Next to the cycle, `update_trading_pairs` reconciles the registry with the exchanges' listings. The main loop reruns it once an hour has passed.

Modules, one file each:

- `wrappers.dfy`: `Option` (Python's `Optional`). Module `Http` holds `Reply`, what one HTTP request yields: the fields read from its body, or why it raised (transport error, error status, unreadable body).
- `seqs.dfy`: generic helpers (`Min`, `Max`, the projection `Project`, `Distinct` and `Elems`) that the other modules share.
- `partition.dfy`: `split_list` and the concatenation of chunks.
- `registry.dfy`: `get_all_pairs`, the Bitget `_UMCBL` suffix, `get_bitget_pairs` and `update_trading_pairs`, with its insertion plan. Nothing in `getdata.py` calls `get_bitget_pairs`. `update_trading_pairs` repeats its request inline (getdata.py:37-40) without the `[]` fallback, so a failed Bitget listing fails the whole update and inserts nothing. The `[]` of `GetBitgetPairs` never reaches the registry.
- `exchange.dfy`: `get_binance_data` and `get_bitget_data`. Each is a method that follows the code's early exits. Each is proved equal to a declarative definition: a discard predicate, plus the record it builds otherwise.
- `collector.dfy`: the two per-worker collectors, worker planning, the join and `collect_and_store_data`.
- `driver.dfy`: the hourly refresh rule of `main`, as a class that holds `last_pairs_update`.

Exchange answers are inputs: each endpoint is a function from the symbol it is asked for to its `Reply`. The open-interest endpoint of Bitget is asked for `symbol + '_UMCBL'`, so the suffix is part of the model. A worker that raises is given by its index in the submission order (`crashed`).

Times are whole seconds, and prices are `real`.

## Behaviour worth knowing (the model follows the code)

- Binance: all seven requests are checked with `raise_for_status` inside one `try`. So any failed request discards the symbol, whether it asks for the price, the funding rate, the open interest or a ratio. So does an empty ratio list, because `[0]` raises IndexError. Only two fields default to 0: the funding rate when its list is empty, and the taker ratio when `sellVol == 0`.
- Bitget: the funding request is also checked with `raise_for_status`, so an HTTP failure there discards the symbol. A funding body with a code other than `'00000'`, or with empty data, gives 0. The open-interest request is not status-checked. For it, only a transport error or an unreadable body discards the symbol, and a code other than `'00000'` gives 0.
- A zero index price makes the division at getdata.py:152 (Binance) or getdata.py:236 (Bitget) raise, so the symbol is discarded.
- A worker is submitted for an exchange only when that exchange has symbols. When there are fewer Binance symbols than Binance workers, though, `split_list` still makes one chunk per worker, so some Binance workers get empty lists.
- The guard at getdata.py:287 never fires, because `get_all_pairs` always returns both keys (`GetAllPairs` ensures this).
- `num_threads <= 0` makes `ThreadPoolExecutor` raise. The outer `except` catches this and nothing is written.

## Model

| member | source | states |
|---|---|---|
| `Partition.SplitList` | getdata.py:123-126 | exactly `n` chunks; chunk `i` has `len/n + 1` elements if `i < len%n`, else `len/n` |
| `Partition.SplitListBalanced` | getdata.py:124-126 | any two chunk sizes differ by at most one, and earlier chunks are never shorter |
| `Partition.SplitListCovers` | getdata.py:125-126 | the chunks concatenated in order are the input list: no symbol is dropped, repeated or reordered, so the sizes add up to the length |
| `Partition.SplitListPrefix` | getdata.py:126 | the first `j` chunks concatenated are the list up to offset `j*k + min(j, m)`, so the chunks are contiguous and consecutive |
| `Registry.Query` | getdata.py:95-101 | a row is returned exactly when it is in the table, is not blacklisted `'Y'` and has a non-null, non-empty exchange |
| `Registry.GetAllPairs` | getdata.py:103-116 | keys `BN` and `BG` are always present; each holds, in row order, the symbols of the selected rows with that tag |
| `Registry.PairsOfMembership` | getdata.py:95-116 | a symbol is listed under a tag exactly when some selected row has that symbol and that tag, so rows with any other tag reach neither list |
| `Registry.PairsOfCount` | getdata.py:111-116 | the two lists together are no longer than the table |
| `Registry.PairsOfDistinct` | getdata.py:106-116 | if the table's symbols are distinct (their primary key), the two lists together hold no symbol twice |
| `Registry.StripSuffix` | getdata.py:22 | `pair[:-6]` is the prefix of length `max(0, len - 6)` |
| `Registry.ContractSymbol` | getdata.py:228 | the contract name is six characters longer than the symbol |
| `Registry.StripContractSymbol` | getdata.py:228 | stripping six characters undoes `symbol + '_UMCBL'` |
| `Registry.ContractSymbolOfStripped` | getdata.py:40 | adding `_UMCBL` back gives the original name exactly when that name ended in `_UMCBL` |
| `Registry.BitgetPairsRoundTrip` | getdata.py:39-40 | for contract names ending in `_UMCBL`, each derived pair plus the suffix is its contract name again |
| `Registry.GetBitgetPairs` | getdata.py:15-26 | a failed request gives `[]`; otherwise there is one pair per listed contract |
| `Registry.ActiveBinance` | getdata.py:51-54 | a symbol is a candidate exactly when some listing entry has that symbol with status `TRADING` and contract type `PERPETUAL` |
| `Registry.NewSymbolsSpec` | getdata.py:57-63 | the loop inserts exactly the symbols that are in the input and not in the starting set, each once |
| `Registry.InsertNew` | getdata.py:57-72 | the loop's inserts follow the plan for its tag, and the grown set is the starting set plus every listed symbol |
| `Registry.UpdateTradingPairs` | getdata.py:28-86 | succeeds exactly when both listing requests succeed; on failure it inserts nothing; on success it inserts the Binance plan, then the Bitget plan against the grown set |
| `Registry.InsertPlanSpec` | getdata.py:46-72 | every insert is a Binance candidate (tag `BN`) or a Bitget pair (tag `BG`) with `last_update = now`; no symbol already in the table is inserted; every new candidate is inserted; no symbol is inserted twice |
| `Registry.InsertPlanPrefersBinance` | getdata.py:56-72 | a new symbol listed on Binance is inserted with `BN` and never with `BG`, even if Bitget also lists it |
| `Exchange.GetBinanceData` | getdata.py:140-203 | `None` exactly when any of the seven requests fails, the index price is 0 or a ratio list is empty; otherwise basis = mark − index, basis% = basis / index × 100, an empty funding list gives 0, `sellVol = 0` gives ratio 0 and otherwise ratio × sellVol = buyVol; it equals the declarative `BinanceFetch` |
| `Exchange.GetBitgetData` | getdata.py:218-278 | `None` exactly when the price reply fails, has a code other than `'00000'` or empty data, the index price is 0, or the funding or open-interest request raises; a bad or empty funding envelope gives 0; a bad open-interest code gives 0; the four ratios are always 0; open interest is asked for `symbol + '_UMCBL'`; it equals the declarative `BitgetFetch` |
| `Collector.CollectDataForPairs` | getdata.py:128-138 | the worker's output is the specification function `Collected` for Binance |
| `Collector.CollectBitgetData` | getdata.py:205-215 | the worker's output is the specification function `Collected` for Bitget |
| `Collector.CollectedSound` | getdata.py:131-137 | a worker's output is no longer than its input; every record has the shared timestamp and a symbol from the input, and carries what that symbol's fetch returned |
| `Collector.CollectedComplete` | getdata.py:133-137 | every input symbol whose fetch returns a record has that record, stamped, in the output |
| `Collector.CollectedAppend` | getdata.py:131 | collecting a concatenation gives the two outputs concatenated, so input order is preserved |
| `Collector.CollectedNoneFetched` | getdata.py:134 | a worker none of whose symbols can be fetched returns nothing |
| `Collector.CollectedDistinct` | getdata.py:131-137 | a worker whose input has no repeats outputs each symbol at most once, and only input symbols |
| `Collector.BinanceWorkers` | getdata.py:308 | the value of `max(1, num_threads - 1)` for every input: exactly one worker when `num_threads <= 1`, and `num_threads - 1` workers when `num_threads >= 2` |
| `Collector.PlanJobsSpec` | getdata.py:306-318 | `max(1, num_threads - 1)` Binance jobs when there are Binance symbols, none otherwise; exactly one Bitget job, last, holding the whole Bitget list, when there are Bitget symbols, none otherwise; all job lists concatenated are the Binance symbols followed by the Bitget symbols |
| `Collector.PlanJobsExample` | getdata.py:306-318 | two Binance symbols, one Bitget symbol and three threads give two one-symbol Binance jobs, then the Bitget job |
| `Collector.SubmitJobs` | getdata.py:304-318 | the submitted `futures` follow the plan |
| `Collector.JoinWorkers` | getdata.py:320-330 | `all_data` is the outputs of the non-raising workers, concatenated in submission order |
| `Collector.GatherSound` | getdata.py:294-330 | every batch record has the cycle's one timestamp, and comes from a non-raising job that holds its symbol, with that job's exchange's fetch result |
| `Collector.GatherKeepsSurvivors` | getdata.py:320-330 | all records of a non-raising worker are in the batch, however many other workers raise |
| `Collector.GatherNoCrash` | getdata.py:320-330 | when no submitted worker raises, the crash set does not affect the batch |
| `Collector.GatherAppend` | getdata.py:320-325 | when no worker raises, joining two job lists one after the other gives the two batches concatenated |
| `Collector.GatherBinanceJobs` | getdata.py:309-311 | when no worker raises, joining one Binance job per chunk is collecting the chunks' concatenation |
| `Collector.GatherPlanNoCrash` | getdata.py:294-330 | with no worker raising, the batch is every fetched Binance symbol in registry order, followed by every fetched Bitget symbol |
| `Collector.GatherAllFailed` | getdata.py:336-338 | if no symbol can be fetched, the batch is empty |
| `Collector.GatherDistinct` | getdata.py:320-325 | if the job lists together have no repeats, the batch holds each symbol at most once, and only symbols of the jobs |
| `Collector.CycleBatchDistinct` | getdata.py:294-338 | if the registry's symbols are distinct, a batch never holds two records with the same `(timestamp, symbol)` key |
| `Collector.CollectAndStoreData` | getdata.py:281-338 | nothing is written when `num_threads <= 0` or the batch is empty; otherwise exactly the planned, joined batch is written; it is non-empty and every record has the one timestamp |
| `Driver.RefreshSpacing` | getdata.py:374-380 | refreshes are at least 3600 s apart, the first at least 3600 s after the start, and `last_pairs_update` is always the latest refresh time |
| `Driver.PairsSchedule.constructor` | getdata.py:370-372 | the schedule starts at the start-up refresh time |
| `Driver.PairsSchedule.Tick` | getdata.py:377-380 | refreshes exactly when `now - last >= 3600`; `last` moves to `now` only then, whatever the refresh's outcome; afterwards `now - last < 3600` |
| `Driver.PairsSchedule.Run` | getdata.py:374-385 | over a run of iterations, `last_pairs_update` and the refresh times follow the specification functions `LastAfter` and `RefreshTimes` |

## Left out

- HTTP: `requests.get`, `raise_for_status`, `.json()` and the URLs are not modelled. Each endpoint is an input function from the symbol asked for to a `Reply`. One consequence: a symbol asked for twice in one cycle gets the same answer both times.
- Requests that never return: no `requests.get` call passes a `timeout`. A stalled endpoint blocks its worker for ever, the in-order join at getdata.py:322 waits on it, nothing is written, and the `while True` loop at getdata.py:374 never gets past that cycle. The model's endpoints are total functions, so it covers only cycles in which every request returns.
- JSON shapes: each list entry is reduced to the fields the code reads from it. A malformed entry that the code would read makes the whole reply `Unparsable`.
- SQLite: connections, commits, the query texts and the `um_pairs` inserts are not modelled. The table is an input sequence, and the inserts are returned as a plan. Failures of the registry read (getdata.py:91-104) or of the listing read of the table (getdata.py:42-48) are not modelled either.
- Storage of the batch: the DataFrame column projection, `to_sql` append, primary-key enforcement and the storage-error path (getdata.py:340-362) are not modelled. The model says only which batch is handed to the write, and that nothing is written when the batch is empty.
- Concurrency: the thread pool and its futures are not modelled. Workers run one after another in submission order. A worker that raises is named in `crashed` and contributes nothing.
- Floating point: prices, ratios and their arithmetic are `real`. IEEE rounding, NaN and infinities are not modelled.
- Logging: every log call is left out, including the "new pairs" counts at getdata.py:77-81, which only feed a log message.
- Clocks and sleeping: `datetime.now()` values are integer-second inputs, and `time.sleep` is not modelled.
- The main loop never ends. `PairsSchedule.Run` covers a finite run of its refresh decisions. The collection cycle of each iteration is `CollectAndStoreData`, with its own inputs. The loop's own exception handler (getdata.py:387-389) is not modelled.
- `alarm.py` (threshold alerts over stored rows) is not part of this model. Neither is `init.py` (table definitions).
- Registry.GetBitgetPairs: its contract states only the failure case and the length. The pair-by-pair content is stated by `BitgetPairs`, which it returns, and by `BitgetPairsRoundTrip`.
