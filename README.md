# Currency-rate backend: refresh cycle, connection registry and rate store in Dafny

This project models the core of a small currency-rate backend. The backend keeps exchange-rate records in a relational table (`currency_rates`). A background task refreshes them periodically from an external rate source. Every completed refresh is announced on a message bus and to connected WebSocket clients.

The model covers three parts:

- **Rate store** (`currency.dfy`, `currency_service.dfy`): the `CurrencyRate` record and the store operations of `CurrencyService`. The lookups (`get_all`, `get_by_id`, `get_by_currency`) are functions over the table's rows, a `map<int, CurrencyRate>` keyed by id. `get_by_currency` distinguishes no match, one match and the "multiple results" error that `scalar_one_or_none` raises. `create`, `update` and `delete` are methods on a `RateTable` object, which holds the rows and the next id the database assigns.
- **Refresh cycle** (`rate_sources.dfy`, `reconciliation.dfy`, `background_task.dfy`):
  - The three fetch strategies take the HTTP outcomes as inputs: the fiat endpoint with one fallback hop to the alternative endpoint, the Binance ticker with its allow-list filter, and the mock generator. `fetch_exchange_rates` dispatches on the configured API type.
  - `save_rates_to_db` is a loop method (`ReconcileInSession`) proved against the fold `Reconcile` of the per-item rule `Step`. It skips self-pairs, updates a changed rate, leaves an equal or `None` rate alone and creates a missing pair. It keeps three counters. The single commit either installs the session's rows or rolls them back.
  - `run_task` saves and announces only a snapshot with a base and a non-empty rates dict.
  - `start_periodic` and `stop` drive the `is_running` flag.
- **Connection registry** (`ws_manager.dfy`): `ConnectionManager` over a sequence of handles. `broadcast` sends to every handle in list order while the list stays untouched. It then removes the handles whose send failed, one `disconnect` (`list.remove`) per failure. It is proved to leave exactly the surviving handles, in their original order, even when a handle occurs more than once.

Python dicts are sequences of `(key, value)` pairs in insertion order (`dicts.dfy`). JSON `null` and nullable columns are `Option` values (`wrappers.dfy`). The clock is a `Time` value passed in by the caller. Whether an HTTP request, a commit or a WebSocket send fails is an input to the operation.

Behaviour of the code that the model keeps, although it is easy to overlook:

- A fetched rate of `None` for an existing pair counts as unchanged, and for a missing pair it creates a row with no rate.
- A pair whose lookup raises (two rows for one pair) is skipped without stopping the cycle.
- The fiat fetch can return a non-empty rates dict with no base (the reply's `"base"` is `null`). `run_task` then skips the cycle.
- The ticker fetch can return base `"USDT"` with an empty dict. `run_task` skips that too.
- `rates_count` in the completion notice is the size of the whole fetched dict, self-pair included.

## Model

| member | source | states |
|---|---|---|
| `CurrencyService.NewRecord` | app/models/currency.py:9-14 | a new row carries the given id, base, target and rate, `created_at` is the insert time and `updated_at` is unset |
| `CurrencyService.GetAll` | app/services/currency_service.py:11-13 | every row is listed, and, with rows keyed by id, a record is listed exactly when looking up its id returns it |
| `CurrencyService.GetById` | app/services/currency_service.py:16-20 | a record is returned exactly when the id is present; it is a row of the table and, with rows keyed by id, carries that id |
| `CurrencyService.GetByCurrency` | app/services/currency_service.py:23-34 | no match exactly when no row has both base and target; the error exactly when two distinct rows match; otherwise the one matching row, which every matching row equals; never the error when pairs are unique |
| `CurrencyService.WithRate` | app/services/currency_service.py:50-53 | a `None` rate leaves the row unchanged; a present rate becomes the row's rate and stamps `updated_at` with now; id, base, target and `created_at` never change |
| `CurrencyService.RateTable.constructor` | app/models/currency.py:6-7 | the table starts empty and well formed |
| `CurrencyService.Create` | app/services/currency_service.py:37-42 | exactly one row is added, under a fresh id, carrying the supplied base (`"USD"` when absent), target and rate; looking its id up returns it |
| `CurrencyService.Update` | app/services/currency_service.py:45-56 | the given row becomes `WithRate` of itself and no other row changes |
| `CurrencyService.Delete` | app/services/currency_service.py:59-61 | exactly the given row is removed and all others are kept |
| `RateSources.BaseOrUsd` | app/tasks/background_task.py:47 | a missing base reads as `"USD"`, a `null` base as none, a code as itself |
| `RateSources.AlternativeRates` | app/tasks/background_task.py:133-149 | the result is not `(None, {})` exactly when the reply is status 200 with `success` set and non-empty rates, and then it is that reply's base (default `"USD"`) and rates |
| `RateSources.FiatRates` | app/tasks/background_task.py:26-67 | a usable primary reply (200, non-empty rates) is returned with its base; every other outcome falls back once to the alternative; an empty result is always `(None, {})` |
| `RateSources.RemoveAll` | app/tasks/background_task.py:96 | `str.replace` with an empty replacement never lengthens the string; its value on ticker symbols is given by `StripSuffix` |
| `RateSources.StripSuffix` | app/tasks/background_task.py:96 | removing "USDT" from a code followed by "USDT" gives the code, when "USDT" starts nowhere inside it |
| `RateSources.AllowListStrips` | app/tasks/background_task.py:71-96 | every allow-listed symbol strips to the currency code in front of "USDT" |
| `RateSources.CollectPrices` | app/tasks/background_task.py:93-99 | the loop raises exactly when an allow-listed entry has a price `float` rejects; otherwise every collected item is an allow-listed symbol, stripped, at a positive price, with no key twice |
| `RateSources.CollectPricesSound` | app/tasks/background_task.py:93-99 | every collected item comes from a positive allow-listed entry of the reply: its key is that entry's stripped symbol and its value that entry's price |
| `RateSources.CollectPricesComplete` | app/tasks/background_task.py:93-99 | every allow-listed entry with a positive price is collected, at the price of the last such entry for its code |
| `RateSources.BinanceRates` | app/tasks/background_task.py:69-108 | an exception or a non-200 status gives `(None, {})`; a 200 reply gives `(None, {})` when the price loop raises and otherwise base `"USDT"` with exactly the collected prices (`CollectPrices`), so only allow-listed, stripped, positively priced items |
| `RateSources.FetchBinanceRates` | app/tasks/background_task.py:69-108 | the loop over the price list returns exactly `BinanceRates` of the reply |
| `RateSources.Dispatch` | app/tasks/background_task.py:18-24 | `"crypto"` selects the ticker, `"mock"` the generator and any other setting the fiat chain |
| `RateSources.FetchExchangeRates` | app/tasks/background_task.py:18-24 | the fetch method returns exactly `Dispatch` of the configuration and replies |
| `Reconciliation.Step` | app/tasks/background_task.py:158-192 | one item keeps the rows keyed by id below the next id, and removes no row; what each case writes and counts is stated by `StepOutcome` |
| `Reconciliation.Reconcile` | app/tasks/background_task.py:158-192 | a whole snapshot keeps the rows well formed, removes no row, and never lowers the next id |
| `Reconciliation.StepOutcome` | app/tasks/background_task.py:162-185 | a self-pair or a raising lookup changes nothing; a found row with a present, different rate takes that rate and `updated_at = now`, all other rows stay and only `updated_count` grows; a found row otherwise stays and only `unchanged_count` grows; with no match one new row for the pair is added under the next id, at the fetched rate, created now with no `updated_at`, all other rows stay and only `created_count` grows |
| `Reconciliation.StepKeepsIdentity` | app/tasks/background_task.py:167-172 | one item never changes a stored row's id, base, target or creation time |
| `Reconciliation.ReconcileKeepsIdentity` | app/tasks/background_task.py:158-185 | the whole snapshot never changes a stored row's id, base, target or creation time |
| `Reconciliation.ReconcileLeavesOtherRows` | app/tasks/background_task.py:158-185 | a stored row whose base is not the fetched one, or whose target is the base or absent from the snapshot, comes out exactly as it went in |
| `Reconciliation.StepFrame` | app/tasks/background_task.py:158-185 | one item changes or adds only rows of its own `(base, target)` pair, and none for a self-pair |
| `Reconciliation.StepKeepsPairsUnique` | app/tasks/background_task.py:163-185 | one item keeps one row per pair |
| `Reconciliation.StepEstablishesQuote` | app/tasks/background_task.py:167-185 | with one row per pair before, after a non-self item some row holds its pair, at the fetched rate when one was fetched |
| `Reconciliation.StepKeepsOtherQuote` | app/tasks/background_task.py:158-185 | an item never disturbs the row holding another pair's quote |
| `Reconciliation.ReconcileOnlyWritesSnapshotPairs` | app/tasks/background_task.py:158-192 | every changed or new row has the fetched base and a non-self target that is a key of the snapshot; self-pairs are never written |
| `Reconciliation.ReconcileKeepsPairsUnique` | app/tasks/background_task.py:163-185 | with one row per pair before, there is one row per pair after |
| `Reconciliation.ReconcileQuotes` | app/tasks/background_task.py:158-185 | with one row per pair before and distinct keys, every non-self pair of the snapshot is held by exactly one row, at the fetched rate whenever a rate was fetched |
| `Reconciliation.LookupFindsQuote` | app/services/currency_service.py:23-34 | with one row per pair, the pair lookup finds the row that holds a quote and returns its rate |
| `Reconciliation.ReconcileCounts` | app/tasks/background_task.py:154-185 | with one row per pair before, each non-self item is counted once as created, updated or unchanged; the table grows by exactly the created count, and the next id advances by the same amount |
| `Reconciliation.ReconcileIdleWhenCurrent` | app/tasks/background_task.py:167-176 | with one row per pair before, when every non-self pair is already stored at the fetched rate, or the rate is `None`, nothing is written and every such item counts as unchanged |
| `Reconciliation.ReconcileInSession` | app/tasks/background_task.py:151-192 | the loop with its three counters computes exactly `Reconcile` from empty counters |
| `BackgroundTasks.SaveRatesToDb` | app/tasks/background_task.py:151-206 | a successful commit installs the reconciled rows and returns the three counters, which the source only logs; a failed commit leaves the table as it was and reports the failure |
| `BackgroundTasks.BackgroundTask.constructor` | app/tasks/background_task.py:14-16 | a new task is not running |
| `BackgroundTasks.CycleEffect` | app/tasks/background_task.py:208-251 | a skipped cycle or a failed save changes nothing and sends nothing; an announced cycle installs the reconciled rows and counts, publishes `background_task_completed` with the base, the size of the whole snapshot and the cycle time, sends it once to every registered handle in list order and leaves exactly the handles whose send succeeded; rows stay well formed, none is removed, and one row per pair stays one row per pair |
| `BackgroundTasks.BackgroundTask.RunTask` | app/tasks/background_task.py:208-251 | the report is the fetched snapshot with its outcome: skipped exactly when the snapshot has no base or no rates, a failed save exactly when the commit fails; the report and the new table and registry are `CycleOutcome` and `AfterCycle` of the old ones, whose content `CycleEffect` gives; no row is ever removed and one row per pair is kept |
| `BackgroundTasks.BackgroundTask.StartPeriodic` | app/tasks/background_task.py:253-260 | the task is running; every supplied cycle runs `run_task`, in order and whatever the previous cycle did: report `k` is `CycleOutcome` of cycle `k` in the world the earlier cycles left (its fetch, skip, failed save, counts, notice and sends), and the table and the registry end as `AfterCycles` of all cycles; no row is removed and one row per pair is kept |
| `BackgroundTasks.BackgroundTask.Stop` | app/tasks/background_task.py:262-264 | the running flag is cleared |
| `WsManager.RemoveFirst` | app/ws/manager.py:17 | an absent handle leaves the list as it is; otherwise the list is one shorter; with `RemoveFirstMultiset`, the multiset loses exactly that handle |
| `WsManager.RemoveFirstShape` | app/ws/manager.py:17 | the first occurrence of the handle is cut out and the other handles keep their order |
| `WsManager.Survivors` | app/ws/manager.py:28-37 | never longer than the registry; with `SurvivorsMembers`, a handle is kept exactly when it was registered and its send succeeded |
| `WsManager.Casualties` | app/ws/manager.py:28-34 | never longer than the registry; with `CasualtiesMembers`, a handle is collected exactly when it was registered and its send failed |
| `WsManager.SurvivorsAppend` | app/ws/manager.py:28-37 | filtering keeps relative order: it distributes over concatenation |
| `WsManager.CasualtiesAppend` | app/ws/manager.py:28-34 | the failures are collected in list order, one pass step at a time |
| `WsManager.PurgeNone` | app/ws/manager.py:36-37 | before the clean-up pass the list is untouched |
| `WsManager.PurgeStep` | app/ws/manager.py:36-37 | each `disconnect` of the next collected failure removes exactly the next failing handle of the list |
| `WsManager.PurgeAll` | app/ws/manager.py:36-37 | after the clean-up pass exactly the survivors remain |
| `WsManager.DroppedHandleGetsNoFurtherBroadcast` | app/ws/manager.py:28-37 | a handle whose send failed is not in the registry for the next broadcast |
| `WsManager.ConnectionManager.constructor` | app/ws/manager.py:7-8 | the registry starts empty |
| `WsManager.ConnectionManager.Connect` | app/ws/manager.py:10-12 | the handle is appended at the end and nothing else changes |
| `WsManager.ConnectionManager.Disconnect` | app/ws/manager.py:15-17 | the first occurrence is removed if present; an absent handle leaves the list unchanged |
| `WsManager.ConnectionManager.SendPersonalMessage` | app/ws/manager.py:20-25 | one send to the handle; a failed send removes only that handle; nothing is raised |
| `WsManager.ConnectionManager.Broadcast` | app/ws/manager.py:27-37 | one send to every registered handle in list order, before any removal; afterwards exactly the handles whose send succeeded remain, in their original order; an empty registry gets no send and stays empty; nothing is raised |
| `Dicts.Put` | app/tasks/background_task.py:99 | the key then maps to the new value, every other key keeps its value, and the dict grows by one item exactly when the key is new |
| `Dicts.PutAppends` | app/tasks/background_task.py:99 | storing under a new key appends the item at the end and leaves every other item where it was |
| `Dicts.PutReplaces` | app/tasks/background_task.py:99 | in a dict with distinct keys, storing under an existing key keeps its position and size, replaces its value and leaves every other item where it was |
| `Dicts.PutKeepsKeysDistinct` | app/tasks/background_task.py:99 | storing under a key never makes a key appear twice |

## Left out

- HTTP request and response handling is not modelled: clients, headers, timeouts, `raise_for_status`, `response.json()`. Each request's outcome is an input, either an exception or a status with a parsed body. A `raise_for_status` after a 200 status cannot fire, so it is not modelled.
- A parsed `rates` object is a key-ordered list of pairs, and nothing excludes a key occurring twice, which a JSON parser never returns. On such input `|rates|` in the notice and the counters can differ from `len(rates)`.
- JSON whose shape differs from the expected one is not modelled: a `rates` member that is not an object, a price list that is not a list, a symbol that is not a string. Nor is the truthiness of a non-boolean `success` member.
- `_fetch_mock_rates` is not modelled, because it uses random ±5% perturbation and float rounding. In mock mode the snapshot is an input of the cycle.
- Float behaviour is not modelled. Rates are exact reals, compared by equality and against zero.
- The asyncio sleep between cycles and the cancellation of the task in `stop` are not modelled.
- WsManager.ConnectionManager.Connect: does not model `websocket.accept()` raising; the handle is always appended, whereas in the source a failed accept registers nothing.
- WsManager.ConnectionManager.SendPersonalMessage: the message is a value of any type; the contents of the connection, echo and error messages that the WebSocket route sends are not part of this model.
- BackgroundTasks.BackgroundTask.StartPeriodic: does not model the unbounded loop. It runs one cycle per supplied input while the flag is set, and nothing clears the flag inside the loop, because `stop` only runs concurrently with it.
- Concurrent interleaving of API writes, receive-loop disconnects and the refresh cycle is not modelled.
- SQLAlchemy internals are not modelled: autoflush, `refresh`, the `server_default` and `onupdate` timestamps. Flushing before each query is modelled by making new rows visible to the next lookup at once. The database assigns ids from a counter. A row's insert time is the cycle's clock reading.
- Reconciliation.Step: does not model a separate clock reading for each updated pair. One clock reading per cycle stamps every write.
- BackgroundTasks.BackgroundTask.RunTask: does not model the separate, timezone-naive clock readings that the bus notice and the WebSocket notice each take. Both notices carry the cycle's one clock reading.
- BackgroundTasks.SaveRatesToDb: returns the three counters, which `save_rates_to_db` only logs before returning nothing; the value makes the counts visible to the caller and changes nothing else.
- Failures of the database other than a failed commit of the refresh cycle are not modelled. This covers a lookup raising for another reason and the API path's commit failing. The only lookup error modelled is the multiple-match one.
- The bus publish is not modelled beyond the notice that is handed to it. Its failure is caught and affects nothing else, so the model records only the attempt.
- JSON serialisation of notices is not modelled. The WebSocket and bus payloads are both the `BackgroundTaskCompleted` notice.
- The HTTP routes in app/api/routes.py, the WebSocket receive/echo loop in app/ws/routes.py and the start-up wiring in main.py are not modelled. They only map requests and events onto the operations above.
- Logging and tracebacks are not modelled.
- The input schemas `CurrencyRateCreate` and `CurrencyRateUpdate` are not part of this model. `create` takes an optional base, a target and a rate. `update` takes an optional rate.
