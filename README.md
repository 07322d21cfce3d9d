# Stock forecast dashboard: data pipeline model

This project models the logic of a small stock-forecast dashboard and of its prediction service.

The dashboard (`frontend/app.jsx`) does four things with data:

- It builds a catalog of selectable stocks from the models endpoint. Each stock belongs to the first model that lists it.
- It commits a completed fetch into its component state.
- It merges the last 60 closes with the forecast into one chart series.
- It derives the rows of its table view. Each row carries a percentage change.

The service (`backend/app.py`) does two things with sequences. It cuts a price series into fixed-length windows. It also rolls a 60-value window forward one predicted day at a time, with the neural network abstracted as a function `seq<real> -> real`.

Prices are `real`. Each division the source performs carries a `requires` that its divisor is non-zero.

Modules:

- `Wrappers`: the option type used for `null`/`undefined`.
- `Prices`: the records the endpoints return and the `Day +n` label.
- `Catalog`: the catalog scan. It is a specification function and the imperative builder proved equal to it.
- `Dashboard`: the component state as a class. It has two state-changing methods.
- `Timeline`: the chart merge.
- `Ledger`: the table rows. It holds both the code as written and the corrected historical rows.
- `Windowing`: the two backend loops.

## Model

| member | source | states |
|---|---|---|
| `Catalog.FindByName` | frontend/app.jsx:39 | finds the first entry with the given name, and returns nothing exactly when no entry has that name |
| `Catalog.Insert` | frontend/app.jsx:39-44 | one step of the scan: afterwards the stock's name is present; existing entries keep their place; an entry owned by this model is appended exactly when the name was absent |
| `Catalog.AddStocks` | frontend/app.jsx:38-45 | scanning one model's stock list never removes or reorders the entries gathered so far: they stay a prefix of the result |
| `Catalog.CatalogOf` | frontend/app.jsx:36-46 | the catalog built from all models never holds two entries with the same name |
| `Catalog.BuildCatalog` | frontend/app.jsx:36-46 | the nested loops produce exactly the catalog that scanning the models, and then each model's stocks, in order, defines |
| `Catalog.AddStocksFacts` | frontend/app.jsx:38-45 | scanning one model's stocks keeps names unique and keeps earlier entries in place; every listed stock is present afterwards; every new entry is a listed stock of this model whose name was absent before |
| `Catalog.CatalogFirstModelOwns` | frontend/app.jsx:37-45 | every entry's model is the first model, in input order, whose list contains the stock; later duplicates are dropped, not merged |
| `Catalog.CatalogComplete` | frontend/app.jsx:36-46 | every stock that any model lists is in the catalog; no models give the empty catalog |
| `Catalog.CatalogGrowsByAppending` | frontend/app.jsx:37-46 | first-seen order across models: the catalog of any prefix of the models is a prefix of the full catalog |
| `Catalog.AddStocksGrowsByAppending` | frontend/app.jsx:38-45 | first-seen order within one model: scanning a prefix of its stock list gives a prefix of the scan of the whole list |
| `Catalog.CatalogFirstSeenOrder` | frontend/app.jsx:36-46 | the entries gathered after any stock j of any model i form a prefix of the catalog, so entries keep input order across models and then within each list |
| `Catalog.SharedStockGoesToFirstModel` | frontend/app.jsx:36-46 | models A:[X,Y] and B:[Y,Z] give [(X,A),(Y,A),(Z,B)] |
| `Dashboard.StockDashboard.constructor` | frontend/app.jsx:9-18 | the initial state is empty lists and no selection, price or change |
| `Dashboard.StockDashboard.LoadModels` | frontend/app.jsx:29-50 | stores the models and the catalog built from them (the class invariant `Valid`: the catalog is the scan of the stored models, so its names are unique); selects the first entry when the catalog is non-empty and otherwise keeps the selection; nothing else changes |
| `Dashboard.StockDashboard.CommitFetch` | frontend/app.jsx:85-93 | the history is always replaced; forecast, current price and change are taken from the first stock prediction exactly when the answer has a non-empty `predictions` list; otherwise they are unchanged, and the models, catalog and selection never change, so `Valid` is kept |
| `Prices.TakeLast` | frontend/app.jsx:103 | for a positive n, `slice(-n)` returns the last min(n, length) elements, in order |
| `Prices.DecimalString` | frontend/app.jsx:111 | a day number renders as non-empty decimal digits with no leading zero |
| `Prices.DecimalRoundTrip` | frontend/app.jsx:111 | reading the rendered digits back gives the day number |
| `Prices.DayLabel` | frontend/app.jsx:111 | the label `Day +{day}` is `Day +` followed by decimal digits |
| `Prices.DayLabelReadsBack` | frontend/app.jsx:111 | the label is `Day +` followed by decimal digits that read back as the day |
| `Prices.DayLabelInjective` | frontend/app.jsx:111 | different forecast days get different labels |
| `Timeline.Merge` | frontend/app.jsx:102-115 | the series has min(60, history) + forecast points, and point k has index k, contiguous across both parts |
| `Timeline.MergeAt` | frontend/app.jsx:103-114 | point k < w, where w = min(60, history), is history point length - w + k with its date and only `actual` = close; every later point is forecast k - w with only `predicted` = price and the label `Day +day` |
| `Timeline.MergeOnePriceEach` | frontend/app.jsx:103-114 | each point carries exactly one of `actual` and `predicted`, and which one follows its origin |
| `Timeline.MergeOriginsContiguous` | frontend/app.jsx:102-115 | once a forecast point appears, every later point is a forecast point |
| `Timeline.MergeEmptySides` | frontend/app.jsx:102-115 | with no forecast the series is exactly the historical part built from the last 60 closes; with no history it is exactly the forecast part, indexed from 0 |
| `Ledger.PercentChange` | frontend/app.jsx:276-277 | the percentage times the reference equals 100 times the difference, and the class is `positive` exactly when the price did not fall |
| `Ledger.PercentChangeSign` | frontend/app.jsx:276-277 | for a positive reference the class agrees with the sign of the percentage, and the percentage is zero exactly when the prices are equal |
| `Ledger.ForecastRows` | frontend/app.jsx:269-283 | one row per forecast entry, last entry first; each entry is compared with the previous forecast entry, and the first forecast entry with the last historical close |
| `Ledger.ForecastRow` | frontend/app.jsx:269-283 | row i shows forecast entry n-1-i with its label and price, and its change against the previous entry, or against the last close for the first entry |
| `Ledger.HistoricalRowsAsWritten` | frontend/app.jsx:287-297 | min(30, history) rows, newest first; every row before row 29 compares its close with its own close; the placeholder appears exactly at row 29 |
| `Ledger.HistoricalRowAsWritten` | frontend/app.jsx:287-297 | row i shows day length-1-i with its date and close; for i < 29 its change is that close against itself, and row 29 gets the placeholder |
| `Ledger.HistoricalRows` | frontend/app.jsx:287-297 | corrected rows: each shown day is compared with the previous day, and the oldest shown day gets the placeholder |
| `Ledger.LedgerAsWritten` | frontend/app.jsx:269-300 | the table has forecast + min(30, history) rows, the forecast rows first |
| `Ledger.Ledger` | frontend/app.jsx:269-300 | the corrected table has the same shape as the table as written: forecast rows first, then the historical rows |
| `Ledger.LedgerComparesWithRowBelow` | frontend/app.jsx:269-300 | in the corrected table every row but the last is compared with the row right below it, that is with its chronological predecessor, across the forecast/history seam too |
| `Ledger.ForecastRowBelow` | frontend/app.jsx:275-277 | each forecast row but the earliest is compared with the forecast row below it |
| `Ledger.SeamRowBelow` | frontend/app.jsx:279-282 | the earliest forecast row is compared with the newest historical row |
| `Ledger.HistoricalRowBelow` | frontend/app.jsx:293-295 | in the corrected rows each historical row but the oldest is compared with the row below it |
| `Ledger.SelfChangeIsZero` | frontend/app.jsx:295 | comparing a price with itself gives +0 % with the positive class |
| `Ledger.AsWrittenHistoricalChangeIsZero` | frontend/app.jsx:293-295 | as written, every historical row other than row 29 shows +0 %, whatever the prices |
| `Ledger.RiseThenForecastExample` | frontend/app.jsx:269-300 | closes 10 then 11 and a day-1 forecast of 12: the corrected table shows +100/11 %, +10 % and the placeholder; as written both closes show 0 % |
| `Ledger.NoForecastOnlyHistory` | frontend/app.jsx:269-287 | with an empty forecast the table is the historical rows alone |
| `Windowing.CreateSequences` | backend/app.py:47-51 | returns max(0, len - seq_length) windows; window k is `data[k .. k + seq_length)`, in increasing k |
| `Windowing.Roll` | backend/app.py:59 | dropping the oldest value and appending the prediction keeps the window's length |
| `Windowing.WindowAt` | backend/app.py:55-59 | the window keeps its starting length at every step |
| `Windowing.PredictFutureDays` | backend/app.py:53-60 | returns exactly `days` predictions, and none, for a window of any length, when `days <= 0`; prediction k is the predictor applied to the window after k steps |
| `Windowing.WindowEndsWithPredictions` | backend/app.py:57-59 | after k steps the newest min(k, 60) window values are the most recent predictions, oldest first |
| `Windowing.WindowKeepsUnrolledInput` | backend/app.py:55-59 | before 60 steps the oldest window values are the caller's values, shifted by the number of steps |

## Findings

| source | as written | input that shows it | evidently intended | confidence | as-written member | corrected member |
|---|---|---|---|---|---|---|
| frontend/app.jsx:294-295 | the historical row i is compared with `historicalData[length - 30 + (29 - i)]`. That simplifies to `length - 1 - i`, which is the row's own day. | closes [10, 11]: the row for 11 shows 0.00 % instead of +10.00 %, and the row for 10 shows 0.00 % instead of `-` | compare with the previous day, `length - 2 - i`, and give the oldest shown day the placeholder. Replacing the index alone would read index -1 when fewer than 30 days exist, which is why the boundary also moves to the last row. | high; not executed | `Ledger.HistoricalRowsAsWritten` (exhibited by `Ledger.RiseThenForecastExample` and `Ledger.AsWrittenHistoricalChangeIsZero`) | `Ledger.HistoricalRows` (proved by `Ledger.LedgerComparesWithRowBelow`) |

## Left out

- Rendering is not modelled. This covers the JSX, recharts, icons, CSS, the warning modal, the view-mode toggle, and the `toFixed` number formatting (frontend/app.jsx:117-309).
- The `loading` flag is not modelled, including its initial value `'false'`. It only affects the display.
- A click on a catalog entry sets the selection (frontend/app.jsx:153). That handler sits in the rendered markup and is not modelled.
- I/O and scheduling are not modelled: `fetch`, `Promise.all`, JSON parsing, `useEffect`, and the `catch` branches (frontend/app.jsx:21-34, 62-84, 94-98). A rejected fetch or an unparsable body commits nothing. In the model that means `CommitFetch` is simply not called. A models load that is rejected or whose body does not parse likewise means `LoadModels` is not called.
- `Dashboard.StockDashboard.LoadModels`: the models answer is modelled as a well-formed list of models. An HTTP error answer still parses, for example as `{detail: ...}`. The code then stores it as the models (frontend/app.jsx:29) before the scan, and the scan throws at `data.forEach` or `model.stocks.forEach` (frontend/app.jsx:37-38). The catalog and the selection keep their old values. The model does not capture this partial commit, in which the stored catalog is not the catalog of the stored models. Nothing in the code reads `models` afterwards.
- `Dashboard.StockDashboard.CommitFetch`: the history answer is modelled as always carrying a `data` list. An HTTP error answer still parses, but without `data`. The code then stores `undefined` as the history (frontend/app.jsx:85), and the next render throws at `historicalData.slice` (frontend/app.jsx:103). The model does not capture that missing-`data` case.
- The code has no check that drops a result for a superseded selection: it commits whatever arrives. The model follows the code.
- The code divides by the reference price without checking it. The model instead requires non-zero references (`ForecastRowsDefined`, `HistoricalRowsDefined`, `HistoricalRowsAsWrittenDefined`). It also requires a non-empty history when a forecast exists, because the code reads `historicalData[length - 1].close` and would throw.
- JavaScript floating point, `NaN` and `Infinity` are not modelled. Prices are exact reals.
- `Prices.ForecastPoint`: the service's schema declares forecast entries as `Dict[str, float]` (backend/responseModel.py:12), so `day` arrives as a float such as `1.0`. The model takes it as a natural number. The label is unchanged by this only because JavaScript prints a whole-valued number without a fractional part. Fractional days are not modelled.
- The service's model and scaler loading, its FastAPI/CORS setup and `prepare_data` are not modelled (backend/app.py:12-45). They are file I/O, a yfinance download and an sklearn scaler.
- The TensorFlow internals of `model.predict` are not modelled. The predictor is a total function parameter.
- numpy shapes are not modelled.
- `Windowing.CreateSequences`: the series is its first column as a flat sequence. The result is a sequence of windows rather than a `(-1, seq_length, 1)` array. The method also requires `seq_length > 0`, because reshaping to a zero dimension fails in numpy.
- `Windowing.PredictFutureDays`: the window is a sequence value, so the source's defensive `copy()` is implicit and "the caller's window is not modified" holds by construction rather than by a stated frame. The method requires a window of exactly 60 values only when `days > 0`, because the source reshapes it to `(1, 60, 1)` inside the loop. With `days <= 0` the loop never runs, and any window gives no predictions.
- backend/responseModel.py is not modelled beyond the field names of the datatypes. It only declares pydantic schemas.
- frontend/main.jsx is not part of this model. It only mounts the component.
