# Relative-price watchlist widget: a Dafny model of its refresh logic

The program plots, for a fixed watchlist of exchange instruments, each
instrument's price relative to the previous day's last close, refreshed once
a minute, with one shared vertical range. This project models the part of
`stock.py` that has logic in it:

- the watchlist (`Tickers`): its range-specification check, its length and
  indexing, the space-separated symbol string of the batched download, and the
  fetched table that each refresh replaces wholesale (module `Watchlist`);
- the conversion of nanosecond index instants to whole epoch seconds
  (module `Epoch`);
- the row selections of one refresh: `dropna`, rows strictly before midnight,
  rows in the inclusive session band (module `Samples`);
- per instrument, the baseline close, the normalised series handed to the
  plot, and the fold of the session-band ratios into the running
  `(y_min, y_max)` range seeded at `(0.95, 1.05)` (module `Normalise`);
- the refresh loop itself, `StockWidget.update`, as a method on a class whose
  fields record what each plot and the vertical axis were last told to show
  (module `Widget`).

Prices are `real`s. Instants, including the day's midnight, 09:00 and 22:00
boundaries, are integers (nanoseconds since the epoch) given as parameters;
the fetched table is a parameter of the refresh.

The code is followed where it differs from the intended design of the
system: a refresh is not isolated per instrument. An instrument with no row
before midnight (Python `IndexError` on `[-1]`) or with no column group in the
table (`KeyError`) ends the whole refresh. The plots of the instruments before
it have already been updated, the later ones and the vertical range are left
as they were (`Widget.Refreshed`). The seed range is also not re-created per
instrument: one running pair is widened across the whole watchlist.

## Model

| member | source | states |
|---|---|---|
| `Samples.Filter` | stock.py:120-123 | a boolean-mask selection keeps only rows the selector accepts and never grows the table |
| `Samples.FilterCounts` | stock.py:120-123 | every accepted row is kept exactly as many times as it occurs, every other row is dropped |
| `Samples.FilterConcat` | stock.py:120-123 | selection distributes over concatenation, so the kept rows stay in table order |
| `Samples.SelectedIff` | stock.py:120-122 | a row is in a selection iff it is in the table and accepted; for the session band this is `morning <= instant <= evening`, inclusive at both ends |
| `Epoch.EpochSeconds` | stock.py:106-107 | the result r is the floor of ns / 10^9: `r*10^9 <= ns < (r+1)*10^9` |
| `Epoch.EpochSecondsMonotone` | stock.py:106-107 | a later instant never maps to an earlier second |
| `Epoch.EpochSecondsFloor` | stock.py:106-107 | every instant inside a second maps to that second (truncation, not rounding) |
| `Normalise.DropNa` | stock.py:120 | `dropna()` keeps, in table order, exactly the rows with no missing value, each as often as it occurs (its properties are those of `Samples.FilterCounts` and `Samples.FilterConcat` for the `Present` selector) |
| `Normalise.InSession` | stock.py:122 | keeps, in table order, exactly the rows with `morning <= instant <= evening`, inclusive at both ends (`Samples.SelectedIff`, `Samples.FilterCounts`, `Samples.FilterConcat` for the `Band` selector) |
| `Normalise.Baseline` | stock.py:123 | `[-1]` of the rows strictly before midnight: the close at the last such row, missing iff there is none (stated by `Normalise.BaselineIsLastBefore`) |
| `Normalise.LastBeforeIndex` | stock.py:123 | reference search: the position of the last row strictly before midnight, with no later row before midnight, or -1 |
| `Normalise.BaselineIsLastBefore` | stock.py:123 | the baseline is the close at that last position, and is missing iff no remaining row lies before midnight |
| `Normalise.Series` | stock.py:121-128 | one point per remaining row, in table order; each ratio times the baseline gives back the close, each x value is the row's floor epoch second |
| `Normalise.BaselineSampleIsOne` | stock.py:123-124 | the row that supplies the baseline is plotted at exactly 1 |
| `Normalise.TwoRowExample` | stock.py:120-124 | closes 10 (before midnight) and 20 (after) give baseline 10 and the points (t0, 1) and (t1, 2) |
| `Normalise.MinClose` | stock.py:126 | the value is one of the closes and no close is below it |
| `Normalise.MaxClose` | stock.py:127 | the value is one of the closes and no close is above it |
| `Normalise.Min` | stock.py:126 | Python `min` of two numbers: at most both, and equal to one of them |
| `Normalise.Max` | stock.py:127 | Python `max` of two numbers: at least both, and equal to one of them |
| `Normalise.Widen` | stock.py:125-127 | one instrument only widens the range, and leaves it unchanged when it has no row in the band |
| `Normalise.FoldRange` | stock.py:117-127 | after any number of instruments, `y_min <= 0.95` and `y_max >= 1.05` |
| `Normalise.FoldRangeMonotone` | stock.py:119-127 | across iterations `y_min` never increases and `y_max` never decreases |
| `Normalise.FoldRangeEmptyBand` | stock.py:117-118 | with no row of any instrument in the band, the range is exactly (0.95, 1.05) |
| `Normalise.BandExtremes` | stock.py:122-127 | for a positive baseline, min(close)/baseline is the least band ratio and max(close)/baseline the greatest |
| `Normalise.FoldRangeIsExtremum` | stock.py:117-127 | for positive baselines, `y_min` is the minimum of {0.95} and every band ratio of every instrument, `y_max` the maximum of {1.05} and them |
| `Watchlist.Codes` | stock.py:78 | the list comprehension of the codes, one per instrument, in watchlist order |
| `Watchlist.Join` | stock.py:78 | `" ".join`: empty for no codes, otherwise the total code length plus one separator between each pair |
| `Watchlist.Split` | stock.py:78 | `split(" ")`, the inverse used to state what the symbol string holds; always at least one piece |
| `Watchlist.SplitJoin` | stock.py:77-78 | splitting the joined string gives back the codes, in watchlist order, when no code holds a space |
| `Watchlist.RangeSpecRaises` | stock.py:62-63 | no ValueError iff exactly one form is given: a period alone, or a start and/or end without a period |
| `Watchlist.NewTickers` | stock.py:53-68 | construction fails with ValueError iff the range check raises; otherwise every argument is stored and there is no data yet |
| `Watchlist.Tickers.Init` | stock.py:60-68 | the constructor stores every argument and no data, once the range validation has passed |
| `Watchlist.Tickers.Len` | stock.py:71-72 | the number of instruments in the list |
| `Watchlist.Tickers.GetItem` | stock.py:74-75 | succeeds iff `-len <= item < len`, returning the element counted from the end for negative indices |
| `Watchlist.IterationYieldsList` | stock.py:74-75 | iterating by indices 0, 1, ... yields the list in order and stops with IndexError at `len` |
| `Watchlist.NegativeIndex` | stock.py:74-75 | index `i - len` names the same instrument as `i` |
| `Watchlist.Tickers.TickersStr` | stock.py:77-78 | the symbol string has the length of the codes plus `len - 1` separators and splits back into the codes in order |
| `Watchlist.Tickers.Update` | stock.py:80-84 | the request carries the symbol string, period and interval only (never start or end); the fetched table replaces the old one |
| `Widget.Prepare` | stock.py:120-123 | KeyError iff the code is absent from the table; IndexError iff no remaining row lies before midnight; otherwise the dropna rows and their baseline |
| `Widget.PrepareAll` | stock.py:119-123 | success gives every instrument in order; failure names the first instrument that raises, all before it having succeeded |
| `Widget.FailurePrefixSucceeds` | stock.py:119-123 | the instruments before the first one that raises all succeed, so their series exist |
| `Widget.FirstFailure` | stock.py:119-123 | if the first i instruments succeed and the i-th raises, the refresh raises exactly that exception |
| `Widget.Plotted` | stock.py:128 | one series per instrument, in watchlist order |
| `Widget.StockWidget.constructor` | stock.py:93-100 | one empty plot per instrument, no vertical range yet |
| `Widget.Refreshed` | stock.py:119-130 | what a refresh leaves behind: on success every plot shows its series and the range is the fold; on the first failure at k, plots before k show their series, the rest and the range are as before |
| `Widget.StockWidget.Update` | stock.py:109-130 | fetch replaces the table; on success every plot shows its instrument's series and the range is the fold; on the first failure earlier plots are updated and the rest and the range are unchanged |

## Left out

- The network fetch (`yf.download`, `yf.Ticker`, stock.py:49 and 84) is not modelled: the fetched table is the parameter of `Tickers.Update` and `StockWidget.Update`, a map from code to that instrument's rows, and a transport failure is not represented.
- `Ticker.data` (a per-instrument `yf.Ticker` client) and the display colour are dropped from `Ticker`; neither takes part in the logic.
- Widget construction, the date axis, legend, pens, labels, grid and `setXRange` (stock.py:87-103, 129) are user-interface calls; only what `setData` and `setYRange` receive is recorded, as `plots` and `yRange`.
- The initial `self.update()` at the end of the widget's constructor (stock.py:103) is not part of the constructor; the caller makes the first `Update` call.
- The day's boundaries (stock.py:111-116) and the one-shot `utcOffset` (stock.py:91) depend on the clock and time-zone data; they are parameters here. Attaching a pytz zone through `tzinfo=` gives the zone's local mean time offset rather than the daylight-saving offset; that is outside the model.
- The timer and the entry point `main` (stock.py:133-163) are wiring.
- Floating point, NaN and infinity are not modelled: prices are reals and `dropna` removes rows flagged as having a missing value.
- `Normalise.Series`: requires a non-zero baseline; the source does not check and numpy would yield infinities.
- `Widget.StockWidget.Update`: requires a non-zero baseline for every instrument that the refresh divides by, that is, each watchlist instrument up to the first one that raises; the source does not check and numpy would yield infinities.
- `Normalise.FoldRangeIsExtremum`: requires positive baselines; the source divides the band's minimum close by the baseline, which is the minimum ratio only when the baseline is positive (always the case for prices).
- `Epoch.EpochSeconds`: assumes `np.int_` holds the 64-bit nanosecond count without wrap-around.
- `Watchlist.Tickers.GetItem`: slice arguments of `__getitem__` are not modelled, only integer indices.
- The unused `kwargs` dictionary and the stored but ignored `start`/`end` (stock.py:81-84) have no effect; `Tickers.Update` states that they are not sent.
- The `Period` and `Interval` enumerations (stock.py:12-41) are string constants; period and interval are `Option<string>` here.
