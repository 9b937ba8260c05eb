# Brent oil change-point analysis: the discrete layer, in Dafny

The repository analyses Brent crude oil prices in three parts.

- `RegimeMixtureModel` (`scripts/_02_bayesian_model.py`) detects change points in the price with PELT. It also fits a two-regime volatility model in PyMC and reports the modal change index `tau` as a date.
- `ChangePointAnalysis` (`scripts/_03_bayesian_inference_vis.py`) turns the posterior `tau` draws into a change date. It then lists the historical events dated within a window around it.
- A Flask app (`app.py`) serves the processed tables to a React dashboard, after rewriting some of their columns.

The heavy parts are library calls: PELT segmentation, the PyMC model and sampler, and the ArviZ diagnostics. This project models the deterministic logic around those calls and proves what that logic guarantees.

Library results are inputs of the model:

- The PELT detector is a function parameter `pelt: seq<V> -> seq<int>`, from the price values to its breakpoint list.
- The sampler is a parameter mapping the built model to the `tau` draws of each chain (`seq<seq<int>>`).
- Prices, log returns and the regime scales `sigma_1`/`sigma_2` are opaque values.

Dates are calendar triples. Inside the scripts they become day numbers (days since 1970-01-01), which is what timestamp comparison and `Timedelta(days=k)` arithmetic act on.

Modules, one per file:

- `Seqs` (`seqs.dfy`): the building blocks shared by the other modules.
  - Boolean-mask selection `Filter` (what `dropna`, `df[mask]` and `Series.between` select), with its position, subsequence, multiset and monotonicity lemmas.
  - numpy/pandas positional indexing `At`, where negative positions count from the end and anything else out of range is `IndexError`.
  - The occurrence tally `Tally`, which counts what `value_counts` counts.
- `Calendar` (`calendar.dfy`): Gregorian dates within the range a pandas `Timestamp` can hold, their day numbers, the `%d/%m/%Y` text form and JavaScript-style `split("/")`.
- `BayesianModel` (`bayesian_model.dfy`): `scripts/_02_bayesian_model.py`. Pure functions and lemmas hold the logic. A class `RegimeMixtureModel` holds the fields the methods assign (`change_date`, `model` with `log_return_index`, `trace`).
- `BayesianInferenceVis` (`bayesian_inference_vis.dfy`): `scripts/_03_bayesian_inference_vis.py`. It has the same split, with a class `ChangePointAnalysis` holding `events` and `change_date`. Whether `events` was ever loaded is an `Option`.
- `App` (`app.py`): one function per route transform over a sequence of rows. The columns a route does not touch are kept as an opaque value.

The following error paths are explicit outcomes in the model:

- the early `return`s become `PriceMissing`, `NoModel` and `MissingEvents`;
- `IndexError` from positional lookups becomes `BreakpointOutOfRange` and `NoTauDate`;
- the empty-draws failure and the lookup failure become `NoChangeDate`;
- in the `change_points` route, the `KeyError` of a missing `Date` column becomes `None`.

Three facts about the code that the model states outright:

- `_02` and `_03` derive different change dates.
  - `_02` takes the posterior **mode** of `tau` and looks it up in the log-return index.
  - `_03` takes the truncated **mean** and looks it up in the price frame's index.
  - Both are modelled as written. `MeanIndexDiffersFromMode` gives draws on which the two estimates differ. `LogReturnIndexIsShifted` shows that the two indexes are one row apart in the usual data shape.
- With change date 2011-03-01 and the default 60-day window, an event on 2011-06-01 (92 days later) is not matched (`ExampleMarch2011`).
- `value_counts` drops a missing type, so the counts sum to the events that have a type (`EventTypeCountsCorrect`).

## Model

| member | source | states |
|---|---|---|
| `Seqs.At` | scripts/_02_bayesian_model.py:226 | Positional lookup succeeds exactly for positions in `-n .. n-1`; a negative position counts from the end. |
| `Seqs.TallyCorrect` | app.py:40 | The tally has one entry per distinct value, its keys are exactly the values that occur, each count is the number of occurrences, and the counts add up to the length. |
| `Calendar.DayNumberOrder` | scripts/_03_bayesian_inference_vis.py:150-155 | On supported dates, comparing day numbers is comparing calendar order, and equal day numbers mean the same date. |
| `Calendar.Split` | brent-oil-price-dashboard/src/components/LogReturnChart.js:40 | There is always at least one field; on formatted dates the fields are stated by `SplitFormatted`. |
| `Calendar.FormatDate` | app.py:16 | The `%d/%m/%Y` text has ten characters: digits everywhere except `/` at positions 2 and 5. |
| `Calendar.SplitFormatted` | app.py:15-16 | Splitting the text on `/` gives exactly the zero-padded day, month and four-digit year, which read back as the date's day, month and year. |
| `Calendar.FormatDateRoundTrip` | app.py:16 | Parsing the formatted text gives back the same date. |
| `Calendar.FormatDateInjective` | app.py:16 | Two supported dates with the same text are the same date. |
| `BayesianModel.DropNa` | scripts/_02_bayesian_model.py:106 | Every entry left has a value; which entries are kept, and in what order, is stated by `DropNaKeepsExactlyPresent`. |
| `BayesianModel.DropNaKeepsExactlyPresent` | scripts/_02_bayesian_model.py:106 | `dropna` keeps, in increasing positions and unchanged, exactly the entries whose value is present. |
| `BayesianModel.DropNaEmptyIffAllMissing` | scripts/_02_bayesian_model.py:100-110 | Nothing survives `dropna` if and only if every entry is missing. |
| `BayesianModel.TrimEndOfSeries` | scripts/_02_bayesian_model.py:120-121 | The result is a prefix of the breakpoint list, at most one shorter; it is shorter exactly when the last breakpoint equals the series length; an empty list stays empty. |
| `BayesianModel.IndexDates` | scripts/_02_bayesian_model.py:123 | The lookup succeeds exactly when every breakpoint is a valid position, and then gives, in order, the date of each breakpoint's entry. |
| `BayesianModel.ChangePointDetection` | scripts/_02_bayesian_model.py:100-123 | Detection stops before the detector exactly when `Price` is absent or all missing; a successful run has one date per breakpoint. |
| `BayesianModel.EmptyAfterDropnaUnreachable` | scripts/_02_bayesian_model.py:108-110 | The guard on an empty series after `dropna` never fires, because the all-missing guard already caught that case. |
| `BayesianModel.DetectedDatesAreSeriesDates` | scripts/_02_bayesian_model.py:100-123 | A successful run had a present price; its breakpoints are the detector's list without the end marker; each date is the date of the present-price entry at that breakpoint. |
| `BayesianModel.TrimNeverKeepsLength` | scripts/_02_bayesian_model.py:120-121 | For a strictly increasing list bounded by the length, every breakpoint left after trimming is below the length. |
| `BayesianModel.WellFormedDetectorIndexesInRange` | scripts/_02_bayesian_model.py:118-123 | With a non-negative, strictly increasing detector output ending at the length, detection succeeds; the breakpoints are the output less its last element; each is a valid position whose entry gives the date. |
| `BayesianModel.BuildVolatilityModel` | scripts/_02_bayesian_model.py:169-195 | No model exactly when every log return is missing; otherwise `tau` is bounded to `[0, N-1]`, and entry `k` of the data and of the index are the log return and the date of the `k`-th row that has a log return, every such row contributing one entry, in row order. |
| `BayesianModel.Regimes` | scripts/_02_bayesian_model.py:191 | One regime per observation; which regime each gets is stated by `ScaleSwitch` and `RegimeBlocks`. |
| `BayesianModel.ScaleSwitch` | scripts/_02_bayesian_model.py:184-191 | Observation `i` gets `sigma_1` exactly when `i < tau`, otherwise `sigma_2`. |
| `BayesianModel.RegimeBlocks` | scripts/_02_bayesian_model.py:184-191 | For `tau` in `[0, N]` the regimes are one block of `tau` regime-1 observations followed by `N - tau` regime-2 ones. |
| `BayesianModel.PriorTauSplitsSeries` | scripts/_02_bayesian_model.py:187-191 | Under the prior's bounds regime 1 covers `tau` observations and regime 2 covers `N - tau`, which is at least one. |
| `BayesianModel.Pool` | scripts/_02_bayesian_model.py:224 | The draws of every chain, chain after chain; membership both ways is stated by `PoolMembership`, and the carrying over of bounds by `PoolBounds`. |
| `BayesianModel.PoolMembership` | scripts/_02_bayesian_model.py:224 | A value is among the flattened draws exactly when some chain drew it. |
| `BayesianModel.PoolBounds` | scripts/_02_bayesian_model.py:224 | Bounds that every chain's draws respect hold for every pooled draw. |
| `BayesianModel.BestOf` | scripts/_02_bayesian_model.py:225 | The value chosen from a prefix occurs in it and beats every element of it: more frequent, or as frequent and not larger. |
| `BayesianModel.Mode` | scripts/_02_bayesian_model.py:225 | No mode exactly when there are no draws; otherwise the mode occurs, no value occurs more often, and it is the smallest of the equally frequent ones. |
| `BayesianModel.SmallestModeUnique` | scripts/_02_bayesian_model.py:225 | That specification has exactly one solution. |
| `BayesianModel.VolatilityInference` | scripts/_02_bayesian_model.py:201-226 | Inference returns early exactly when no model was built; a reported `tau` is the smallest mode of the pooled draws. |
| `BayesianModel.ModalTauHasDate` | scripts/_02_bayesian_model.py:187-226 | Draws within the prior's bounds always give a date: the modal `tau` is a position of the log-return index and the date is the entry there. |
| `BayesianModel.RegimeMixtureModel.constructor` | scripts/_02_bayesian_model.py:33-47 | Holds the loaded frame, with no change date, no model and no trace. |
| `BayesianModel.RegimeMixtureModel.ChangePointDetectionWithRuptures` | scripts/_02_bayesian_model.py:95-123 | Returns the detection outcome and sets `change_date` only when detection succeeds. |
| `BayesianModel.RegimeMixtureModel.BuildVolatilityModelWithPymc` | scripts/_02_bayesian_model.py:162-195 | Sets the model and its log-return index unless there are no log returns. |
| `BayesianModel.RegimeMixtureModel.RunVolatilityInference` | scripts/_02_bayesian_model.py:197-226 | Without a model nothing changes; otherwise stores the draws as the trace. It returns the inference outcome (the modal `tau` and its date, which the source prints) instead of the trace the source returns. |
| `BayesianModel.RegimeMixtureModel.RunModelAndInfer` | scripts/_02_bayesian_model.py:281-285 | Runs detection, model building and inference in that order: `change_date` is set exactly when detection succeeds; a breakpoint out of range ends the run with model and trace unchanged; otherwise the model is what model building leaves, the trace holds the draws sampled from it when there is one, and inference runs on them. |
| `BayesianInferenceVis.TruncDiv` | scripts/_03_bayesian_inference_vis.py:142 | The quotient is truncated toward zero, as `int` does to a float: `q * b` lies between 0 and `a`, less than `b` away from `a`. |
| `BayesianInferenceVis.MeanIndex` | scripts/_03_bayesian_inference_vis.py:142 | No change index exactly when there are no draws. |
| `BayesianInferenceVis.MeanIndexWithinDrawBounds` | scripts/_03_bayesian_inference_vis.py:142 | The change index lies within any bounds every draw respects, so between the smallest and the largest draw. |
| `BayesianInferenceVis.MeanIndexOfNonNegative` | scripts/_03_bayesian_inference_vis.py:142 | For non-negative draws the change index is their sum divided by their count in integer division. |
| `BayesianInferenceVis.WindowMask` | scripts/_03_bayesian_inference_vis.py:154 | The `between` mask, both ends included; what it selects is stated by `MatchEventsExact`. |
| `BayesianInferenceVis.MatchEvents` | scripts/_03_bayesian_inference_vis.py:153-155 | Every matched event has its date within the window. |
| `BayesianInferenceVis.MatchEventsExact` | scripts/_03_bayesian_inference_vis.py:153-155 | An event is matched exactly when its date is in the window, both ends included; the matches are a subsequence of the events in their original order; no events give no matches. |
| `BayesianInferenceVis.WiderWindowMatchesMore` | scripts/_03_bayesian_inference_vis.py:150-155 | What a window of `w` days matches is a subsequence of what any window of `w2 >= w` days matches. |
| `BayesianInferenceVis.NegativeWindowMatchesNothing` | scripts/_03_bayesian_inference_vis.py:150-155 | A negative window ends before it starts and matches nothing. |
| `BayesianInferenceVis.ChangePointEvents` | scripts/_03_bayesian_inference_vis.py:136-155 | No change date exactly when there are no draws or the mean index is out of range; otherwise the date is the price-index entry at the mean index; the run stops exactly when events are missing; the window is `window_days` on each side, and the matches are exactly the events dated in it, in order. |
| `BayesianInferenceVis.ChangeDateInRange` | scripts/_03_bayesian_inference_vis.py:142-143 | Draws within the positions of the price index always give a change date: the entry at the truncated mean, which lies within the draws' bounds. |
| `BayesianInferenceVis.ExampleMarch2011` | scripts/_03_bayesian_inference_vis.py:150-155 | With change date 2011-03-01 and the default window, an event on 2011-02-15 (14 days before) is matched and one on 2011-06-01 (92 days after) is not. |
| `BayesianInferenceVis.MeanIndexDiffersFromMode` | scripts/_03_bayesian_inference_vis.py:142 | For the draws 0, 0, 3 the mean index is 1 while the mode is 0. |
| `BayesianInferenceVis.LogReturnIndexIsShifted` | scripts/_03_bayesian_inference_vis.py:143 | When only the first row lacks a log return, position `t` of the log-return index is row `t + 1` of the price frame. |
| `BayesianInferenceVis.ChangePointAnalysis.constructor` | scripts/_03_bayesian_inference_vis.py:19-36 | Holds the price index and the trace, with no events and no change date. |
| `BayesianInferenceVis.ChangePointAnalysis.LoadEventData` | scripts/_03_bayesian_inference_vis.py:127-134 | Stores and returns the loaded events. |
| `BayesianInferenceVis.ChangePointAnalysis.MatchChangePointToEvent` | scripts/_03_bayesian_inference_vis.py:136-158 | Returns the matching outcome and sets `change_date` whenever the lookup succeeds, before the events guard. |
| `BayesianInferenceVis.ChangePointAnalysis.RunAnalysis` | scripts/_03_bayesian_inference_vis.py:160-163 | After loading the events the run never stops for missing events: it either has no change date, leaving `change_date` as it was, or matches, with `change_date` set to the matched date. |
| `App.FormatRow` | app.py:15-16 | A row's `Date` text reads back as its date and `Year` is the date's year; a `NaT` date leaves both missing; the other columns are unchanged. |
| `App.WithYear` | app.py:24-26 | Every row is formatted in place, row count and order kept, `NaT` rows passed through with missing `Date` and `Year` (the whole `matched_events` route). |
| `App.YearFieldMatchesYear` | app.py:25-26 | Every present `Date` text splits on `/` into three fields whose third is all digits and reads back as the row's `Year`. |
| `App.PriceData` | app.py:13-17 | No row left after `dropna` has a missing cell, `Date` and `Year` included. |
| `App.PriceDataKeepsCompleteRows` | app.py:17 | The result is exactly the rows with a date and no missing cell, formatted, in their original order. |
| `App.EventTypeCounts` | app.py:40 | The `value_counts` tally of the present types; its contents are stated by `EventTypeCountsCorrect`. |
| `App.EventTypeCountsCorrect` | app.py:40-41 | One entry per event type that occurs and none for any other; each count is the number of events of that type; the counts sum to the events that have a type. |
| `App.Relabel` | app.py:57-62 | The three tau labels map to "Before 2011", "2011–2020" and "After 2020"; every other label passes through. |
| `App.RegimeVolatility` | app.py:62 | Row count and order are kept, each label is relabelled and the rest of each row is unchanged. |
| `App.RelabelIdempotent` | app.py:57-61 | No new label is a key of the map, so relabelling twice equals relabelling once. |
| `App.RegimeVolatilityIdempotent` | app.py:62 | Relabelling the table twice equals relabelling it once. |
| `App.RenameColumn` | app.py:69 | The number of columns is kept; what each becomes is stated by `RenameColumnOnlyTouchesOld` and `RenameColumnCount`. |
| `App.RenameColumnOnlyTouchesOld` | app.py:69 | Only columns with the old name change; no old-name column means no change; no old name remains; the new name is present exactly when it or the old name was. |
| `App.RenameColumnCount` | app.py:69 | After the rename the new name occurs as often as the new and the old name did together. |
| `App.ChangePoints` | app.py:68-70 | The route succeeds exactly when one column in all is named `Date` or `date` (none raises `KeyError`, two make `to_datetime` raise); then `date` is renamed `Date`, and every row keeps its other columns, with its date text reading back as its date and a `NaT` date left missing. |
| `App.PosteriorSummary` | app.py:77 | Rows are unchanged and every column keeps its position: `Unnamed: 0` becomes `parameter`, every other name stays; no `Unnamed: 0` is left. |

## Left out

- The PELT algorithm and its penalty `3 * log(n)` (`ruptures`): the detector's breakpoint list is an input.
- The PyMC model, its priors and likelihood, and `pm.sample` with its configuration: the sampled `tau` draws per chain are an input. Of the model only the `tau` bounds and the index-to-scale switch are kept.
- `az.summary` and every other posterior diagnostic, and the Augmented Dickey-Fuller test: these are library floating-point code.
- `BayesianModel.BuildVolatilityModel`: the ADF test (scripts/_02_bayesian_model.py:171) runs before the empty check. `adfuller` raises `ValueError` on an empty series, on one with fewer than four observations and on a constant series, and in each case the run ends before the model is built. The model returns `None` for the empty series and builds a model in the other two cases.
- `BayesianModel.ChangePointDetection`: a missing `LogReturn` or `Date` column (a `KeyError`) is not modelled, nor are `NaT` dates from `errors="coerce"`. Every row of the price frame has a valid date.
- `BayesianInferenceVis.ChangePointEvents`: a `NaT` entry of the price index (from `errors="coerce"`) and a `NaT` event date (an empty `Date` cell) are not modelled. Every date is a day number. In the source a `NaT` event date is never inside the window, and a `NaT` change date gives `NaT` window ends, so no event is matched.
- `App.WithYear`, `App.PriceData`, `App.ChangePoints`: a date outside the `Timestamp` range makes `to_datetime` raise `OutOfBoundsDatetime`. The model excludes such dates by precondition; it has no failure outcome for them.
- `BayesianInferenceVis.MeanIndex`: the float mean is modelled as an exact rational truncated toward zero. Float rounding of large sums is not modelled.
- The `change_date is None` half of the guard in `match_change_point_to_event` cannot fire: the preceding line either assigns a timestamp or raises. It has no separate outcome.
- Time of day: every date is a midnight timestamp, so windows compare whole days.
- `App.EventTypeCountsCorrect`: the counts are in order of first occurrence. `value_counts` orders them by decreasing count, and that order is not modelled. The percentages and their rounding (app.py:42) are floating point and left out.
- `App.EventTypeCountsCorrect`: the `Date` rewrite of `event_overlay` (app.py:37) is not modelled, because it does not reach the counts. A date there that `to_datetime` cannot parse raises, and that failure is not modelled.
- `App.PriceData`, `App.WithYear`, `App.RegimeVolatility`, `App.EventTypeCounts`: a table without the column a route reads (`Date` at app.py:14 and app.py:24, `Regime` at app.py:62, `Event Type` at app.py:40) makes pandas raise `KeyError`. The rows are typed with those columns, so the model has no such failure.
- Reading and writing CSV and NetCDF, `os.makedirs`, `safe_relpath`, printing, logging and `display`: I/O.
- `save_summary_and_trace`: I/O only.
- Flask routing, CORS and JSON encoding: the routes' outputs are the transformed rows.
- Every matplotlib and ArviZ plot, including all of `interpret_results`: presentation.
- The React dashboard: presentation.
- `scripts/_01_eda.py` and its tests: floating-point rolling statistics and statistical tests.
- The environment configuration read at import time: it sets up libraries and has no logic.
