# NHL pick value dashboard — table transformations in Dafny

The dashboard reads a table of drafted players' seasons (player, draft year,
pick, round, draft team, season, years after the draft, predicted point shares
`Prediction` and actual point shares `PS`) and a table of pick probabilities.
It derives one table per view, and two callbacks re-filter two of those
tables when the user changes a control. This project models those
derivations as pure functions over sequences of immutable rows, and proves
what each view holds.

Modules:

- `Sequences` (`sequences.dfy`): order-preserving filtering (`FilteredBy` is
  the reference: a subsequence keeping exactly the satisfying rows, with their
  multiplicity), reversal, and per-element counting facts.
- `Keys` (`keys.dfy`): group keys as tuples of integers ordered
  lexicographically, the way pandas orders multi-column group keys.
- `Groups` (`groups.dfy`): `groupby(...).sum()` and `.mean()`. `SumFor` and
  `CountFor` are reference definitions of one group's sum and size. The
  grouped tables are proved to have one ascending entry per key present. They
  hold the group's sum or mean, and the sum preserves the grand total.
- `Dataset` (`dataset.dfy`): the two parsed input tables.
- `PickValue` (`pick_value.dfy`): the RFA-window filter, the pick-value curve,
  the round curve and the pick-probability filter.
- `PlayerSummary` (`player_summary.dfy`): the per-player summary table with
  Residual. It groups by player and sorts by PS.
- `LongForm` (`melt.dfy`): the wide-to-long melt and its inverse pivot.
- `Callbacks` (`callbacks.dfy`): the bodies of `update_player_summary_table`
  and `update_player_comparison_figure`. The tables they close over become
  parameters.
- `Views` (`views.dfy`): the tables each version of the application builds.

`app.py` is an earlier copy of `dashboard.py`. Its pipelines (app.py:22-24, 36,
47-54, 75) and callback bodies (app.py:183-191, 201-204) are the same text as
dashboard.py:23-25, 37, 48-55, 76, 237-245 and 255-258. The same members model
both files. `Views.AppViews` records the one difference: there is no
pick-probability view.

Prediction, PS and the probabilities are `real`, so the sum and mean
identities are exact.

## Model

| member | source | states |
|---|---|---|
| PickValue.RfaWindow | dashboard.py:23 | The RFA window holds exactly the seasons with `Season_Start < Draft_Year + 7`, as an order-preserving subsequence that keeps their multiplicity; a season is in it iff it is in the data and satisfies the predicate (same at app.py:22) |
| Groups.GroupMean | dashboard.py:24 | A grouped mean has one entry per distinct key of the input, strictly ascending, and each entry holds the mean (group sum over the non-zero group size) of its group |
| PickValue.PickYearMeans | dashboard.py:24 | One entry per (Pick, Years_After_Draft) pair present in the rows, ascending; each holds the mean Prediction of that pair's rows |
| Groups.GroupSum | dashboard.py:25 | A grouped sum has one entry per distinct key, strictly ascending; each entry holds its group's sum, and the entries' total equals the input column's total |
| Groups.SumRowsTotal | dashboard.py:25 | Mass preservation: summing every group over a duplicate-free key list that covers every key gives the column total |
| PickValue.PickValueCurve | dashboard.py:23-25 | One entry per Pick that has a season in the RFA window, ascending by Pick; each holds the sum of that Pick's per-year means; the curve's total equals the total of the per-year means (same at app.py:22-24) |
| PickValue.RoundCurve | dashboard.py:37 | One entry per (Years_After_Draft, Round) pair present in the data, ascending; each holds the mean Prediction of that pair's rows (same at app.py:36) |
| Groups.MeanWithin | dashboard.py:37 | A group mean lies within any bounds that hold for every value in the group |
| PickValue.RoundCurveWithin | dashboard.py:37 | Each round-curve point lies within the range of the Predictions averaged into it |
| PickValue.ProbabilityCurves | dashboard.py:89 | The probability rows kept are exactly those with Years After Draft in {0, 1, 3, 7, 10}, in order and with their multiplicity |
| PlayerSummary.WithResidual | dashboard.py:48-49 | Keeps every row's Player, Draft_Year, Pick, Draft_Team, Prediction and PS, and adds Residual equal to PS minus Prediction (same at app.py:47-48) |
| PlayerSummary.Players | dashboard.py:50 | The grouping keys are duplicate-free, and a name is among them iff some row has that Player |
| PlayerSummary.FindFirst | dashboard.py:50-52 | Finds the index of a player's first row: no earlier row has that player, and the index is past the end iff the player is absent |
| PlayerSummary.GroupPlayers | dashboard.py:50-54 | One row per distinct Player, and every Player of the input has a row. Pick, Draft_Year and Draft_Team come from that player's first row. Prediction, PS and Residual are that player's sums, and each column total equals the input total (same at app.py:49-53) |
| PlayerSummary.ResidualOfSums | dashboard.py:49-54 | Per player, the summed Residual equals the summed PS minus the summed Prediction |
| PlayerSummary.SortByPs | dashboard.py:55 | The sorted table is a permutation of its input with PS non-increasing from top to bottom (same at app.py:54) |
| PlayerSummary.SortByPsTotal | dashboard.py:55 | Sorting keeps every column total |
| PlayerSummary.PlayerSummaryTable | dashboard.py:48-55 | The summary is a permutation of the grouped rows with PS non-increasing. It has one row per player and a row for every player in the data. Each row has first-row draft facts and Residual = PS − Prediction. Its Prediction, PS and Residual totals equal the input totals (same at app.py:47-54) |
| LongForm.Melt | dashboard.py:76 | Melting n rows gives 2n rows. Row i carries row i's Player, Season_Start and Prediction tagged Prediction. Row n+i carries the same Player and Season_Start with PS, tagged PS (same at app.py:75) |
| LongForm.MeltRoundTrip | dashboard.py:76 | Pivoting the melted table back gives exactly the selected wide table: the melt loses nothing |
| Callbacks.Contains | dashboard.py:243 | The substring scan returns true iff the filter text occurs at some position of the name |
| Callbacks.UpdatePlayerSummaryTable | dashboard.py:237-245 | The result is exactly the table rows with lo ≤ Draft_Year ≤ hi and, when the filter is neither None nor empty, a lower-cased Player containing the lower-cased filter. They stay in table order with their multiplicity (same at app.py:183-191) |
| Callbacks.InvertedRangeIsEmpty | dashboard.py:238-241 | A range with lo > hi yields an empty table rather than an error |
| Callbacks.EmptyFilterIsNoFilter | dashboard.py:242 | An empty filter string gives the same result as None: only the range applies |
| Callbacks.FilterCaseInsensitive | dashboard.py:243 | Lower-casing the filter text does not change the result |
| Callbacks.UpdatePlayerComparison | dashboard.py:255-258 | Read backwards, the result is exactly the melted rows whose Player is a or b, in order and with their multiplicity; it holds the same rows as that subsequence (same at app.py:201-204) |
| Callbacks.SamePlayerTwice | dashboard.py:256-258 | Choosing the same player twice yields each of that player's rows exactly as often as in the melted table, and no other row |
| Callbacks.AbsentPlayerAddsNothing | dashboard.py:256-258 | A name that no melted row carries contributes nothing, and raises nothing: the result equals choosing the other player twice |
| Callbacks.ComparisonShowsBothSeries | dashboard.py:255-258 | Every season of a chosen player appears in the comparison twice: once with its Prediction tagged Prediction and once with its PS tagged PS |
| Views.DashboardViews | dashboard.py:23-89 | The deployed version's tables: a pick-probability view holding exactly the shown years' rows, a pick-value curve preserving the per-year-mean total, a PS-sorted summary, and a melt of twice the data's length |
| Views.AppViews | app.py:22-75 | The earlier copy's tables: no pick-probability view; the other tables have the same properties as the deployed version's |

## Left out

- Loading the CSV and JSON files, and the `Season` string cast, are I/O. Every view takes already-parsed rows.
- The following are rendering and are not modelled: Plotly figure construction and styling, the y-axis ranges, the DataTable columns and their `Format`, the page layout, tabs and text.
- Dash callback wiring and dispatch, and server startup, are not modelled.
- The range slider's 2007–2023 bounds are a widget property; no code clamps the range, so the filter takes any integer pair.
- The DataTable's `sort_action='native'` re-sorting happens in the browser and is not modelled.
- Floating point is not modelled. Values are `real`, so sums and means are exact.
- Missing values are not modelled: pandas "first" skips NaN, and the model assumes complete rows.
- Round is modelled as an integer (the draft round number), so its order within a group key is numeric.
- Callbacks.NameMatches: `str.contains` treats the filter as a regular expression and lower-cases with Unicode rules. The model uses a literal substring and ASCII lower-casing, which agree with pandas only for filters without regular-expression metacharacters.
- PlayerSummary.GroupPlayers: pandas lists groups in ascending name order. The model lists them in first-appearance order. The next step sorts by PS with an unstable sort, so only the multiset of grouped rows is observable, and only that is claimed.
- PlayerSummary.SortByPs: pandas' default quicksort does not fix the order of rows with equal PS. The model uses one particular order and claims only a permutation with PS non-increasing.
- The comparison callback compares Player with each chosen name using `==`. A name no row carries selects nothing and raises nothing (`Callbacks.AbsentPlayerAddsNothing`).
- An inverted draft-year range selects nothing (`Callbacks.InvertedRangeIsEmpty`).
