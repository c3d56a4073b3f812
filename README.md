# The calculate page of bw_timex_app, as data rules

The calculate page of the bw_timex_app Streamlit front end does the following:

1. It searches the Brightway activity store for a demand activity, by database, name fragment and location fragment.
2. It wraps each hit in the node class of its database's back end.
3. It collects a database → representative-date dictionary from a data editor.
4. After a temporal LCA has run, it turns the characterized inventory into one scatter chart per metric.

Around these steps sits a small session: the candidates of the last search, and the chosen demand activity.

This project models those rules in Dafny and proves what they guarantee:

- `wrappers.dfy`, module `Wrappers`: `Option`, `Result`, and the `dict.get` default lookup.
- `search.dfy`, module `CandidateSearch`: `find_candidates` and `node_class`.
  - The store is an ordered `seq<Record>`.
  - Each `qs.where(...)` refinement is an order-keeping selection, `Where`.
  - The store's substring test `contains` is a parameter.
  - Indexing `bd.databases` with an unknown database raises. That case is the `Err` branch of a `Result`.
- `date_mapping.dfy`, module `DateMapping`: `dict(zip(editor['Database'], editor['Representative Date']))`, as `Zip` followed by an in-order dictionary build.
- `grouping.dfy`, module `Grouping`: `groupby(["date", "activity"]).sum()` on rows of `(date, activity, amount)`.
  - It is built as insertion into a key-sorted list of groups.
  - Keys are ordered lexicographically, date first, as pandas sorts group keys.
- `aggregation.dfy`, module `Aggregation`: the rest of `plot_characterized_inventory`.
  - The running total `cumsum` over the whole grouped table.
  - The label cache, filled in a loop over the distinct activities (method `BuildLabelCache`).
  - The label column.
  - The pivot to a wide table (date × label). It fails on a cell that would be filled twice, as pandas raises on duplicate entries.
  - The y-axis label table keyed by metric.
  - The whole step, as method `PlotCharacterizedInventory`.
- `session.dfy`, module `Session`: class `CalculationSession` stands for the session fields `tlca_demand_candidates` and `tlca_demand_activity`.
  - The Apply Filter, Select and Calculate buttons are methods that update those fields.
  - Calculate is enabled only once an activity is chosen.

## Model

| member | source | states |
|---|---|---|
| Wrappers.GetOr | bw_timex_app/pages/calculate.py:50-51 | a present key gives its value, an absent key gives the default |
| CandidateSearch.Where | bw_timex_app/pages/calculate.py:39-44 | a refinement keeps only elements of the input that pass the test, and keeps every one that does |
| CandidateSearch.Positions | bw_timex_app/pages/calculate.py:36-47 | the positions of the passing elements, strictly increasing, in range, and complete |
| CandidateSearch.WhereIsOrderedSelection | bw_timex_app/pages/calculate.py:36-47 | a refinement is the subsequence of the input at exactly the passing positions, in input order |
| CandidateSearch.WhereExtensional | bw_timex_app/pages/calculate.py:39-44 | two tests that agree on every record select the same records |
| CandidateSearch.WhereComposes | bw_timex_app/pages/calculate.py:39-44 | refining a selection by a second test equals one selection by both tests |
| CandidateSearch.QuerySet | bw_timex_app/pages/calculate.py:36-44 | the query set is no longer than the store, holds only store records that pass all three tests, and holds every one that does; QuerySetIsConjunction and QuerySetIsOrderedSelection fix it as the in-order selection |
| CandidateSearch.QuerySetIsConjunction | bw_timex_app/pages/calculate.py:41-44 | the query set equals one selection by database AND name-contains (if given) AND location-contains (if given); an empty or absent fragment constrains nothing |
| CandidateSearch.QuerySetIsOrderedSelection | bw_timex_app/pages/calculate.py:36-47 | the query set is the subsequence of the store made of exactly the matching records, every one in the requested database, in store order |
| CandidateSearch.QuerySetWithoutFragments | bw_timex_app/pages/calculate.py:41-44 | with no name and no location fragment, the result is every record of the database, in store order |
| CandidateSearch.NodeClassOf | bw_timex_app/pages/calculate.py:49-51 | defined exactly for known databases; a missing `backend` entry gives the sqlite class; an unmapped back end falls back to the sqlite class; otherwise the class mapped to the back end |
| CandidateSearch.Wrap | bw_timex_app/pages/calculate.py:47 | fails exactly when some record's database is unknown; otherwise each record, in order, is wrapped in its database's node class |
| CandidateSearch.FindCandidates | bw_timex_app/pages/calculate.py:26-47 | fails exactly when there are matches and the database is unknown; otherwise one candidate per match, in order, each wrapped in the database's node class |
| DateMapping.Zip | bw_timex_app/pages/calculate.py:145 | pairs the two columns position by position, up to the shorter one |
| DateMapping.ToDict | bw_timex_app/pages/calculate.py:145 | the dictionary's keys are exactly the databases named by the rows |
| DateMapping.LastWriteWins | bw_timex_app/pages/calculate.py:145 | a database maps to the date of its last row, unchanged |
| DateMapping.DatabaseDateDict | bw_timex_app/pages/calculate.py:145 | the keys are exactly the databases of the rows that have a date beside them; DatabaseDateDictLastWins fixes the values |
| DateMapping.DatabaseDateDictLastWins | bw_timex_app/pages/calculate.py:145 | a database maps to the date of its last row in the editor columns, verbatim |
| DateMapping.DictValuesAreLastDates | bw_timex_app/pages/calculate.py:145 | every entry of the dictionary is the row that is last for its database, verbatim |
| DateMapping.LaterRowOverrides | bw_timex_app/pages/calculate.py:145 | a database entered with a date and then with "dynamic" maps to "dynamic" |
| Grouping.Amounts | bw_timex_app/pages/calculate.py:180 | the `amount` column of the grouped table, position by position |
| Grouping.Insert | bw_timex_app/pages/calculate.py:179 | adding one row's amount yields a list with at most one more group than before and never fewer; its first key is the new key or the old first key; InsertKeepsSorted, InsertKeys, InsertAmounts and InsertTotal state the rest |
| Grouping.InsertKeepsSorted | bw_timex_app/pages/calculate.py:179 | adding a row keeps the group keys strictly sorted |
| Grouping.InsertKeys | bw_timex_app/pages/calculate.py:179 | adding a row adds its key to the set of group keys and nothing else |
| Grouping.InsertAmounts | bw_timex_app/pages/calculate.py:179 | adding a row raises the amount of its own key by the row's amount and leaves every other key's amount alone |
| Grouping.InsertTotal | bw_timex_app/pages/calculate.py:179 | adding a row raises the total of the groups by the row's amount |
| Grouping.GroupBy | bw_timex_app/pages/calculate.py:179 | at most one group per inventory row, and at least one group when there is a row; GroupBySorted, GroupByKeys, GroupByAmounts and GroupByTotal make it sorted by key, with exactly the inventory's keys, the sum per key and the same total |
| Grouping.GroupBySorted | bw_timex_app/pages/calculate.py:179 | grouped keys are strictly increasing (date, then activity) |
| Grouping.GroupByKeys | bw_timex_app/pages/calculate.py:179 | the grouped keys are exactly the (date, activity) pairs of the inventory |
| Grouping.GroupByAmounts | bw_timex_app/pages/calculate.py:179 | the grouped amount of every key is the sum of the inventory amounts with that key |
| Grouping.GroupByTotal | bw_timex_app/pages/calculate.py:179 | grouping preserves the total amount |
| Grouping.SortedAmountAt | bw_timex_app/pages/calculate.py:179 | in sorted groups, the amount looked up by a group's key is that group's amount |
| Grouping.AbsentKeyAmount | bw_timex_app/pages/calculate.py:179 | a key below every group key has amount zero |
| Grouping.GroupKeysAt | bw_timex_app/pages/calculate.py:179 | a key is a group key exactly when some group carries it |
| Grouping.RowKeysAt | bw_timex_app/pages/calculate.py:179 | a key is an inventory key exactly when some inventory row carries it |
| Grouping.GroupedKeysUnique | bw_timex_app/pages/calculate.py:179 | after grouping each (date, activity) pair occurs once, and dates do not decrease |
| Grouping.GroupedAmountIsKeySum | bw_timex_app/pages/calculate.py:179 | each grouped row's amount is the sum of the inventory amounts with its key |
| Grouping.GroupOfRow | bw_timex_app/pages/calculate.py:179 | every inventory row has a grouped row with its key |
| Grouping.RowOfGroup | bw_timex_app/pages/calculate.py:179 | every grouped row's key comes from some inventory row |
| Grouping.GroupingExample | bw_timex_app/pages/calculate.py:179 | amounts 2 and 3 under one key and 1 under a later key group to 5 and 1, in key order |
| Aggregation.RunningFrom | bw_timex_app/pages/calculate.py:180 | the running total from a starting value has one entry per amount |
| Aggregation.CumSum | bw_timex_app/pages/calculate.py:180 | the cumulative sum has one entry per amount |
| Aggregation.RunningFromAt | bw_timex_app/pages/calculate.py:180 | entry i of a running total is the start plus the sum of amounts 0..i |
| Aggregation.CumSumIsPrefixSum | bw_timex_app/pages/calculate.py:180 | `amount_sum[i]` is the sum of amounts 0..i, and the last entry is the grand total |
| Aggregation.RunningFromStep | bw_timex_app/pages/calculate.py:180 | each running-total entry is the previous one plus the next amount |
| Aggregation.CumSumMonotone | bw_timex_app/pages/calculate.py:180 | with non-negative amounts the running total never decreases |
| Aggregation.Activities | bw_timex_app/pages/calculate.py:184 | the `activity` column of the grouped table, position by position |
| Aggregation.Unique | bw_timex_app/pages/calculate.py:184 | `unique()` has no repeated value and the same values as its input |
| Aggregation.GroupedActivities | bw_timex_app/pages/calculate.py:179-184 | the activities of the grouped table are exactly those of the inventory |
| Aggregation.BuildLabelCache | bw_timex_app/pages/calculate.py:183-188 | the cache has exactly the given activities as keys, each with its resolved label, and the resolver was called once per distinct activity |
| Aggregation.LabelRows | bw_timex_app/pages/calculate.py:180-189 | the plot rows get the `amount_sum` and `activity_label` columns, one row per group |
| Aggregation.Pivot | bw_timex_app/pages/calculate.py:193 | the only failure of the pivot is a duplicate entry |
| Aggregation.CellsOfAt | bw_timex_app/pages/calculate.py:193 | a (date, label) cell is named exactly when some plot row has that date and label |
| Aggregation.PivotSpec | bw_timex_app/pages/calculate.py:193 | the pivot succeeds exactly when no two rows share a (date, label) cell; it then fills exactly the cells the rows name, each with its row's `amount` (absent pairs stay empty), with the row dates as index and the labels as columns |
| Aggregation.NatToString | bw_timex_app/pages/calculate.py:173 | the text is all decimal digits, spells `n` (its digit value is `n`), and starts with 0 only for 0 itself |
| Aggregation.IntToString | bw_timex_app/pages/calculate.py:173 | `str()` of the time horizon: a minus sign exactly for negative numbers, then digits whose value is the magnitude, with no leading zero, and exactly "0" for 0 |
| Aggregation.MetricLabels | bw_timex_app/pages/calculate.py:171-174 | the label table has exactly the two metrics as keys; `YLabel` states its two entries |
| Aggregation.YLabel | bw_timex_app/pages/calculate.py:171-196 | "radiative_forcing" and "GWP" get their two labels, the GWP one carrying the time horizon; any other metric fails, naming the metric |
| Aggregation.GwpLabelAtHundred | bw_timex_app/pages/calculate.py:171-174 | at the horizon of 100 the GWP label is "GWP100 [kg CO₂-eq]" |
| Aggregation.PlotCharacterizedInventory | bw_timex_app/pages/calculate.py:168-196 | the plot rows are the grouped rows in key order, each with its running total and its activity's label; every distinct activity is resolved once; the chart is the pivot under the metric's label, failing first on a duplicate cell, then on an unknown metric |
| Aggregation.LaidOut | bw_timex_app/pages/calculate.py:179-189 | the plot data: one row per group of the grouped inventory, in the same order, with the group's amount, its running total and its activity's label; established by PlotCharacterizedInventory and read by the LaidOut lemmas |
| Aggregation.LaidOutAmounts | bw_timex_app/pages/calculate.py:179-193 | every plot row's amount is the inventory sum for its (date, activity) pair, not its running total |
| Aggregation.LaidOutRunningSums | bw_timex_app/pages/calculate.py:180 | every plot row's `amount_sum` is the total of the grouped amounts up to and including it, across all activities |
| Aggregation.LaidOutRunningTotal | bw_timex_app/pages/calculate.py:180 | the last `amount_sum` is the inventory's total amount |
| Aggregation.LaidOutOrdered | bw_timex_app/pages/calculate.py:179 | plot rows have non-decreasing dates and pairwise distinct (date, activity) pairs |
| Aggregation.LaidOutCoversInventory | bw_timex_app/pages/calculate.py:179-189 | every inventory row has a plot row with its (date, activity) pair |
| Aggregation.LaidOutRowsFromInventory | bw_timex_app/pages/calculate.py:179-189 | every plot row's (date, activity) pair comes from some inventory row |
| Aggregation.PivotFailsOnSharedLabel | bw_timex_app/pages/calculate.py:186-193 | the pivot fails exactly when two activities with the same date resolve to the same label |
| Session.FeedbackFor | bw_timex_app/pages/calculate.py:70-79 | zero candidates, one candidate, or the count of two or more |
| Session.CalculationSession.constructor | bw_timex_app/pages/calculate.py:92-96 | a new session has no candidates and no demand activity |
| Session.CalculationSession.ApplyFilter | bw_timex_app/pages/calculate.py:66-69 | a successful search replaces the candidates and reports their count; a failing one changes nothing; the demand activity is kept |
| Session.CalculationSession.Choice | bw_timex_app/pages/calculate.py:81-83 | the select box offers the candidates; no option is no choice |
| Session.CalculationSession.Select | bw_timex_app/pages/calculate.py:85-87 | the chosen candidate becomes the demand activity; with no choice nothing changes |
| Session.CalculationSession.Calculate | bw_timex_app/pages/calculate.py:143-151 | a request is produced exactly when a demand activity is chosen; it carries that activity with the amount, the method and the date dictionary of the editor columns |

`Session.SearchSelectCalculate` models no single source function. It is a walkthrough of one pass through the page, as a client of the session class. It searches a one-record store for "electricity", selects the only candidate and calculates with "eco" marked dynamic. A Calculate before any selection yields no request. `CandidateSearch.IsSubstring`, a case-sensitive substring test, is the `contains` it uses.

## Left out

- The Streamlit interface is presentation and is not modelled: page setup, styling, dialogs, widgets, messages, the timeline table, charts and page switching. The y-axis label and the wide table are modelled, not the drawing.
- `@st.cache_data` memoises the search. The model treats `find_candidates` as a pure function.
- The peewee query builder is not modelled. `contains` is a parameter because the store's case policy is not visible. A record without a location never matches a location fragment, as SQL `LIKE` on `NULL` does not.
- `bd.databases` and the node-class mapping are parameters. Only their string entries are modelled.
- The calculation library is outside the model: `TimexLCA`, `build_timeline`, `lci`, `static_lcia`, `dynamic_lcia`, the static score, `characterize_co2` and `bd.get_node`. The model's `Calculate` stops at the request it would pass on. The current metric and time horizon are parameters of `PlotCharacterizedInventory`.
- `resolve_temporalized_node_name` and `activity_time_mapping_dict_reversed` are not modelled separately. Together they are the label function `labelOf`, a parameter.
- Amounts are exact reals. Floating-point rounding in pandas sums and in `cumsum` is not modelled. Neither are the other numeric columns that `groupby().sum()` would add up.
- The pivot's index and columns are sets. pandas' sorted order of the wide table is not modelled.
- Dates and activities of the inventory are integers. The editor cells are strings; blank editor cells are not modelled.
- The amount input's lower bound of 0.0 is a widget setting. It is not a precondition of `Calculate`.
- The select box is a position into the candidate list (`Choice`). Only the Select handler's update is modelled, not the rerun.
- The node-class mapping is assumed to have its `"sqlite"` entry (`requires DefaultBackend in classes` on the search operations). The page reads that entry eagerly as the fallback of every lookup, so without it every lookup would raise. That failure is not modelled.
- CandidateSearch.Wrap: `node_class` is looked up per matching record, as the list comprehension does. All records of the query set share one database, so either every lookup succeeds or the first one raises.
- Aggregation.Pivot: its own contract states only the kind of failure. The full behaviour is stated by `PivotSpec`.
