/** `plot_characterized_inventory`: the grouped inventory gets a running
    total, a label per activity resolved once through a cache, and is then
    pivoted into a date-by-label table under a metric-specific axis label. */
module Aggregation {
  import opened Wrappers
  import opened Grouping

  /** One row of the plot data after the `amount_sum` and `activity_label` columns are added. */
  datatype PlotRow = PlotRow(date: int, activity: int, amount: real, amountSum: real, activityLabel: string)

  /** The wide table: its row index (dates), its columns (labels) and its
      filled cells; a (date, label) pair without a cell is an empty cell. */
  datatype Wide = Wide(index: set<int>, columns: set<string>, cells: map<(int, string), real>)

  datatype Chart = Chart(wide: Wide, yLabel: string)

  datatype PlotError = DuplicateEntries | UnknownMetric(metric: string)

  const RadiativeForcing: string := "radiative_forcing"
  const Gwp: string := "GWP"

  /** The running total carried from `acc`. */
  function RunningFrom(acc: real, xs: seq<real>): (r: seq<real>)
    ensures |r| == |xs|
    decreases |xs|
  {
    if xs == [] then [] else [acc + xs[0]] + RunningFrom(acc + xs[0], xs[1..])
  }

  /** `cumsum` of a column. */
  function CumSum(xs: seq<real>): (r: seq<real>)
    ensures |r| == |xs|
  {
    RunningFrom(0.0, xs)
  }

  lemma {:induction false} RunningFromAt(acc: real, xs: seq<real>, i: int)
    requires 0 <= i < |xs|
    ensures RunningFrom(acc, xs)[i] == acc + Sum(xs[..i + 1])
    decreases |xs|
  {
    if i == 0 {
      assert xs[..1][1..] == [];
    } else {
      RunningFromAt(acc + xs[0], xs[1..], i - 1);
      assert xs[..i + 1][1..] == xs[1..][..i];
    }
  }

  /** The prefix-sum identity: entry `i` of the running total is the sum of
      entries 0..i, and the last entry is the sum of the whole column. */
  lemma CumSumIsPrefixSum(xs: seq<real>)
    ensures forall i :: 0 <= i < |xs| ==> CumSum(xs)[i] == Sum(xs[..i + 1])
    ensures xs != [] ==> CumSum(xs)[|xs| - 1] == Sum(xs)
  {
    forall i | 0 <= i < |xs| ensures CumSum(xs)[i] == Sum(xs[..i + 1]) {
      RunningFromAt(0.0, xs, i);
    }
    if xs != [] {
      assert xs[..|xs|] == xs;
    }
  }

  lemma {:induction false} RunningFromStep(acc: real, xs: seq<real>, i: int)
    requires 0 <= i < |xs| - 1
    ensures RunningFrom(acc, xs)[i + 1] == RunningFrom(acc, xs)[i] + xs[i + 1]
    decreases |xs|
  {
    if i > 0 {
      RunningFromStep(acc + xs[0], xs[1..], i - 1);
    }
  }

  /** With non-negative amounts the running total never decreases. */
  lemma CumSumMonotone(xs: seq<real>)
    requires forall i :: 0 <= i < |xs| ==> xs[i] >= 0.0
    ensures forall i, j :: 0 <= i <= j < |xs| ==> CumSum(xs)[i] <= CumSum(xs)[j]
  {
    forall i, j | 0 <= i <= j < |xs| ensures CumSum(xs)[i] <= CumSum(xs)[j] {
      var k := i;
      while k < j
        invariant i <= k <= j
        invariant CumSum(xs)[i] <= CumSum(xs)[k]
      {
        RunningFromStep(0.0, xs, k);
        k := k + 1;
      }
    }
  }

  /** The activity column of a grouped table. */
  function Activities(groups: seq<Group>): (acts: seq<int>)
    ensures |acts| == |groups|
    ensures forall i :: 0 <= i < |groups| ==> acts[i] == groups[i].key.activity
  {
    if groups == [] then [] else [groups[0].key.activity] + Activities(groups[1..])
  }

  /** `Series.unique()`: the distinct values of the column. */
  function Unique(s: seq<int>): (u: seq<int>)
    ensures forall i, j :: 0 <= i < j < |u| ==> u[i] != u[j]
    ensures forall x :: x in u <==> x in s
    decreases |s|
  {
    if s == [] then []
    else
      var init := Unique(s[..|s| - 1]);
      var last := s[|s| - 1];
      assert forall x :: x in s <==> x in s[..|s| - 1] || x == last;
      if last in init then init else init + [last]
  }

  /** The label-cache loop over the distinct activities: every distinct
      activity is resolved once and its label cached; `resolved` lists the
      calls to the resolver. */
  method BuildLabelCache(activities: seq<int>, labelOf: int -> string)
    returns (cache: map<int, string>, resolved: seq<int>)
    ensures forall a :: a in cache <==> a in activities
    ensures forall a :: a in cache ==> cache[a] == labelOf(a)
    ensures forall i, j :: 0 <= i < j < |resolved| ==> resolved[i] != resolved[j]
    ensures forall a :: a in resolved <==> a in activities
  {
    var unique := Unique(activities);
    cache, resolved := map[], [];
    var i := 0;
    while i < |unique|
      invariant 0 <= i <= |unique|
      invariant forall a :: a in cache <==> a in unique[..i]
      invariant forall a :: a in cache ==> cache[a] == labelOf(a)
      invariant resolved == unique[..i]
    {
      var activity := unique[i];
      if activity !in cache {
        cache := cache[activity := labelOf(activity)];
        resolved := resolved + [activity];
      }
      assert unique[..i + 1] == unique[..i] + [activity];
      i := i + 1;
    }
    assert unique[..i] == unique;
  }

  /** Adds the `amount_sum` and `activity_label` columns (`Series.map(cache)`). */
  function LabelRows(groups: seq<Group>, sums: seq<real>, cache: map<int, string>): (rows: seq<PlotRow>)
    requires |sums| == |groups|
    requires forall i :: 0 <= i < |groups| ==> groups[i].key.activity in cache
    ensures |rows| == |groups|
  {
    seq(|groups|, i requires 0 <= i < |groups| =>
      PlotRow(groups[i].key.date, groups[i].key.activity, groups[i].amount, sums[i], cache[groups[i].key.activity]))
  }

  /** The cell a plot row fills in the wide table. */
  function CellOf(row: PlotRow): (int, string)
  {
    (row.date, row.activityLabel)
  }

  predicate DistinctCells(rows: seq<PlotRow>)
  {
    forall i, j :: 0 <= i < j < |rows| ==> CellOf(rows[i]) != CellOf(rows[j])
  }

  /** `pivot(index="date", columns="activity_label", values="amount")`:
      fills the cell of each row with its amount and raises when a cell
      would be filled twice. */
  function Pivot(rows: seq<PlotRow>): (r: Result<Wide, PlotError>)
    ensures r.Err? ==> r.error == DuplicateEntries
    decreases |rows|
  {
    if rows == [] then Ok(Wide({}, {}, map[]))
    else
      var last := rows[|rows| - 1];
      match Pivot(rows[..|rows| - 1])
      case Err(e) => Err(e)
      case Ok(w) =>
        if CellOf(last) in w.cells then Err(DuplicateEntries)
        else Ok(Wide(w.index + {last.date}, w.columns + {last.activityLabel}, w.cells[CellOf(last) := last.amount]))
  }

  /** The cells, dates and labels the rows name. */
  function CellsOf(rows: seq<PlotRow>): set<(int, string)>
    decreases |rows|
  {
    if rows == [] then {} else CellsOf(rows[..|rows| - 1]) + {CellOf(rows[|rows| - 1])}
  }

  function DatesOf(rows: seq<PlotRow>): set<int>
    decreases |rows|
  {
    if rows == [] then {} else DatesOf(rows[..|rows| - 1]) + {rows[|rows| - 1].date}
  }

  function LabelsOf(rows: seq<PlotRow>): set<string>
    decreases |rows|
  {
    if rows == [] then {} else LabelsOf(rows[..|rows| - 1]) + {rows[|rows| - 1].activityLabel}
  }

  lemma {:induction false} CellsOfAt(rows: seq<PlotRow>, c: (int, string))
    ensures c in CellsOf(rows) <==> exists i :: 0 <= i < |rows| && CellOf(rows[i]) == c
    decreases |rows|
  {
    if rows != [] {
      var init := rows[..|rows| - 1];
      CellsOfAt(init, c);
      if c in CellsOf(init) {
        var i :| 0 <= i < |init| && CellOf(init[i]) == c;
        assert rows[i] == init[i];
      }
      if exists i :: 0 <= i < |rows| && CellOf(rows[i]) == c {
        var i :| 0 <= i < |rows| && CellOf(rows[i]) == c;
        if i < |init| {
          assert init[i] == rows[i];
        }
      }
    }
  }

  /** The pivot fails exactly when two rows fill the same cell. When it
      succeeds, the filled cells are exactly the cells the rows name (absent
      pairs stay empty, nothing is zero-filled), each holding its row's
      amount, and the index and columns are the rows' dates and labels. */
  lemma {:induction false} PivotSpec(rows: seq<PlotRow>)
    ensures Pivot(rows).Ok? <==> DistinctCells(rows)
    ensures Pivot(rows).Ok? ==>
      && Pivot(rows).value.cells.Keys == CellsOf(rows)
      && Pivot(rows).value.index == DatesOf(rows)
      && Pivot(rows).value.columns == LabelsOf(rows)
      && forall i :: 0 <= i < |rows| ==>
           CellOf(rows[i]) in Pivot(rows).value.cells && Pivot(rows).value.cells[CellOf(rows[i])] == rows[i].amount
    decreases |rows|
  {
    if rows != [] {
      var init := rows[..|rows| - 1];
      var n := |rows| - 1;
      var last := rows[n];
      assert forall i :: 0 <= i < n ==> init[i] == rows[i];
      PivotSpec(init);
      if Pivot(init).Err? {
        assert !DistinctCells(init);
        var i, j :| 0 <= i < j < n && CellOf(init[i]) == CellOf(init[j]);
        assert CellOf(rows[i]) == CellOf(rows[j]);
      } else {
        var w := Pivot(init).value;
        CellsOfAt(init, CellOf(last));
        if CellOf(last) in w.cells {
          var i :| 0 <= i < n && CellOf(init[i]) == CellOf(last);
          assert CellOf(rows[i]) == CellOf(rows[n]);
        } else {
          forall i, j | 0 <= i < j < |rows| ensures CellOf(rows[i]) != CellOf(rows[j]) {
            if j < n {
              assert CellOf(init[i]) != CellOf(init[j]);
            } else {
              assert CellOf(init[i]) != CellOf(last);
            }
          }
          var w' := Pivot(rows).value;
          assert w' == Wide(w.index + {last.date}, w.columns + {last.activityLabel}, w.cells[CellOf(last) := last.amount]);
          forall i | 0 <= i < |rows|
            ensures CellOf(rows[i]) in w'.cells && w'.cells[CellOf(rows[i])] == rows[i].amount
          {
            if i < n {
              assert rows[i] == init[i];
              assert CellOf(init[i]) != CellOf(last);
            }
          }
        }
      }
    }
  }

  /** The decimal digit character of `n`. */
  function Digit(n: nat): (c: char)
    requires n < 10
    ensures '0' <= c <= '9' && c as int - '0' as int == n
  {
    ('0' as int + n) as char
  }

  /** The number a string of decimal digits spells, most significant digit first. */
  function DigitsValue(s: string): int
    decreases |s|
  {
    if s == [] then 0 else DigitsValue(s[..|s| - 1]) * 10 + (s[|s| - 1] as int - '0' as int)
  }

  predicate AllDigits(s: string)
  {
    forall k :: 0 <= k < |s| ==> '0' <= s[k] <= '9'
  }

  /** Decimal text of a natural number: digits only, spelling `n`, with a
      leading zero only for zero itself. */
  function NatToString(n: nat): (s: string)
    ensures |s| > 0 && AllDigits(s)
    ensures DigitsValue(s) == n
    ensures s[0] == '0' <==> n == 0
    ensures n == 0 ==> s == "0"
    decreases n
  {
    if n < 10 then [Digit(n)]
    else
      var init := NatToString(n / 10);
      assert (init + [Digit(n % 10)])[..|init|] == init;
      init + [Digit(n % 10)]
  }

  /** `str(i)` for an integer: a minus sign exactly for negative numbers,
      followed by the decimal text of the magnitude, with no leading zero. */
  function IntToString(i: int): (s: string)
    ensures |s| > 0 && (s[0] == '-' <==> i < 0)
    ensures i < 0 ==> |s| > 1 && AllDigits(s[1..]) && DigitsValue(s[1..]) == -i
    ensures i >= 0 ==> AllDigits(s) && DigitsValue(s) == i
    ensures i >= 0 ==> (s[0] == '0' <==> i == 0)
    ensures i < 0 ==> s[1] != '0'
    ensures i == 0 ==> s == "0"
  {
    if i < 0 then
      var digits := NatToString(-i);
      assert ("-" + digits)[1..] == digits;
      "-" + digits
    else NatToString(i)
  }

  /** The two-entry axis-label table `metric_ylabels`, for a time horizon:
      exactly the two metrics have an entry. */
  function MetricLabels(timeHorizon: int): (labels: map<string, string>)
    ensures labels.Keys == {RadiativeForcing, Gwp}
  {
    map[RadiativeForcing := "radiative forcing [W/m²]",
        Gwp := "GWP" + IntToString(timeHorizon) + " [kg CO₂-eq]"]
  }

  /** `metric_ylabels[tlca.current_metric]`: a known metric gets its label, any other raises. */
  function YLabel(metric: string, timeHorizon: int): (r: Result<string, PlotError>)
    ensures r.Ok? <==> metric == RadiativeForcing || metric == Gwp
    ensures r.Err? ==> r.error == UnknownMetric(metric)
    ensures metric == RadiativeForcing ==> r == Ok("radiative forcing [W/m²]")
    ensures metric == Gwp ==> r == Ok("GWP" + IntToString(timeHorizon) + " [kg CO₂-eq]")
  {
    var labels := MetricLabels(timeHorizon);
    if metric in labels then Ok(labels[metric]) else Err(UnknownMetric(metric))
  }

  /** The GWP label at the horizon of 100 years the page uses. */
  lemma GwpLabelAtHundred()
    ensures YLabel(Gwp, 100) == Ok("GWP100 [kg CO₂-eq]")
  {
    assert NatToString(10) == "10";
    assert NatToString(100) == "100";
    assert IntToString(100) == "100";
    assert "GWP" + "100" + " [kg CO₂-eq]" == "GWP100 [kg CO₂-eq]";
    assert MetricLabels(100)[Gwp] == "GWP100 [kg CO₂-eq]";
  }

  /** The plot data as the plotting step lays it out: one row per group of
      the grouped inventory, in the same order, carrying the group's amount,
      the running total up to it and its activity's label. */
  ghost predicate LaidOut(inventory: seq<InventoryRow>, labelOf: int -> string, table: seq<PlotRow>)
  {
    var g := GroupBy(inventory);
    var sums := CumSum(Amounts(g));
    && |table| == |g|
    && forall i :: 0 <= i < |g| ==>
         table[i] == PlotRow(g[i].key.date, g[i].key.activity, g[i].amount, sums[i], labelOf(g[i].key.activity))
  }

  /** Every activity of the grouped table is an activity of the inventory, and back. */
  lemma GroupedActivities(inventory: seq<InventoryRow>)
    ensures var acts := Activities(GroupBy(inventory));
      && (forall j :: 0 <= j < |inventory| ==> inventory[j].activity in acts)
      && (forall a :: a in acts ==> exists j :: 0 <= j < |inventory| && inventory[j].activity == a)
  {
    var g := GroupBy(inventory);
    var acts := Activities(g);
    forall j | 0 <= j < |inventory| ensures inventory[j].activity in acts {
      GroupOfRow(inventory, j);
      var i :| 0 <= i < |g| && g[i].key == KeyOf(inventory[j]);
      assert acts[i] == inventory[j].activity;
    }
    forall a | a in acts ensures exists j :: 0 <= j < |inventory| && inventory[j].activity == a {
      var i :| 0 <= i < |acts| && acts[i] == a;
      RowOfGroup(inventory, i);
      var j :| 0 <= j < |inventory| && KeyOf(inventory[j]) == g[i].key;
      assert inventory[j].activity == a;
    }
  }

  /** The whole plotting step for the current metric: the plot data is laid
      out from the grouped inventory, every distinct activity of the
      inventory is resolved exactly once, and the chart is the pivot of the
      plot data under the metric's axis label, unless the pivot (first) or the
      label lookup fails. */
  method PlotCharacterizedInventory(inventory: seq<InventoryRow>, labelOf: int -> string,
                                    metric: string, timeHorizon: int)
    returns (table: seq<PlotRow>, chart: Result<Chart, PlotError>, resolved: seq<int>)
    ensures LaidOut(inventory, labelOf, table)
    ensures forall i, j :: 0 <= i < j < |resolved| ==> resolved[i] != resolved[j]
    ensures forall a :: a in resolved <==> a in Activities(GroupBy(inventory))
    ensures chart.Ok? <==> DistinctCells(table) && (metric == RadiativeForcing || metric == Gwp)
    ensures chart.Err? && !DistinctCells(table) ==> chart.error == DuplicateEntries
    ensures chart.Err? && DistinctCells(table) ==> chart.error == UnknownMetric(metric)
    ensures chart.Ok? ==>
      (Pivot(table).Ok? && YLabel(metric, timeHorizon).Ok?
       && chart.value == Chart(Pivot(table).value, YLabel(metric, timeHorizon).value))
  {
    var groups := GroupBy(inventory);
    var sums := CumSum(Amounts(groups));
    var activities := Activities(groups);
    var cache;
    cache, resolved := BuildLabelCache(activities, labelOf);
    assert forall i :: 0 <= i < |groups| ==> activities[i] in activities;
    table := LabelRows(groups, sums, cache);
    var wide := Pivot(table);
    PivotSpec(table);
    if wide.Err? {
      chart := Err(wide.error);
      return;
    }
    var yLabel := YLabel(metric, timeHorizon);
    if yLabel.Err? {
      chart := Err(yLabel.error);
      return;
    }
    chart := Ok(Chart(wide.value, yLabel.value));
  }

  /** Each plot row carries the sum of the inventory amounts of its (date, activity) pair. */
  lemma LaidOutAmounts(inventory: seq<InventoryRow>, labelOf: int -> string, table: seq<PlotRow>)
    requires LaidOut(inventory, labelOf, table)
    ensures forall i :: 0 <= i < |table| ==>
      table[i].amount == SumFor(inventory, Key(table[i].date, table[i].activity))
  {
    var g := GroupBy(inventory);
    GroupedAmountIsKeySum(inventory);
    forall i | 0 <= i < |table| ensures table[i].amount == SumFor(inventory, Key(table[i].date, table[i].activity)) {
      assert table[i] == PlotRow(g[i].key.date, g[i].key.activity, g[i].amount, CumSum(Amounts(g))[i], labelOf(g[i].key.activity));
      assert Key(table[i].date, table[i].activity) == g[i].key;
    }
  }

  /** The running total of a plot row is the sum of the amounts of all plot
      rows up to and including it, whatever their activity. */
  lemma LaidOutRunningSums(inventory: seq<InventoryRow>, labelOf: int -> string, table: seq<PlotRow>)
    requires LaidOut(inventory, labelOf, table)
    ensures forall i :: 0 <= i < |table| ==> table[i].amountSum == Sum(Amounts(GroupBy(inventory))[..i + 1])
  {
    CumSumIsPrefixSum(Amounts(GroupBy(inventory)));
  }

  /** The last running total is the grand total of the inventory. */
  lemma LaidOutRunningTotal(inventory: seq<InventoryRow>, labelOf: int -> string, table: seq<PlotRow>)
    requires LaidOut(inventory, labelOf, table)
    ensures table != [] ==> table[|table| - 1].amountSum == Total(inventory)
  {
    GroupByTotal(inventory);
    CumSumIsPrefixSum(Amounts(GroupBy(inventory)));
  }

  /** The plot rows are in non-decreasing date order, and no (date, activity)
      pair occurs twice. */
  lemma LaidOutOrdered(inventory: seq<InventoryRow>, labelOf: int -> string, table: seq<PlotRow>)
    requires LaidOut(inventory, labelOf, table)
    ensures forall i, j :: 0 <= i < j < |table| ==>
      (table[i].date <= table[j].date && (table[i].date, table[i].activity) != (table[j].date, table[j].activity))
  {
    var g := GroupBy(inventory);
    GroupedKeysUnique(inventory);
    forall i, j | 0 <= i < j < |table|
      ensures table[i].date <= table[j].date && (table[i].date, table[i].activity) != (table[j].date, table[j].activity)
    {
      assert g[i].key != g[j].key;
    }
  }

  /** Every (date, activity) pair of the inventory has a plot row. */
  lemma LaidOutCoversInventory(inventory: seq<InventoryRow>, labelOf: int -> string, table: seq<PlotRow>)
    requires LaidOut(inventory, labelOf, table)
    ensures forall j :: 0 <= j < |inventory| ==> exists i ::
      (0 <= i < |table| && table[i].date == inventory[j].date && table[i].activity == inventory[j].activity)
  {
    var g := GroupBy(inventory);
    forall j | 0 <= j < |inventory| ensures exists i ::
      (0 <= i < |table| && table[i].date == inventory[j].date && table[i].activity == inventory[j].activity)
    {
      GroupOfRow(inventory, j);
      var i :| 0 <= i < |g| && g[i].key == KeyOf(inventory[j]);
      assert table[i].date == inventory[j].date && table[i].activity == inventory[j].activity;
    }
  }

  /** Every plot row has the (date, activity) pair of some inventory row. */
  lemma LaidOutRowsFromInventory(inventory: seq<InventoryRow>, labelOf: int -> string, table: seq<PlotRow>)
    requires LaidOut(inventory, labelOf, table)
    ensures forall i :: 0 <= i < |table| ==> exists j ::
      (0 <= j < |inventory| && table[i].date == inventory[j].date && table[i].activity == inventory[j].activity)
  {
    var g := GroupBy(inventory);
    forall i | 0 <= i < |table| ensures exists j ::
      (0 <= j < |inventory| && table[i].date == inventory[j].date && table[i].activity == inventory[j].activity)
    {
      RowOfGroup(inventory, i);
      var j :| 0 <= j < |inventory| && KeyOf(inventory[j]) == g[i].key;
      assert table[i].date == inventory[j].date && table[i].activity == inventory[j].activity;
    }
  }

  /** For laid-out plot data, the pivot fails exactly when two different
      activities share a label at the same date. */
  lemma PivotFailsOnSharedLabel(inventory: seq<InventoryRow>, labelOf: int -> string, table: seq<PlotRow>)
    requires LaidOut(inventory, labelOf, table)
    ensures Pivot(table).Err? <==> exists i, j ::
      (0 <= i < j < |table| && table[i].date == table[j].date && table[i].activity != table[j].activity
       && labelOf(table[i].activity) == labelOf(table[j].activity))
  {
    PivotSpec(table);
    LaidOutOrdered(inventory, labelOf, table);
    assert forall i :: 0 <= i < |table| ==> table[i].activityLabel == labelOf(table[i].activity);
  }
}
