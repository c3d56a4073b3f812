/** `groupby(["date", "activity"]).sum()` over the characterized inventory:
    rows with the same date and activity collapse into one group whose
    amount is their sum, and the groups come out sorted by key. */
module Grouping {

  /** One row of the characterized inventory: an emission contribution of an
      activity at a date (dates and activity ids as integers, amounts as reals). */
  datatype InventoryRow = InventoryRow(date: int, activity: int, amount: real)

  datatype Key = Key(date: int, activity: int)

  /** One row of the grouped table. */
  datatype Group = Group(key: Key, amount: real)

  function KeyOf(row: InventoryRow): Key
  {
    Key(row.date, row.activity)
  }

  /** The order pandas sorts group keys in: by date, then by activity. */
  predicate KeyLess(a: Key, b: Key)
  {
    a.date < b.date || (a.date == b.date && a.activity < b.activity)
  }

  /** Strictly increasing keys; in particular no key occurs twice. */
  predicate Sorted(groups: seq<Group>)
  {
    forall i, j :: 0 <= i < j < |groups| ==> KeyLess(groups[i].key, groups[j].key)
  }

  /** The sum of the amounts of the inventory rows with key `k`. */
  function SumFor(rows: seq<InventoryRow>, k: Key): real
    decreases |rows|
  {
    if rows == [] then 0.0
    else
      var last := rows[|rows| - 1];
      SumFor(rows[..|rows| - 1], k) + (if KeyOf(last) == k then last.amount else 0.0)
  }

  /** The sum of all amounts of the inventory. */
  function Total(rows: seq<InventoryRow>): real
    decreases |rows|
  {
    if rows == [] then 0.0 else Total(rows[..|rows| - 1]) + rows[|rows| - 1].amount
  }

  /** The keys that occur in the inventory. */
  function RowKeys(rows: seq<InventoryRow>): set<Key>
    decreases |rows|
  {
    if rows == [] then {} else RowKeys(rows[..|rows| - 1]) + {KeyOf(rows[|rows| - 1])}
  }

  /** The keys of a grouped table. */
  function GroupKeys(groups: seq<Group>): set<Key>
  {
    if groups == [] then {} else {groups[0].key} + GroupKeys(groups[1..])
  }

  /** The sum of the amounts of the groups with key `k`. */
  function AmountOf(groups: seq<Group>, k: Key): real
  {
    if groups == [] then 0.0
    else (if groups[0].key == k then groups[0].amount else 0.0) + AmountOf(groups[1..], k)
  }

  /** The amount column of a grouped table. */
  function Amounts(groups: seq<Group>): (amounts: seq<real>)
    ensures |amounts| == |groups|
    ensures forall i :: 0 <= i < |groups| ==> amounts[i] == groups[i].amount
  {
    if groups == [] then [] else [groups[0].amount] + Amounts(groups[1..])
  }

  /** The sum of a column of amounts. */
  function Sum(xs: seq<real>): real
  {
    if xs == [] then 0.0 else xs[0] + Sum(xs[1..])
  }

  /** Adds one contribution to a sorted grouped table: merges it into the
      group of its key, or opens a new group at its place in key order. */
  function Insert(groups: seq<Group>, k: Key, amount: real): (r: seq<Group>)
    ensures r != []
    ensures r[0].key == k || (groups != [] && r[0].key == groups[0].key)
    ensures |groups| <= |r| <= |groups| + 1
  {
    if groups == [] then [Group(k, amount)]
    else if groups[0].key == k then [Group(k, groups[0].amount + amount)] + groups[1..]
    else if KeyLess(k, groups[0].key) then [Group(k, amount)] + groups
    else [groups[0]] + Insert(groups[1..], k, amount)
  }

  /** The grouped table of an inventory: at most one group per row, and
      at least one group as soon as there is a row. */
  function GroupBy(rows: seq<InventoryRow>): (groups: seq<Group>)
    ensures |groups| <= |rows|
    ensures rows != [] ==> groups != []
    decreases |rows|
  {
    if rows == [] then []
    else
      var last := rows[|rows| - 1];
      Insert(GroupBy(rows[..|rows| - 1]), KeyOf(last), last.amount)
  }

  lemma {:induction false} InsertKeepsSorted(groups: seq<Group>, k: Key, amount: real)
    requires Sorted(groups)
    ensures Sorted(Insert(groups, k, amount))
  {
    if groups != [] && groups[0].key != k && !KeyLess(k, groups[0].key) {
      var rest := Insert(groups[1..], k, amount);
      InsertKeepsSorted(groups[1..], k, amount);
      var r := [groups[0]] + rest;
      assert KeyLess(groups[0].key, rest[0].key);
      forall i, j | 0 <= i < j < |r| ensures KeyLess(r[i].key, r[j].key) {
        if i > 0 {
          assert r[i] == rest[i - 1] && r[j] == rest[j - 1];
        } else if j > 1 {
          assert KeyLess(rest[0].key, rest[j - 1].key);
        }
      }
    }
  }

  lemma {:induction false} InsertKeys(groups: seq<Group>, k: Key, amount: real)
    ensures GroupKeys(Insert(groups, k, amount)) == GroupKeys(groups) + {k}
  {
    if groups != [] {
      if groups[0].key == k {
        assert ([Group(k, groups[0].amount + amount)] + groups[1..])[1..] == groups[1..];
      } else if KeyLess(k, groups[0].key) {
        assert ([Group(k, amount)] + groups)[1..] == groups;
      } else {
        InsertKeys(groups[1..], k, amount);
        assert ([groups[0]] + Insert(groups[1..], k, amount))[1..] == Insert(groups[1..], k, amount);
      }
    }
  }

  lemma {:induction false} InsertAmounts(groups: seq<Group>, k: Key, amount: real, k': Key)
    ensures AmountOf(Insert(groups, k, amount), k') == AmountOf(groups, k') + (if k' == k then amount else 0.0)
  {
    if groups != [] {
      if groups[0].key == k {
        assert ([Group(k, groups[0].amount + amount)] + groups[1..])[1..] == groups[1..];
      } else if KeyLess(k, groups[0].key) {
        assert ([Group(k, amount)] + groups)[1..] == groups;
      } else {
        InsertAmounts(groups[1..], k, amount, k');
        assert ([groups[0]] + Insert(groups[1..], k, amount))[1..] == Insert(groups[1..], k, amount);
      }
    } else {
      assert [Group(k, amount)][1..] == [];
    }
  }

  lemma {:induction false} InsertTotal(groups: seq<Group>, k: Key, amount: real)
    ensures Sum(Amounts(Insert(groups, k, amount))) == Sum(Amounts(groups)) + amount
  {
    if groups != [] {
      if groups[0].key == k {
        assert ([Group(k, groups[0].amount + amount)] + groups[1..])[1..] == groups[1..];
      } else if KeyLess(k, groups[0].key) {
        assert ([Group(k, amount)] + groups)[1..] == groups;
      } else {
        InsertTotal(groups[1..], k, amount);
        assert ([groups[0]] + Insert(groups[1..], k, amount))[1..] == Insert(groups[1..], k, amount);
      }
    } else {
      assert [Group(k, amount)][1..] == [];
    }
  }

  /** The grouped table has strictly increasing keys. */
  lemma {:induction false} GroupBySorted(rows: seq<InventoryRow>)
    ensures Sorted(GroupBy(rows))
    decreases |rows|
  {
    if rows != [] {
      var init := rows[..|rows| - 1];
      GroupBySorted(init);
      InsertKeepsSorted(GroupBy(init), KeyOf(rows[|rows| - 1]), rows[|rows| - 1].amount);
    }
  }

  /** The grouped table has exactly the keys of the inventory. */
  lemma {:induction false} GroupByKeys(rows: seq<InventoryRow>)
    ensures GroupKeys(GroupBy(rows)) == RowKeys(rows)
    decreases |rows|
  {
    if rows != [] {
      var init := rows[..|rows| - 1];
      GroupByKeys(init);
      InsertKeys(GroupBy(init), KeyOf(rows[|rows| - 1]), rows[|rows| - 1].amount);
    }
  }

  /** Under every key, the grouped table holds the sum of the inventory rows with that key. */
  lemma {:induction false} GroupByAmounts(rows: seq<InventoryRow>, k: Key)
    ensures AmountOf(GroupBy(rows), k) == SumFor(rows, k)
    decreases |rows|
  {
    if rows != [] {
      var init := rows[..|rows| - 1];
      GroupByAmounts(init, k);
      InsertAmounts(GroupBy(init), KeyOf(rows[|rows| - 1]), rows[|rows| - 1].amount, k);
    }
  }

  /** Grouping conserves the total amount. */
  lemma {:induction false} GroupByTotal(rows: seq<InventoryRow>)
    ensures Sum(Amounts(GroupBy(rows))) == Total(rows)
    decreases |rows|
  {
    if rows != [] {
      var init := rows[..|rows| - 1];
      GroupByTotal(init);
      InsertTotal(GroupBy(init), KeyOf(rows[|rows| - 1]), rows[|rows| - 1].amount);
    }
  }

  /** In a table with distinct keys, a group's amount is all `AmountOf` finds for its key. */
  lemma {:induction false} SortedAmountAt(groups: seq<Group>, i: int)
    requires Sorted(groups) && 0 <= i < |groups|
    ensures AmountOf(groups, groups[i].key) == groups[i].amount
  {
    if i == 0 {
      AbsentKeyAmount(groups[1..], groups[0].key);
    } else {
      SortedAmountAt(groups[1..], i - 1);
    }
  }

  lemma {:induction false} AbsentKeyAmount(groups: seq<Group>, k: Key)
    requires forall i :: 0 <= i < |groups| ==> KeyLess(k, groups[i].key)
    ensures AmountOf(groups, k) == 0.0
  {
    if groups != [] {
      AbsentKeyAmount(groups[1..], k);
    }
  }

  lemma {:induction false} GroupKeysAt(groups: seq<Group>, k: Key)
    ensures k in GroupKeys(groups) <==> exists i :: 0 <= i < |groups| && groups[i].key == k
  {
    if groups != [] {
      GroupKeysAt(groups[1..], k);
      if k in GroupKeys(groups[1..]) {
        var i :| 0 <= i < |groups[1..]| && groups[1..][i].key == k;
        assert groups[i + 1].key == k;
      }
      if k != groups[0].key && exists i :: 0 <= i < |groups| && groups[i].key == k {
        var i :| 0 <= i < |groups| && groups[i].key == k;
        assert groups[1..][i - 1].key == k;
      }
    }
  }

  lemma {:induction false} RowKeysAt(rows: seq<InventoryRow>, k: Key)
    ensures k in RowKeys(rows) <==> exists i :: 0 <= i < |rows| && KeyOf(rows[i]) == k
    decreases |rows|
  {
    if rows != [] {
      var init := rows[..|rows| - 1];
      RowKeysAt(init, k);
      if k in RowKeys(init) {
        var i :| 0 <= i < |init| && KeyOf(init[i]) == k;
        assert rows[i] == init[i];
      }
      if exists i :: 0 <= i < |rows| && KeyOf(rows[i]) == k {
        var i :| 0 <= i < |rows| && KeyOf(rows[i]) == k;
        if i < |rows| - 1 {
          assert init[i] == rows[i];
        }
      }
    }
  }

  /** Each (date, activity) pair occurs once in the grouped table, and the
      groups are in non-decreasing date order. */
  lemma GroupedKeysUnique(rows: seq<InventoryRow>)
    ensures forall i, j :: 0 <= i < j < |GroupBy(rows)| ==>
      GroupBy(rows)[i].key != GroupBy(rows)[j].key && GroupBy(rows)[i].key.date <= GroupBy(rows)[j].key.date
  {
    GroupBySorted(rows);
  }

  /** Each grouped amount is the sum of the inventory amounts with its key. */
  lemma GroupedAmountIsKeySum(rows: seq<InventoryRow>)
    ensures forall i :: 0 <= i < |GroupBy(rows)| ==> GroupBy(rows)[i].amount == SumFor(rows, GroupBy(rows)[i].key)
  {
    var g := GroupBy(rows);
    GroupBySorted(rows);
    forall i | 0 <= i < |g| ensures g[i].amount == SumFor(rows, g[i].key) {
      SortedAmountAt(g, i);
      GroupByAmounts(rows, g[i].key);
    }
  }

  /** The group of an inventory row's key. */
  lemma GroupOfRow(rows: seq<InventoryRow>, j: int)
    requires 0 <= j < |rows|
    ensures exists i :: 0 <= i < |GroupBy(rows)| && GroupBy(rows)[i].key == KeyOf(rows[j])
  {
    GroupByKeys(rows);
    RowKeysAt(rows, KeyOf(rows[j]));
    GroupKeysAt(GroupBy(rows), KeyOf(rows[j]));
  }

  /** An inventory row with a group's key. */
  lemma RowOfGroup(rows: seq<InventoryRow>, i: int)
    requires 0 <= i < |GroupBy(rows)|
    ensures exists j :: 0 <= j < |rows| && KeyOf(rows[j]) == GroupBy(rows)[i].key
  {
    GroupByKeys(rows);
    GroupKeysAt(GroupBy(rows), GroupBy(rows)[i].key);
    RowKeysAt(rows, GroupBy(rows)[i].key);
  }

  /** Two contributions of activity `a` at one date collapse to 5, the one of
      `b` stays 1, and the groups come out in key order. */
  lemma GroupingExample(d: int, a: int, b: int)
    requires a < b
    ensures GroupBy([InventoryRow(d, a, 2.0), InventoryRow(d, a, 3.0), InventoryRow(d, b, 1.0)])
      == [Group(Key(d, a), 5.0), Group(Key(d, b), 1.0)]
  {
    var rows := [InventoryRow(d, a, 2.0), InventoryRow(d, a, 3.0), InventoryRow(d, b, 1.0)];
    var first, two := [rows[0]], rows[..2];
    assert first[..0] == [] && two[..1] == first && rows[..2] == two;
    assert GroupBy(first) == Insert([], Key(d, a), 2.0) == [Group(Key(d, a), 2.0)];
    assert GroupBy(two) == Insert(GroupBy(first), Key(d, a), 3.0) == [Group(Key(d, a), 5.0)];
    assert Insert([Group(Key(d, a), 5.0)], Key(d, b), 1.0) == [Group(Key(d, a), 5.0)] + Insert([], Key(d, b), 1.0);
  }
}
