/** The database-to-representative-date dictionary the calculate page builds
    from the rows of its data editor with `dict(zip(...))`. */
module DateMapping {

  /** One edited row: a database and its representative date, kept as text
      (a calendar date, or the word "dynamic" for a temporally distributed database). */
  datatype Row = Row(database: string, date: string)

  const Dynamic: string := "dynamic"

  /** Python's `zip` of the two editor columns: pairs up to the shorter column. */
  function Zip(databases: seq<string>, dates: seq<string>): (rows: seq<Row>)
    ensures |rows| == if |databases| <= |dates| then |databases| else |dates|
    ensures forall i :: 0 <= i < |rows| ==> rows[i] == Row(databases[i], dates[i])
  {
    if databases == [] || dates == [] then []
    else [Row(databases[0], dates[0])] + Zip(databases[1..], dates[1..])
  }

  /** The databases named by the rows. */
  function Named(rows: seq<Row>): set<string>
  {
    set i | 0 <= i < |rows| :: rows[i].database
  }

  /** `dict(rows)`: rows are inserted in order, so a later row overrides an earlier one. */
  function ToDict(rows: seq<Row>): (m: map<string, string>)
    ensures m.Keys == Named(rows)
    decreases |rows|
  {
    if rows == [] then map[]
    else
      var init := rows[..|rows| - 1];
      var last := rows[|rows| - 1];
      assert forall i :: 0 <= i < |init| ==> init[i] == rows[i];
      assert Named(rows) == Named(init) + {last.database};
      ToDict(init)[last.database := last.date]
  }

  /** The database-to-date dictionary of the two editor columns: its keys
      are the databases of the rows that have a date beside them. */
  function DatabaseDateDict(databases: seq<string>, dates: seq<string>): (m: map<string, string>)
    ensures forall d :: d in m <==> exists i :: 0 <= i < |databases| && i < |dates| && databases[i] == d
  {
    var rows := Zip(databases, dates);
    assert forall i :: 0 <= i < |rows| ==> rows[i].database == databases[i];
    ToDict(rows)
  }

  /** Row `i` is the last row naming its database. */
  predicate LastFor(rows: seq<Row>, i: int)
  {
    0 <= i < |rows| && forall j :: i < j < |rows| ==> rows[j].database != rows[i].database
  }

  /** Last write wins: a database maps to the date of its last row, verbatim. */
  lemma {:induction false} LastWriteWins(rows: seq<Row>, i: int)
    requires LastFor(rows, i)
    ensures rows[i].database in ToDict(rows) && ToDict(rows)[rows[i].database] == rows[i].date
    decreases |rows|
  {
    if i < |rows| - 1 {
      var init := rows[..|rows| - 1];
      assert LastFor(init, i) by {
        forall j | i < j < |init| ensures init[j].database != init[i].database {
          assert init[j] == rows[j];
        }
      }
      LastWriteWins(init, i);
    }
  }

  /** Every value of the dictionary is the date of the last row that names
      its key: nothing is parsed, defaulted or checked. */
  lemma DictValuesAreLastDates(rows: seq<Row>, database: string)
    requires database in ToDict(rows)
    ensures exists i :: LastFor(rows, i) && rows[i] == Row(database, ToDict(rows)[database])
  {
    var i :| 0 <= i < |rows| && rows[i].database == database;
    while !LastFor(rows, i)
      invariant 0 <= i < |rows| && rows[i].database == database
      decreases |rows| - i
    {
      var j :| i < j < |rows| && rows[j].database == database;
      i := j;
    }
    LastWriteWins(rows, i);
  }

  /** Last write wins, read on the editor columns: a database whose last
      row with a date is row `i` maps to that row's date, verbatim. */
  lemma DatabaseDateDictLastWins(databases: seq<string>, dates: seq<string>, i: int)
    requires 0 <= i < |databases| && i < |dates|
    requires forall j :: i < j < |databases| && j < |dates| ==> databases[j] != databases[i]
    ensures databases[i] in DatabaseDateDict(databases, dates)
    ensures DatabaseDateDict(databases, dates)[databases[i]] == dates[i]
  {
    var rows := Zip(databases, dates);
    assert LastFor(rows, i) by {
      forall j | i < j < |rows| ensures rows[j].database != rows[i].database {
        assert rows[j] == Row(databases[j], dates[j]);
      }
    }
    LastWriteWins(rows, i);
  }

  /** The same database edited twice: the later entry, "dynamic", wins. */
  lemma LaterRowOverrides(d: string)
    ensures DatabaseDateDict([d, d], ["2020-01-01", Dynamic]) == map[d := Dynamic]
  {
  }
}
