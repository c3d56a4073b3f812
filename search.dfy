/** The candidate search of the calculate page (`find_candidates` and
    `node_class`): a query over an ordered store of process records, refined
    step by step the way the page refines its query set, and then wrapped in
    the node class of each record's database back end. */
module CandidateSearch {
  import opened Wrappers

  /** One row of the activity table of the store. */
  datatype Record = Record(database: string, code: string, name: string, location: Option<string>)

  /** The class a record is wrapped in, named as the back-end mapping names it. */
  datatype NodeClass = NodeClass(name: string)

  /** A record wrapped in the node class of its database. */
  datatype Candidate = Candidate(nodeClass: NodeClass, record: Record)

  /** The arguments of `find_candidates`: a database and two optional fragments. */
  datatype Query = Query(database: string, name: Option<string>, location: Option<string>)

  datatype SearchError = UnknownDatabase(database: string)

  /** Metadata of every database, as `bd.databases` holds it (only string entries are modelled). */
  type Databases = map<string, map<string, string>>

  const DefaultBackend: string := "sqlite"

  /** Python truthiness of an optional string argument: `None` and `""` are both false. */
  predicate Active(fragment: Option<string>)
  {
    fragment.Some? && fragment.value != ""
  }

  /** Keeps, in order, the elements of `s` that satisfy `p`: one `qs.where(...)`. */
  function Where<T>(s: seq<T>, p: T -> bool): (r: seq<T>)
    ensures |r| <= |s|
    ensures forall x :: x in r ==> x in s && p(x)
    ensures forall x :: x in s && p(x) ==> x in r
    decreases |s|
  {
    if s == [] then []
    else
      var init := Where(s[..|s| - 1], p);
      if p(s[|s| - 1]) then init + [s[|s| - 1]] else init
  }

  /** The positions in `s`, in increasing order, of the elements that satisfy `p`. */
  function Positions<T>(s: seq<T>, p: T -> bool): (idx: seq<nat>)
    ensures forall i :: 0 <= i < |idx| ==> idx[i] < |s| && p(s[idx[i]])
    ensures forall i, j :: 0 <= i < j < |idx| ==> idx[i] < idx[j]
    ensures forall k :: 0 <= k < |s| && p(s[k]) ==> k in idx
    decreases |s|
  {
    if s == [] then []
    else
      var init := Positions(s[..|s| - 1], p);
      assert forall k :: 0 <= k < |s| - 1 ==> s[..|s| - 1][k] == s[k];
      if p(s[|s| - 1]) then init + [|s| - 1] else init
  }

  /** `Where` takes the elements at `Positions`: together with the contract of
      `Positions`, the selection is the subsequence of `s` made of exactly the
      elements that satisfy `p`, in their order in `s`. */
  lemma {:induction false} WhereIsOrderedSelection<T>(s: seq<T>, p: T -> bool)
    ensures var r, idx := Where(s, p), Positions(s, p);
      |idx| == |r| && forall i :: 0 <= i < |idx| ==> r[i] == s[idx[i]]
    decreases |s|
  {
    if s != [] {
      var init := s[..|s| - 1];
      WhereIsOrderedSelection(init, p);
      var r0, idx0 := Where(init, p), Positions(init, p);
      assert Where(s, p) == if p(s[|s| - 1]) then r0 + [s[|s| - 1]] else r0;
      assert Positions(s, p) == if p(s[|s| - 1]) then idx0 + [|s| - 1] else idx0;
      forall i | 0 <= i < |idx0|
        ensures Where(s, p)[i] == s[Positions(s, p)[i]]
      {
        assert r0[i] == init[idx0[i]] == s[idx0[i]];
      }
      if p(s[|s| - 1]) {
        assert Where(s, p)[|idx0|] == s[|s| - 1];
        assert Positions(s, p)[|idx0|] == |s| - 1;
      }
    }
  }

  /** Filters that agree on every element select the same elements. */
  lemma {:induction false} WhereExtensional<T>(s: seq<T>, p: T -> bool, q: T -> bool)
    requires forall x :: p(x) == q(x)
    ensures Where(s, p) == Where(s, q)
    decreases |s|
  {
    if s != [] {
      WhereExtensional(s[..|s| - 1], p, q);
    }
  }

  /** Refining a selection by a second filter is selecting by both at once. */
  lemma {:induction false} WhereComposes<T>(s: seq<T>, p: T -> bool, q: T -> bool, both: T -> bool)
    requires forall x :: both(x) == (p(x) && q(x))
    ensures Where(Where(s, p), q) == Where(s, both)
    decreases |s|
  {
    if s != [] {
      var init := s[..|s| - 1];
      var last := s[|s| - 1];
      WhereComposes(init, p, q, both);
      if p(last) {
        var w := Where(init, p);
        assert (w + [last])[..|w + [last]| - 1] == w;
      }
    }
  }

  /** The test a record must pass, the three refinements taken together. */
  predicate Matches(q: Query, contains: (string, string) -> bool, r: Record)
  {
    && r.database == q.database
    && (Active(q.name) ==> contains(r.name, q.name.value))
    && (Active(q.location) ==> r.location.Some? && contains(r.location.value, q.location.value))
  }

  /** The query set of `find_candidates`: select by database, then refine by
      the name fragment and by the location fragment when they are given. */
  function QuerySet(store: seq<Record>, q: Query, contains: (string, string) -> bool): (rs: seq<Record>)
    ensures |rs| <= |store|
    ensures forall r :: r in rs ==> r in store && Matches(q, contains, r)
    ensures forall r :: r in store && Matches(q, contains, r) ==> r in rs
  {
    var db := q.database;
    var qs := Where(store, (r: Record) => r.database == db);
    var qs := if Active(q.name)
      then var fragment := q.name.value; Where(qs, (r: Record) => contains(r.name, fragment))
      else qs;
    if Active(q.location)
      then var fragment := q.location.value;
        Where(qs, (r: Record) => r.location.Some? && contains(r.location.value, fragment))
      else qs
  }

  /** The refinements combine with AND, and an absent or empty fragment
      constrains nothing: the query set is one selection by `Matches`. */
  lemma QuerySetIsConjunction(store: seq<Record>, q: Query, contains: (string, string) -> bool)
    ensures QuerySet(store, q, contains) == Where(store, (r: Record) => Matches(q, contains, r))
  {
    var db := q.database;
    var byDb := (r: Record) => r.database == db;
    var all := (r: Record) => Matches(q, contains, r);
    var byName: Record -> bool := (r: Record) => Active(q.name) ==> contains(r.name, q.name.value);
    var byLoc: Record -> bool := (r: Record) =>
      Active(q.location) ==> r.location.Some? && contains(r.location.value, q.location.value);
    if Active(q.name) && Active(q.location) {
      var n, l := q.name.value, q.location.value;
      var nameP := (r: Record) => contains(r.name, n);
      var locP := (r: Record) => r.location.Some? && contains(r.location.value, l);
      var dbName := (r: Record) => r.database == db && contains(r.name, n);
      WhereComposes(store, byDb, nameP, dbName);
      WhereComposes(store, dbName, locP, all);
    } else if Active(q.name) {
      var n := q.name.value;
      var nameP := (r: Record) => contains(r.name, n);
      WhereComposes(store, byDb, nameP, all);
    } else if Active(q.location) {
      var l := q.location.value;
      var locP := (r: Record) => r.location.Some? && contains(r.location.value, l);
      WhereComposes(store, byDb, locP, all);
    } else {
      WhereExtensional(store, byDb, all);
    }
  }

  /** The query set is the subsequence of the store formed by exactly the
      records that pass all three tests: store order is kept, nothing is re-sorted. */
  lemma QuerySetIsOrderedSelection(store: seq<Record>, q: Query, contains: (string, string) -> bool)
    ensures var r, idx := QuerySet(store, q, contains), Positions(store, (x: Record) => Matches(q, contains, x));
      && |idx| == |r|
      && (forall i :: 0 <= i < |idx| ==> idx[i] < |store| && r[i] == store[idx[i]])
      && (forall i :: 0 <= i < |r| ==> Matches(q, contains, r[i]))
      && (forall i, j :: 0 <= i < j < |idx| ==> idx[i] < idx[j])
      && (forall k :: 0 <= k < |store| && Matches(q, contains, store[k]) ==> k in idx)
  {
    QuerySetIsConjunction(store, q, contains);
    WhereIsOrderedSelection(store, (x: Record) => Matches(q, contains, x));
  }

  /** With no name and no location fragment, the search selects every record
      of the database, in store order. */
  lemma QuerySetWithoutFragments(store: seq<Record>, q: Query, contains: (string, string) -> bool)
    requires !Active(q.name) && !Active(q.location)
    ensures QuerySet(store, q, contains) == Where(store, (r: Record) => r.database == q.database)
  {
  }

  /** Mirrors `node_class`: the back end defaults to sqlite when the database
      names none, and an unmapped back end falls back to the sqlite class;
      indexing `bd.databases` with an unknown database raises. */
  function NodeClassOf(databases: Databases, classes: map<string, NodeClass>, database: string): (r: Option<NodeClass>)
    requires DefaultBackend in classes
    ensures r.Some? <==> database in databases
    ensures database in databases && "backend" !in databases[database] ==> r == Some(classes[DefaultBackend])
    ensures database in databases && "backend" in databases[database] ==>
      var backend := databases[database]["backend"];
      r == Some(if backend in classes then classes[backend] else classes[DefaultBackend])
  {
    if database !in databases then None
    else
      var backend := GetOr(databases[database], "backend", DefaultBackend);
      Some(GetOr(classes, backend, classes[DefaultBackend]))
  }

  /** The list comprehension of `find_candidates`: each record, in order, wrapped
      in the node class of its own database; the first failure propagates. */
  function Wrap(databases: Databases, classes: map<string, NodeClass>, records: seq<Record>): (r: Result<seq<Candidate>, SearchError>)
    requires DefaultBackend in classes
    ensures r.Err? <==> exists i :: 0 <= i < |records| && records[i].database !in databases
    ensures r.Ok? ==> |r.value| == |records| && forall i :: 0 <= i < |records| ==>
      r.value[i] == Candidate(NodeClassOf(databases, classes, records[i].database).value, records[i])
    decreases |records|
  {
    if records == [] then Ok([])
    else
      match NodeClassOf(databases, classes, records[0].database)
      case None => Err(UnknownDatabase(records[0].database))
      case Some(c) =>
        match Wrap(databases, classes, records[1..])
        case Err(e) => Err(e)
        case Ok(rest) => Ok([Candidate(c, records[0])] + rest)
  }

  /** `find_candidates`: the query set, wrapped. */
  function FindCandidates(store: seq<Record>, databases: Databases, classes: map<string, NodeClass>,
                          q: Query, contains: (string, string) -> bool): (r: Result<seq<Candidate>, SearchError>)
    requires DefaultBackend in classes
    ensures var matches := QuerySet(store, q, contains);
      && (r.Err? <==> matches != [] && q.database !in databases)
      && (r.Ok? ==> |r.value| == |matches| && forall i :: 0 <= i < |matches| ==>
            r.value[i] == Candidate(NodeClassOf(databases, classes, q.database).value, matches[i]))
  {
    var matches := QuerySet(store, q, contains);
    QuerySetIsOrderedSelection(store, q, contains);
    assert matches != [] ==> matches[0] in matches;
    Wrap(databases, classes, matches)
  }

  /** Case-sensitive substring test, one instance of the store's `contains`. */
  predicate IsSubstring(hay: string, needle: string)
    decreases |hay|
  {
    (|needle| <= |hay| && hay[..|needle|] == needle) || (hay != [] && IsSubstring(hay[1..], needle))
  }
}
