/** The session fields of the calculate page: the candidates of the last
    search and the chosen demand activity, overwritten by the Apply Filter
    and Select buttons, and the Calculate button that is enabled only once an
    activity is chosen. */
module Session {
  import opened Wrappers
  import opened CandidateSearch
  import opened DateMapping

  /** The message shown after a search: zero candidates is a warning, not an error. */
  datatype Feedback = NoCandidates | OneCandidate | SomeCandidates(count: nat)

  datatype Demand = Demand(activity: Candidate, amount: real)

  /** The arguments handed to the temporal calculation. */
  datatype CalculationRequest = CalculationRequest(demand: Demand, impactMethod: seq<string>,
                                                   databaseDates: map<string, string>)

  function FeedbackFor(count: nat): (f: Feedback)
    ensures f == NoCandidates <==> count == 0
    ensures f == OneCandidate <==> count == 1
    ensures f.SomeCandidates? ==> f.count == count && count >= 2
  {
    if count == 0 then NoCandidates else if count == 1 then OneCandidate else SomeCandidates(count)
  }

  class CalculationSession {
    var candidates: seq<Candidate>
    var demandActivity: Option<Candidate>

    /** The state of a fresh session: nothing searched, nothing chosen. */
    constructor ()
      ensures candidates == [] && demandActivity == None
    {
      candidates := [];
      demandActivity := None;
    }

    /** Apply Filter: a successful search replaces the candidates; a failing
        one raises and leaves the session as it was. The chosen activity is kept. */
    method ApplyFilter(store: seq<Record>, databases: Databases, classes: map<string, NodeClass>,
                       q: Query, contains: (string, string) -> bool)
      returns (feedback: Result<Feedback, SearchError>)
      requires DefaultBackend in classes
      modifies this
      ensures var found := FindCandidates(store, databases, classes, q, contains);
        && (found.Ok? ==> candidates == found.value && feedback == Ok(FeedbackFor(|found.value|)))
        && (found.Err? ==> candidates == old(candidates) && feedback == Err(found.error))
      ensures demandActivity == old(demandActivity)
    {
      var found := FindCandidates(store, databases, classes, q, contains);
      if found.Err? {
        feedback := Err(found.error);
        return;
      }
      candidates := found.value;
      feedback := Ok(FeedbackFor(|candidates|));
    }

    /** The value of the candidate select box for the option at `index`:
        `None` when there is no such option. */
    function Choice(index: nat): (c: Option<Candidate>)
      reads this
      ensures c.Some? <==> index < |candidates|
      ensures c.Some? ==> c.value in candidates
    {
      if index < |candidates| then Some(candidates[index]) else None
    }

    /** Select: the chosen candidate becomes the demand activity; without a
        choice the button is disabled and nothing changes. */
    method Select(index: nat)
      modifies this
      ensures candidates == old(candidates)
      ensures index < |candidates| ==> demandActivity == Some(candidates[index])
      ensures index >= |candidates| ==> demandActivity == old(demandActivity)
    {
      var choice := Choice(index);
      if choice.Some? {
        demandActivity := choice;
      }
    }

    /** Calculate: disabled while no demand activity is chosen; otherwise the
        request carries that activity with the entered amount, the chosen
        method, and the database dates built from the editor columns. */
    method Calculate(amount: real, impactMethod: seq<string>, editorDatabases: seq<string>, editorDates: seq<string>)
      returns (request: Option<CalculationRequest>)
      ensures request.Some? <==> demandActivity.Some?
      ensures request.Some? ==>
        (request.value.demand == Demand(demandActivity.value, amount)
         && request.value.impactMethod == impactMethod
         && request.value.databaseDates == DatabaseDateDict(editorDatabases, editorDates))
    {
      if demandActivity.None? {
        return None;
      }
      request := Some(CalculationRequest(Demand(demandActivity.value, amount), impactMethod,
                                         DatabaseDateDict(editorDatabases, editorDates)));
    }
  }

  /** One pass through the page: a store with one database "eco" holding one
      record, a search for "electricity", the selection of the only
      candidate, and a calculation with amount 2.0 and "eco" marked dynamic. */
  method SearchSelectCalculate(sqliteClass: NodeClass, impactMethod: seq<string>)
  {
    var rec := Record("eco", "e1", "electricity production", Some("GLO"));
    var databases: Databases := map["eco" := map[]];
    var classes := map[DefaultBackend := sqliteClass];
    var contains := (hay: string, needle: string) => IsSubstring(hay, needle);
    var session := new CalculationSession();
    var early := session.Calculate(2.0, impactMethod, ["eco"], [Dynamic]);
    assert early == None;
    var q := Query("eco", Some("electricity"), None);
    assert IsSubstring(rec.name, "electricity");
    assert QuerySet([rec], q, contains) == [rec];
    var feedback := session.ApplyFilter([rec], databases, classes, q, contains);
    assert session.candidates == [Candidate(sqliteClass, rec)];
    assert feedback == Ok(OneCandidate);
    session.Select(0);
    var request := session.Calculate(2.0, impactMethod, ["eco"], [Dynamic]);
    assert request.Some?;
    assert request.value.demand.amount == 2.0;
    assert request.value.demand.activity.record == rec;
    assert request.value.databaseDates == map["eco" := Dynamic];
  }
}
