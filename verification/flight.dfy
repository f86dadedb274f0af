/**
  Probe deduplication. The first caller for a key runs the probe and the others wait for its
  flight; when the probe returns or panics, the runner stores the outcome, closes the flight,
  removes it from the table and returns. Each of these is one step, and callers interleave freely.
 */
module Flight {
  import opened Wire

  type Key = string
  type Caller = nat
  type FlightId = nat

  /** What a probe ends with; a panic is turned into an error for all. */
  datatype Outcome = Profile(id: nat) | Error(code: nat) | ProbePanic

  datatype Point =
    | Running(key: Key, flight: FlightId)
    | Stored(key: Key, flight: FlightId)
    | Closed(key: Key, flight: FlightId)
    | Waiting(key: Key, flight: FlightId)
    | Returned(flight: FlightId, outcome: Outcome)

  /** A flight, with the caller that opened it. */
  datatype FlightState = FlightState(owner: Caller, outcome: Option<Outcome>, done: bool)

  datatype Shared = Shared(callers: map<Caller, Point>, flights: seq<FlightState>, table: map<Key, FlightId>)

  const START := Shared(map[], [], map[])

  datatype Event =
    | Call(caller: Caller, key: Key)
    | Finish(caller: Caller, outcome: Outcome)
    | Close(caller: Caller)
    | Delete(caller: Caller)
    | Wake(caller: Caller)

  function FlightOf(s: Shared, c: Caller): Option<FlightState> {
    if c in s.callers && s.callers[c].flight < |s.flights| then Some(s.flights[s.callers[c].flight]) else None
  }

  predicate Enabled(s: Shared, e: Event) {
    match e
    case Call(c, _) => c !in s.callers
    case Finish(c, _) => FlightOf(s, c).Some? && s.callers[c].Running?
    case Close(c) => FlightOf(s, c).Some? && s.callers[c].Stored?
    case Delete(c) => FlightOf(s, c).Some? && s.callers[c].Closed? && FlightOf(s, c).value.outcome.Some?
    case Wake(c) =>
      && FlightOf(s, c).Some? && s.callers[c].Waiting?
      && FlightOf(s, c).value.done && FlightOf(s, c).value.outcome.Some?
  }

  function To(s: Shared, c: Caller, p: Point): Shared { s.(callers := s.callers[c := p]) }

  /** A step that is not enabled waits. */
  function Step(s: Shared, e: Event): Shared {
    if !Enabled(s, e) then s else
    match e
    case Call(c, k) =>
      if k in s.table then To(s, c, Waiting(k, s.table[k]))
      else To(s.(flights := s.flights + [FlightState(c, None, false)], table := s.table[k := |s.flights|]), c,
        Running(k, |s.flights|))
    case Finish(c, o) =>
      var f := s.callers[c].flight;
      To(s.(flights := s.flights[f := s.flights[f].(outcome := Some(o))]), c, Stored(s.callers[c].key, f))
    case Close(c) =>
      var f := s.callers[c].flight;
      To(s.(flights := s.flights[f := s.flights[f].(done := true)]), c, Closed(s.callers[c].key, f))
    case Delete(c) =>
      var f := s.callers[c].flight;
      To(s.(table := s.table - {s.callers[c].key}), c, Returned(f, s.flights[f].outcome.value))
    case Wake(c) =>
      var f := s.callers[c].flight;
      To(s, c, Returned(f, s.flights[f].outcome.value))
  }

  function Run(events: seq<Event>): Shared {
    if events == [] then START else Step(Run(events[..|events| - 1]), events[|events| - 1])
  }

  // ---------------------------------------------------------------- the invariant

  /** A caller between winning the key and giving it back. */
  predicate Holds(p: Point, key: Key, f: FlightId) {
    (p.Running? || p.Stored? || p.Closed?) && p.key == key && p.flight == f
  }

  /** What a caller's point in the code says about its flight. */
  predicate PointOk(s: Shared, c: Caller, p: Point) {
    && p.flight < |s.flights|
    && var f := s.flights[p.flight];
       match p
       case Running(k, i) => k in s.table && s.table[k] == i && f == FlightState(c, None, false)
       case Stored(k, i) => k in s.table && s.table[k] == i && f.owner == c && f.outcome.Some? && !f.done
       case Closed(k, i) => k in s.table && s.table[k] == i && f.owner == c && f.outcome.Some? && f.done
       case Waiting(k, i) => (k in s.table && s.table[k] == i) || (f.outcome.Some? && f.done)
       case Returned(i, o) => f.done && f.outcome == Some(o)
  }

  /** The flight in the table belongs to a caller that still has to remove it. */
  predicate EntryOk(s: Shared, k: Key, i: FlightId) {
    i < |s.flights| && var c := s.flights[i].owner; c in s.callers && Holds(s.callers[c], k, i)
  }

  ghost predicate Inv(s: Shared) {
    && (forall c :: c in s.callers ==> PointOk(s, c, s.callers[c]))
    && (forall k :: k in s.table ==> EntryOk(s, k, s.table[k]))
  }

  lemma StepKeeps(s: Shared, e: Event)
    requires Inv(s)
    ensures Inv(Step(s, e))
  {
    match e
    case Call(c, k) => CallKeeps(s, c, k);
    case Finish(c, o) => FinishKeeps(s, c, o);
    case Close(c) => CloseKeeps(s, c);
    case Delete(c) => DeleteKeeps(s, c);
    case Wake(c) =>
  }

  lemma CallKeeps(s: Shared, c: Caller, k: Key)
    requires Inv(s)
    ensures Inv(Step(s, Call(c, k)))
  {
  }

  lemma FinishKeeps(s: Shared, c: Caller, o: Outcome)
    requires Inv(s)
    ensures Inv(Step(s, Finish(c, o)))
  {
  }

  lemma CloseKeeps(s: Shared, c: Caller)
    requires Inv(s)
    ensures Inv(Step(s, Close(c)))
  {
  }

  lemma DeleteKeeps(s: Shared, c: Caller)
    requires Inv(s)
    ensures Inv(Step(s, Delete(c)))
  {
  }

  lemma {:induction false} RunKeeps(events: seq<Event>)
    ensures Inv(Run(events))
  {
    if events != [] {
      RunKeeps(events[..|events| - 1]);
      StepKeeps(Run(events[..|events| - 1]), events[|events| - 1]);
    }
  }

  // ---------------------------------------------------------------- what callers may rely on

  /** In every interleaving at most one caller is between winning a key and giving it back. */
  lemma OneRunner(events: seq<Event>, c: Caller, d: Caller, k: Key, i: FlightId, j: FlightId)
    requires var s := Run(events);
      c in s.callers && d in s.callers && Holds(s.callers[c], k, i) && Holds(s.callers[d], k, j)
    ensures c == d && i == j
  {
    RunKeeps(events);
    var s := Run(events);
    assert PointOk(s, c, s.callers[c]) && PointOk(s, d, s.callers[d]);
  }

  /** A caller never changes the flight it opened or joined. */
  lemma StaysWithFlight(s: Shared, e: Event, c: Caller)
    requires c in s.callers
    ensures c in Step(s, e).callers && Step(s, e).callers[c].flight == s.callers[c].flight
  {
  }

  predicate Probed(events: seq<Event>, owner: Caller, o: Outcome) {
    exists j :: 0 <= j < |events| && events[j] == Finish(owner, o)
  }

  predicate OutcomeOk(events: seq<Event>, f: FlightState) {
    f.outcome.Some? ==> Probed(events, f.owner, f.outcome.value)
  }

  lemma ProbedLater(events: seq<Event>, e: Event, owner: Caller, o: Outcome)
    requires Probed(events, owner, o) || e == Finish(owner, o)
    ensures Probed(events + [e], owner, o)
  {
    if Probed(events, owner, o) {
      var j :| 0 <= j < |events| && events[j] == Finish(owner, o);
      assert (events + [e])[j] == Finish(owner, o);
    } else {
      assert (events + [e])[|events|] == e;
    }
  }

  /** The outcome of a flight is what its owner's probe ended with. */
  lemma {:induction false} OutcomesAreProbed(events: seq<Event>, i: FlightId)
    requires i < |Run(events).flights|
    ensures OutcomeOk(events, Run(events).flights[i])
  {
    if events != [] {
      var before, e := events[..|events| - 1], events[|events| - 1];
      var s := Run(before);
      assert events == before + [e];
      RunKeeps(before);
      if i < |s.flights| {
        OutcomesAreProbed(before, i);
        OutcomeStep(s, before, e, i);
      }
    }
  }

  lemma OutcomeStep(s: Shared, before: seq<Event>, e: Event, i: FlightId)
    requires Inv(s) && i < |s.flights| && OutcomeOk(before, s.flights[i])
    ensures i < |Step(s, e).flights| && OutcomeOk(before + [e], Step(s, e).flights[i])
  {
    var f := s.flights[i];
    if f.outcome.Some? { ProbedLater(before, e, f.owner, f.outcome.value); }
    if e.Finish? && Enabled(s, e) && s.callers[e.caller].flight == i {
      assert PointOk(s, e.caller, s.callers[e.caller]);
      ProbedLater(before, e, e.caller, e.outcome);
    }
  }

  /** In every interleaving, whoever returns from a flight returns what the probe of its owner ended with. */
  lemma AllGetTheProbesOutcome(events: seq<Event>, c: Caller)
    requires var s := Run(events); c in s.callers && s.callers[c].Returned?
    ensures var s := Run(events);
      var i := s.callers[c].flight;
      i < |s.flights| && s.flights[i].outcome == Some(s.callers[c].outcome)
        && Probed(events, s.flights[i].owner, s.callers[c].outcome)
  {
    RunKeeps(events);
    var s := Run(events);
    assert PointOk(s, c, s.callers[c]);
    OutcomesAreProbed(events, s.callers[c].flight);
  }

  /** Once closed, a flight keeps its outcome. */
  lemma ClosedIsFinal(s: Shared, e: Event, i: FlightId)
    requires Inv(s) && i < |s.flights| && s.flights[i].done
    ensures i < |Step(s, e).flights| && Step(s, e).flights[i] == s.flights[i]
  {
    if e.Finish? && Enabled(s, e) { assert PointOk(s, e.caller, s.callers[e.caller]); }
  }

  /**
    From every reachable state a flight in the table is removed by its owner's own steps, however
    the probe ends, and then nobody waits for it in vain.
   */
  lemma FlightsEnd(events: seq<Event>, k: Key, o: Outcome, d: Caller)
    requires k in Run(events).table
    ensures var s := Run(events);
      var i := s.table[k];
      && i < |s.flights|
      && var c := s.flights[i].owner;
         var s' := Step(Step(Step(s, Finish(c, o)), Close(c)), Delete(c));
         && k !in s'.table && s'.flights[i].done && c in s'.callers && s'.callers[c].Returned?
         && (d in s'.callers && s'.callers[d].Waiting? && s'.callers[d].flight == i ==> Enabled(s', Wake(d)))
  {
    RunKeeps(events);
    var s := Run(events);
    var i := s.table[k];
    assert EntryOk(s, k, i);
    var c := s.flights[i].owner;
    var s1 := Step(s, Finish(c, o));
    var s2 := Step(s1, Close(c));
    FinishKeeps(s, c, o);
    CloseKeeps(s1, c);
    DeleteKeeps(s2, c);
    assert PointOk(s, c, s.callers[c]) && PointOk(s1, c, s1.callers[c]);
  }

  lemma InTable(s: Shared, k: Key)
    requires Inv(s)
    ensures k in s.table ==> exists c :: c in s.callers && !s.callers[c].Waiting? && !s.callers[c].Returned?
  {
    if k in s.table { assert EntryOk(s, k, s.table[k]); }
  }

  /** When nobody runs a probe, the table is empty and every waiter can go on. */
  lemma QuietMeansEmpty(events: seq<Event>, k: Key, d: Caller)
    requires var s := Run(events); forall c :: c in s.callers ==> s.callers[c].Waiting? || s.callers[c].Returned?
    ensures var s := Run(events); k !in s.table && (d in s.callers && s.callers[d].Waiting? ==> Enabled(s, Wake(d)))
  {
    RunKeeps(events);
    var s := Run(events);
    InTable(s, k);
    if d in s.callers && s.callers[d].Waiting? {
      assert PointOk(s, d, s.callers[d]);
      InTable(s, s.callers[d].key);
    }
  }
}
