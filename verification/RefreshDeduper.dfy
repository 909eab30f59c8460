/**
 One refresh per key for any number of concurrent callers (internal/platform/oauth/dedup.go).
 A call is a sequence of atomic steps; the steps of different calls interleave in any order.
 */
module RefreshDeduper {
  import opened Wrappers

  /** What the refresh gives: tokens and an error, each possibly absent. */
  datatype Outcome = Outcome(tokens: Option<string>, err: Option<string>)

  const NOTHING := Outcome(None, None)

  /** `produced` records what the refresh function returned, if it has returned. */
  datatype Flight = Flight(key: string, leader: nat, outcome: Outcome, closed: bool, produced: Option<Outcome>)

  /** Where a call stands; flights are named by the order in which they started. */
  datatype Call =
    | Waiting(flight: nat)
    | Running(flight: nat)
    | Removing(flight: nat, panicking: bool)
    | Closing(flight: nat, panicking: bool)
    | Returned(flight: nat, outcome: Outcome)
    | Panicked(flight: nat)

  datatype State = State(pending: map<string, nat>, flights: seq<Flight>, calls: map<nat, Call>)

  const START := State(map[], [], map[])

  datatype Event =
    | Enter(c: nat, key: string)
    | Finish(c: nat, outcome: Outcome)
    | Panic(c: nat)
    | Remove(c: nat)
    | Close(c: nat)
    | Wake(c: nat)

  function At(s: State, c: nat, next: Call): State {
    s.(calls := s.calls[c := next])
  }

  /** An event for which a call is not ready changes nothing. */
  function Step(s: State, e: Event): State {
    match e
    case Enter(c, key) =>
      if c in s.calls then s
      else if key in s.pending then At(s, c, Waiting(s.pending[key]))
      else
        var f := |s.flights|;
        State(s.pending[key := f], s.flights + [Flight(key, c, NOTHING, false, None)], s.calls[c := Running(f)])
    case Finish(c, outcome) =>
      if c in s.calls && s.calls[c].Running? && s.calls[c].flight < |s.flights| then
        var f := s.calls[c].flight;
        var flight := s.flights[f].(outcome := outcome, produced := Some(outcome));
        At(s.(flights := s.flights[f := flight]), c, Removing(f, false))
      else s
    case Panic(c) =>
      if c in s.calls && s.calls[c].Running? then At(s, c, Removing(s.calls[c].flight, true)) else s
    case Remove(c) =>
      if c in s.calls && s.calls[c].Removing? && s.calls[c].flight < |s.flights| then
        var f := s.calls[c].flight;
        At(s.(pending := s.pending - {s.flights[f].key}), c, Closing(f, s.calls[c].panicking))
      else s
    case Close(c) =>
      if c in s.calls && s.calls[c].Closing? && s.calls[c].flight < |s.flights| then
        var f := s.calls[c].flight;
        At(s.(flights := s.flights[f := s.flights[f].(closed := true)]), c,
           if s.calls[c].panicking then Panicked(f) else Returned(f, s.flights[f].outcome))
      else s
    case Wake(c) =>
      if c in s.calls && s.calls[c].Waiting? && s.calls[c].flight < |s.flights| then
        var f := s.calls[c].flight;
        if s.flights[f].closed then At(s, c, Returned(f, s.flights[f].outcome)) else s
      else s
  }

  function Run(es: seq<Event>): State {
    if es == [] then START else Step(Run(es[..|es| - 1]), es[|es| - 1])
  }

  // ---------------------------------------------------------------- the invariant

  /** The call leads its flight and has not yet taken its key out of the table. */
  predicate Leads(s: State, c: nat) {
    c in s.calls && (s.calls[c].Running? || s.calls[c].Removing?)
  }

  predicate Done(call: Call) {
    call.Returned? || call.Panicked?
  }

  /** How far a call is agrees with its flight. */
  predicate CallAgrees(s: State, c: nat)
    requires c in s.calls
  {
    var call := s.calls[c];
    && call.flight < |s.flights|
    && var f := s.flights[call.flight];
       match call
       case Waiting(_) => f.leader != c
       case Running(n) =>
         && f.leader == c && !f.closed && f.key in s.pending && s.pending[f.key] == n
         && f.produced == None && f.outcome == NOTHING
       case Removing(n, p) =>
         f.leader == c && !f.closed && f.key in s.pending && s.pending[f.key] == n && p == f.produced.None?
       case Closing(n, p) => f.leader == c && !f.closed && p == f.produced.None?
       case Returned(_, o) => f.closed && o == f.outcome && (f.leader == c ==> f.produced.Some?)
       case Panicked(_) => f.closed && f.leader == c && f.produced == None
  }

  predicate FlightAgrees(s: State, n: nat)
    requires n < |s.flights|
  {
    var f := s.flights[n];
    && f.outcome == f.produced.GetOr(NOTHING)
    && f.leader in s.calls && s.calls[f.leader].flight == n && !s.calls[f.leader].Waiting?
    && (f.closed <==> Done(s.calls[f.leader]))
  }

  /** The key, if it is in the table, names a flight whose leader still leads it. */
  predicate KeyAgrees(s: State, key: string) {
    key in s.pending ==>
      s.pending[key] < |s.flights| && s.flights[s.pending[key]].key == key && Leads(s, s.flights[s.pending[key]].leader)
  }

  ghost predicate Consistent(s: State) {
    && (forall c :: c in s.calls ==> CallAgrees(s, c))
    && (forall n :: 0 <= n < |s.flights| ==> FlightAgrees(s, n))
    && (forall k :: k in s.pending ==> KeyAgrees(s, k))
  }

  /** A step keeps what a call agrees on with its flight. */
  lemma CallKept(s: State, e: Event, c: nat)
    requires c in s.calls && CallAgrees(s, c) && (e.c in s.calls ==> CallAgrees(s, e.c))
    ensures c in Step(s, e).calls && CallAgrees(Step(s, e), c)
  {
  }

  lemma NewCallAgrees(s: State, c: nat, key: string)
    requires c !in s.calls && KeyAgrees(s, key)
    ensures var t := Step(s, Enter(c, key)); t.calls.Keys == s.calls.Keys + {c} && CallAgrees(t, c)
  {
  }

  lemma CallsKept(s: State, e: Event)
    requires Consistent(s)
    ensures var t := Step(s, e); forall c :: c in t.calls ==> CallAgrees(t, c)
  {
    var t := Step(s, e);
    assert e.Enter? ==> KeyAgrees(s, e.key);
    assert forall c :: c in t.calls && c !in s.calls ==> e.Enter? && e.c == c && e.c !in s.calls;
    hide Step, CallAgrees, FlightAgrees, Leads, KeyAgrees;
    forall c | c in t.calls
      ensures CallAgrees(t, c)
    {
      if c in s.calls {
        CallKept(s, e, c);
      } else {
        NewCallAgrees(s, c, e.key);
      }
    }
  }

  /** A step keeps what a flight agrees on with its leader, and so does a new flight. */
  lemma FlightKept(s: State, e: Event, n: nat)
    requires n < |Step(s, e).flights|
    requires n < |s.flights| ==> FlightAgrees(s, n)
    requires e.c in s.calls ==> CallAgrees(s, e.c)
    ensures FlightAgrees(Step(s, e), n)
  {
  }

  lemma FlightsKept(s: State, e: Event)
    requires Consistent(s)
    ensures var t := Step(s, e); forall n :: 0 <= n < |t.flights| ==> FlightAgrees(t, n)
  {
    hide Step, CallAgrees, FlightAgrees, KeyAgrees;
    var t := Step(s, e);
    forall n | 0 <= n < |t.flights|
      ensures FlightAgrees(t, n)
    {
      FlightKept(s, e, n);
    }
  }

  lemma PendingKept(s: State, e: Event)
    requires Consistent(s)
    ensures var t := Step(s, e); forall k :: k in t.pending ==> KeyAgrees(t, k)
  {
    hide Step, CallAgrees, FlightAgrees;
    var t := Step(s, e);
    forall k | k in t.pending
      ensures KeyAgrees(t, k)
    {
      assert k in s.pending ==> KeyAgrees(s, k) && FlightAgrees(s, s.pending[k]);
      KeyKept(s, e, k);
    }
  }

  /** A step keeps what a key agrees on with the leader of its flight. */
  lemma KeyKept(s: State, e: Event, k: string)
    requires k in s.pending ==> KeyAgrees(s, k) && FlightAgrees(s, s.pending[k])
    requires e.c in s.calls ==> CallAgrees(s, e.c)
    ensures KeyAgrees(Step(s, e), k)
  {
  }

  lemma {:induction false} AlwaysConsistent(es: seq<Event>)
    ensures Consistent(Run(es))
  {
    if es != [] {
      var s := Run(es[..|es| - 1]);
      AlwaysConsistent(es[..|es| - 1]);
      CallsKept(s, es[|es| - 1]);
      FlightsKept(s, es[|es| - 1]);
      PendingKept(s, es[|es| - 1]);
    }
  }

  // ---------------------------------------------------------------- what callers can rely on

  /** The call leads a flight for this key. */
  predicate LeadsFor(s: State, c: nat, key: string) {
    Leads(s, c) && s.calls[c].flight < |s.flights| && s.flights[s.calls[c].flight].key == key
  }

  /** A key is in the table exactly while a call leads a flight for it, and then there is only one such call. */
  lemma PendingIffLed(es: seq<Event>, key: string)
    ensures key in Run(es).pending <==> exists c: nat :: LeadsFor(Run(es), c, key)
    ensures forall c: nat, d: nat :: LeadsFor(Run(es), c, key) && LeadsFor(Run(es), d, key) ==> c == d
  {
    AlwaysConsistent(es);
    var s := Run(es);
    if key in s.pending {
      assert KeyAgrees(s, key) && FlightAgrees(s, s.pending[key]);
      assert LeadsFor(s, s.flights[s.pending[key]].leader, key);
    }
  }

  /** At any time at most one refresh function runs for a key. */
  lemma OneRefreshPerKey(es: seq<Event>, c: nat, d: nat)
    requires var s := Run(es);
             && c in s.calls && d in s.calls && s.calls[c].Running? && s.calls[d].Running?
             && s.calls[c].flight < |s.flights| && s.calls[d].flight < |s.flights|
             && s.flights[s.calls[c].flight].key == s.flights[s.calls[d].flight].key
    ensures c == d
  {
    AlwaysConsistent(es);
    var s := Run(es);
    assert CallAgrees(s, c) && CallAgrees(s, d);
  }

  /** The call runs the refresh function of this flight, and the event ends it. */
  predicate Ends(s: State, e: Event, flight: nat) {
    (e.Finish? || e.Panic?) && e.c in s.calls && s.calls[e.c] == Running(flight)
  }

  /** The first event in which a call that runs the refresh function of this flight finishes or panics. */
  ghost function Ending(es: seq<Event>, flight: nat): Option<Event> {
    if es == [] then None
    else
      var rest, e := es[..|es| - 1], es[|es| - 1];
      if Ending(rest, flight).Some? then Ending(rest, flight)
      else if Ends(Run(rest), e, flight) then Some(e)
      else None
  }

  /** What has become of a flight and of its leader, given the event in which the refresh function ended. */
  ghost predicate EndedSo(s: State, n: nat, ending: Option<Event>)
    requires n < |s.flights|
  {
    var leader := s.flights[n].leader;
    && leader in s.calls
    && match ending
       case None => s.calls[leader] == Running(n) && s.flights[n].produced == None
       case Some(Finish(c, outcome)) =>
         c == leader && !s.calls[leader].Running? && s.flights[n].produced == Some(outcome)
       case Some(Panic(c)) => c == leader && !s.calls[leader].Running? && s.flights[n].produced == None
       case _ => false
  }

  lemma EndedKept(s: State, e: Event, n: nat, ending: Option<Event>)
    requires n < |s.flights| && EndedSo(s, n, ending) && (e.c in s.calls ==> CallAgrees(s, e.c))
    ensures n < |Step(s, e).flights|
    ensures EndedSo(Step(s, e), n, if ending.Some? then ending else if Ends(s, e, n) then Some(e) else None)
  {
  }

  lemma NewFlightRuns(s: State, e: Event, n: nat)
    requires |s.flights| <= n < |Step(s, e).flights| && (e.c in s.calls ==> CallAgrees(s, e.c))
    ensures EndedSo(Step(s, e), n, None) && !Ends(s, e, n)
  {
  }

  lemma NoSuchFlight(s: State, e: Event, n: nat)
    requires |s.flights| <= n && (e.c in s.calls ==> CallAgrees(s, e.c))
    ensures !Ends(s, e, n)
  {
  }

  lemma EndingNext(es: seq<Event>, e: Event, n: nat)
    ensures Ending(es + [e], n) ==
            if Ending(es, n).Some? then Ending(es, n) else if Ends(Run(es), e, n) then Some(e) else None
    ensures Run(es + [e]) == Step(Run(es), e)
  {
    assert (es + [e])[..|es|] == es;
    hide Run;
  }

  /** What a flight holds is what the first event says in which its refresh function finished or panicked. */
  lemma {:induction false} EndingIs(es: seq<Event>, n: nat)
    ensures if n < |Run(es).flights| then EndedSo(Run(es), n, Ending(es, n)) else Ending(es, n) == None
  {
    if es != [] {
      var rest, e := es[..|es| - 1], es[|es| - 1];
      var s := Run(rest);
      assert rest + [e] == es;
      EndingIs(rest, n);
      AlwaysConsistent(rest);
      assert e.c in s.calls ==> CallAgrees(s, e.c);
      EndingNext(rest, e, n);
      hide Run, Ending, Step, EndedSo, Ends, CallAgrees, Consistent;
      if n < |s.flights| {
        EndedKept(s, e, n, Ending(rest, n));
      } else if n < |Step(s, e).flights| {
        NewFlightRuns(s, e, n);
      } else {
        NoSuchFlight(s, e, n);
      }
    }
  }

  /**
   A call that returned gives just what the refresh function of its flight returned when it finished; when that
   function panicked instead, the leader panics and every other call of the flight returns nothing at all.
   */
  lemma ReturnsLeadersResult(es: seq<Event>, c: nat)
    requires var s := Run(es); c in s.calls && s.calls[c].Returned?
    ensures var s := Run(es);
            var f := s.calls[c].flight;
            && f < |s.flights|
            && var leader := s.flights[f].leader;
               && leader in s.calls
               && s.calls[c].outcome == s.flights[f].produced.GetOr(NOTHING)
               && match Ending(es, f)
                  case Some(Finish(d, outcome)) =>
                    d == leader && s.calls[c].outcome == outcome && s.calls[leader] == Returned(f, outcome)
                  case Some(Panic(d)) =>
                    && d == leader && s.calls[c].outcome == Outcome(None, None)
                    && s.calls[leader] == Panicked(f) && leader != c
                  case _ => false
  {
    AlwaysConsistent(es);
    var s := Run(es);
    assert CallAgrees(s, c);
    var f := s.calls[c].flight;
    assert FlightAgrees(s, f);
    assert CallAgrees(s, s.flights[f].leader);
    EndingIs(es, f);
  }

  /** When every call has ended the table is empty. */
  lemma EmptyWhenDone(es: seq<Event>)
    requires var s := Run(es); forall c :: c in s.calls ==> Done(s.calls[c])
    ensures Run(es).pending == map[]
  {
    AlwaysConsistent(es);
    assert forall k :: k in Run(es).pending ==> KeyAgrees(Run(es), k);
  }

  /** How many steps a call may still take. */
  function Left(call: Call): nat {
    match call
    case Waiting(_) => 1
    case Running(_) => 3
    case Removing(_, _) => 2
    case Closing(_, _) => 1
    case Returned(_, _) => 0
    case Panicked(_) => 0
  }

  /**
   Corollary of Step, for use with SomeoneCanStep: a step other than a new call takes one call one step nearer to its
   end and changes no other, or does nothing.
   */
  lemma StepsAdvance(s: State, e: Event)
    requires !e.Enter?
    ensures var t := Step(s, e);
            t == s || (&& e.c in s.calls && t.calls.Keys == s.calls.Keys
                       && Left(t.calls[e.c]) == Left(s.calls[e.c]) - 1
                       && forall d :: d in s.calls && d != e.c ==> t.calls[d] == s.calls[d])
  {
  }

  /** Nobody waits for good: as long as a call has not ended, some call other than a new one can take a step. */
  lemma SomeoneCanStep(es: seq<Event>, c: nat)
    requires var s := Run(es); c in s.calls && !Done(s.calls[c])
    ensures exists e: Event :: !e.Enter? && Step(Run(es), e) != Run(es)
  {
    hide Run, Step;
    AlwaysConsistent(es);
    var s := Run(es);
    assert CallAgrees(s, c);
    var n := s.calls[c].flight;
    assert FlightAgrees(s, n);
    if s.calls[c].Waiting? && s.flights[n].closed {
      WaiterCanStep(s, c);
    } else {
      var d := if s.calls[c].Waiting? then s.flights[n].leader else c;
      assert CallAgrees(s, d);
      LeaderCanStep(s, d);
    }
  }

  lemma WaiterCanStep(s: State, c: nat)
    requires c in s.calls && s.calls[c].Waiting?
    requires s.calls[c].flight < |s.flights| && s.flights[s.calls[c].flight].closed
    ensures Step(s, Wake(c)) != s
  {
    assert Step(s, Wake(c)).calls[c].Returned?;
  }

  lemma LeaderCanStep(s: State, d: nat)
    requires d in s.calls && (Leads(s, d) || s.calls[d].Closing?) && s.calls[d].flight < |s.flights|
    ensures exists e: Event :: !e.Enter? && Step(s, e) != s
  {
    var call := s.calls[d];
    if call.Running? {
      assert Step(s, Panic(d)).calls[d].Removing?;
    } else if call.Removing? {
      assert Step(s, Remove(d)).calls[d].Closing?;
    } else {
      assert Done(Step(s, Close(d)).calls[d]);
    }
  }

  // ---------------------------------------------------------------- the deduper object

  /** A refresh in flight; `done` stands for its channel being closed. */
  class InFlight {
    var result: Outcome
    var done: bool

    constructor ()
      ensures result == NOTHING && !done
    {
      result, done := NOTHING, false;
    }
  }

  lemma EnterJoinsOrStarts(s: State, c: nat, key: string)
    requires c !in s.calls
    ensures var t := Step(s, Enter(c, key));
            if key in s.pending then t == s.(calls := s.calls[c := Waiting(s.pending[key])])
            else
              var f := |s.flights|;
              t == State(s.pending[key := f], s.flights + [Flight(key, c, NOTHING, false, None)],
                         s.calls[c := Running(f)])
  {
  }

  /** The flights and the table hold what the state says. */
  ghost predicate Matches(pending: map<string, InFlight>, flights: seq<InFlight>, s: State)
    reads flights
  {
    && |flights| == |s.flights|
    && (forall i, j :: 0 <= i < j < |flights| ==> flights[i] != flights[j])
    && (forall i :: 0 <= i < |flights| ==>
          flights[i].result == s.flights[i].outcome && flights[i].done == s.flights[i].closed)
    && pending.Keys == s.pending.Keys
    && (forall k :: k in pending ==> s.pending[k] < |flights| && pending[k] == flights[s.pending[k]])
  }

  lemma TableAgrees(pending: map<string, InFlight>, flights: seq<InFlight>, s: State, key: string)
    requires Matches(pending, flights, s)
    ensures |flights| == |s.flights| && (key in pending <==> key in s.pending)
    ensures key in pending ==> s.pending[key] < |flights| && pending[key] == flights[s.pending[key]]
  {
  }

  lemma CallsDoNotMatter(pending: map<string, InFlight>, flights: seq<InFlight>, s: State, t: State)
    requires Matches(pending, flights, s) && t == s.(calls := t.calls)
    ensures Matches(pending, flights, t)
  {
  }

  lemma OneMoreFlight(pending: map<string, InFlight>, flights: seq<InFlight>, s: State, c: nat, key: string,
        flight: InFlight)
    requires Matches(pending, flights, s) && flight !in flights && flight.result == NOTHING && !flight.done
    ensures Matches(pending[key := flight], flights + [flight],
                    State(s.pending[key := |s.flights|], s.flights + [Flight(key, c, NOTHING, false, None)],
                          s.calls[c := Running(|s.flights|)]))
  {
  }

  class Deduper {
    var pending: map<string, InFlight>
    /** All flights, in the order in which they started, and the steps taken so far. */
    ghost var flights: seq<InFlight>
    ghost var steps: seq<Event>

    ghost function Now(): State
      reads this
    {
      Run(steps)
    }

    ghost predicate Valid()
      reads this, flights
    {
      Matches(pending, flights, Now())
    }

    constructor ()
      ensures Valid() && steps == []
    {
      pending, flights, steps := map[], [], [];
    }

    ghost method Took(e: Event)
      modifies this`steps
      ensures steps == old(steps) + [e] && Run(steps) == Step(Run(old(steps)), e)
    {
      steps := steps + [e];
      assert steps[..|old(steps)|] == old(steps);
    }

    /** The locked part of a call: joins the flight for the key, or starts one. */
    method Begin(ghost c: nat, key: string) returns (flight: InFlight, leads: bool)
      requires Valid() && c !in Now().calls
      modifies this
      ensures Valid() && steps == old(steps) + [Enter(c, key)]
      ensures c in Now().calls && Now().calls[c].flight < |flights| && flight == flights[Now().calls[c].flight]
      ensures leads ==> Now().calls[c].Running? && fresh(flight)
      ensures !leads ==> Now().calls[c].Waiting?
      ensures leads <==> key !in old(pending)
    {
      hide Run, Step, Matches;
      TableAgrees(pending, flights, Now(), key);
      EnterJoinsOrStarts(Now(), c, key);
      Took(Enter(c, key));
      if key in pending {
        CallsDoNotMatter(pending, flights, old(Now()), Now());
        return pending[key], false;
      }
      flight := new InFlight();
      OneMoreFlight(pending, flights, old(Now()), c, key, flight);
      pending := pending[key := flight];
      flights := flights + [flight];
      leads := true;
    }

    /** The refresh function has returned. */
    method StoreResult(ghost c: nat, flight: InFlight, outcome: Outcome)
      requires Valid() && c in Now().calls && Now().calls[c].Running?
      requires Now().calls[c].flight < |flights| && flight == flights[Now().calls[c].flight]
      modifies this`steps, flight
      ensures Valid() && steps == old(steps) + [Finish(c, outcome)]
    {
      Took(Finish(c, outcome));
      flight.result := outcome;
    }

    /** The refresh function has panicked: nothing is stored, and the deferred cleanup runs all the same. */
    method Panicking(ghost c: nat)
      requires Valid() && c in Now().calls && Now().calls[c].Running?
      modifies this`steps
      ensures Valid() && steps == old(steps) + [Panic(c)]
      ensures Now().calls[c] == Removing(old(Now().calls[c].flight), true)
      ensures Now().flights == old(Now().flights) && Now().pending == old(Now().pending)
    {
      Took(Panic(c));
    }

    /** The deferred cleanup, first half: the key leaves the table. */
    method RemoveKey(ghost c: nat, key: string)
      requires Valid() && c in Now().calls && Now().calls[c].Removing?
      requires Now().calls[c].flight < |flights| && Now().flights[Now().calls[c].flight].key == key
      modifies this
      ensures Valid() && steps == old(steps) + [Remove(c)] && flights == old(flights)
    {
      Took(Remove(c));
      pending := pending - {key};
    }

    /** The deferred cleanup, second half: the waiters are released. */
    method CloseDone(ghost c: nat, flight: InFlight)
      requires Valid() && c in Now().calls && Now().calls[c].Closing?
      requires Now().calls[c].flight < |flights| && flight == flights[Now().calls[c].flight]
      modifies this`steps, flight
      ensures Valid() && steps == old(steps) + [Close(c)]
    {
      Took(Close(c));
      flight.done := true;
    }

    /** A released waiter reads the outcome. */
    method Await(ghost c: nat, flight: InFlight) returns (outcome: Outcome)
      requires Valid() && c in Now().calls && Now().calls[c].Waiting?
      requires Now().calls[c].flight < |flights| && flight == flights[Now().calls[c].flight] && flight.done
      modifies this`steps
      ensures Valid() && steps == old(steps) + [Wake(c)]
      ensures Now().calls[c] == Returned(old(Now().calls[c].flight), outcome)
    {
      Took(Wake(c));
      outcome := flight.result;
    }

    /** How many refreshes are tracked; none when every call has ended. */
    method PendingCount() returns (n: nat)
      requires Valid()
      ensures n == |Now().pending|
      ensures (forall c :: c in Now().calls ==> Done(Now().calls[c])) ==> n == 0
    {
      n := |pending|;
      assert pending.Keys == Now().pending.Keys;
      if forall c :: c in Now().calls ==> Done(Now().calls[c]) { EmptyWhenDone(steps); }
    }
  }
}
