/** The three-state circuit breaker around a model provider (internal/core/model/circuit_breaker.go). */
module CircuitBreaker {
  import opened Wrappers

  datatype Phase = Closed | Open | HalfOpen

  datatype Settings = Settings(
    failureThreshold: int,
    recoveryTimeout: int,
    halfOpenMaxRequests: int,
    halfOpenSuccessThreshold: int
  ) {
    predicate Valid() {
      failureThreshold > 0 && recoveryTimeout > 0 && halfOpenMaxRequests > 0 && halfOpenSuccessThreshold > 0
    }
  }

  const DEFAULTS := Settings(5, 30_000_000_000, 1, 1)

  datatype Breaker = Breaker(
    phase: Phase,
    failures: nat,
    lastFailure: Option<int>,
    halfOpenReqs: nat,
    halfOpenSuccess: nat,
    tripCount: nat
  )

  const INITIAL := Breaker(Closed, 0, None, 0, 0, 0)

  /** The calls made on a breaker; `now` is the clock at the call. */
  datatype Event = CanExecute(now: int) | Success | Failure(now: int)

  predicate Recovered(c: Settings, b: Breaker, now: int) {
    b.phase == Open && b.lastFailure.Some? && now - b.lastFailure.value >= c.recoveryTimeout
  }

  /** Whether the call is CanExecute and answers yes. */
  predicate Granted(c: Settings, b: Breaker, e: Event) {
    && e.CanExecute?
    && match b.phase
       case Closed => true
       case Open => Recovered(c, b, e.now) && c.halfOpenMaxRequests > 0
       case HalfOpen => b.halfOpenReqs < c.halfOpenMaxRequests
  }

  function Next(c: Settings, b: Breaker, e: Event): Breaker {
    match e
    case CanExecute(now) =>
      var b' := if Recovered(c, b, now) then b.(phase := HalfOpen, halfOpenReqs := 0, halfOpenSuccess := 0) else b;
      if b'.phase == HalfOpen && b'.halfOpenReqs < c.halfOpenMaxRequests then
        b'.(halfOpenReqs := b'.halfOpenReqs + 1)
      else b'
    case Success =>
      (match b.phase
       case Closed => b.(failures := 0)
       case Open => b
       case HalfOpen =>
         if b.halfOpenSuccess + 1 >= c.halfOpenSuccessThreshold then
           b.(phase := Closed, failures := 0, halfOpenReqs := 0, halfOpenSuccess := 0)
         else b.(halfOpenSuccess := b.halfOpenSuccess + 1))
    case Failure(now) =>
      var b' := b.(lastFailure := Some(now));
      (match b.phase
       case Closed =>
         if b.failures + 1 >= c.failureThreshold then
           b'.(failures := b.failures + 1, phase := Open, tripCount := b.tripCount + 1)
         else b'.(failures := b.failures + 1)
       case Open => b'
       case HalfOpen => b'.(phase := Open, halfOpenReqs := 0, halfOpenSuccess := 0, tripCount := b.tripCount + 1))
  }

  function Run(c: Settings, b: Breaker, es: seq<Event>): Breaker {
    if es == [] then b else Next(c, Run(c, b, es[..|es| - 1]), es[|es| - 1])
  }

  lemma RunNext(c: Settings, b: Breaker, es: seq<Event>, e: Event)
    ensures Run(c, b, es + [e]) == Next(c, Run(c, b, es), e)
  {
    assert (es + [e])[..|es|] == es;
  }

  // ---------------------------------------------------------------- what the history says

  /** Failures reported since the last reported success. */
  function TrailingFailures(es: seq<Event>): nat {
    if es == [] then 0
    else
      var rest := es[..|es| - 1];
      match es[|es| - 1]
      case CanExecute(_) => TrailingFailures(rest)
      case Success => 0
      case Failure(_) => TrailingFailures(rest) + 1
  }

  function LatestFailure(es: seq<Event>): Option<int> {
    if es == [] then None
    else if es[|es| - 1].Failure? then Some(es[|es| - 1].now)
    else LatestFailure(es[..|es| - 1])
  }

  /** How often the breaker went over to Open. */
  function Trips(c: Settings, b: Breaker, es: seq<Event>): nat {
    if es == [] then 0
    else
      var before := Run(c, b, es[..|es| - 1]);
      Trips(c, b, es[..|es| - 1]) + (if before.phase != Open && Run(c, b, es).phase == Open then 1 else 0)
  }

  function Successes(es: seq<Event>): nat {
    if es == [] then 0 else Successes(es[..|es| - 1]) + (if es[|es| - 1].Success? then 1 else 0)
  }

  function Grants(c: Settings, b: Breaker, es: seq<Event>): nat {
    if es == [] then 0
    else Grants(c, b, es[..|es| - 1]) + (if Granted(c, Run(c, b, es[..|es| - 1]), es[|es| - 1]) then 1 else 0)
  }

  /** The state agrees with the calls made so far. */
  ghost predicate Agrees(c: Settings, b: Breaker, es: seq<Event>) {
    && (b.phase == Closed ==> b.failures == TrailingFailures(es) < c.failureThreshold)
    && (b.phase != Closed ==> b.failures == c.failureThreshold && b.lastFailure.Some?)
    && b.lastFailure == LatestFailure(es)
    && b.tripCount == Trips(c, INITIAL, es)
    && b.halfOpenReqs <= c.halfOpenMaxRequests
    && b.halfOpenSuccess < c.halfOpenSuccessThreshold
    && (b.phase != HalfOpen ==> b.halfOpenReqs == 0 && b.halfOpenSuccess == 0)
  }

  lemma AgreesNext(c: Settings, es: seq<Event>, e: Event)
    requires c.Valid() && Agrees(c, Run(c, INITIAL, es), es)
    ensures Agrees(c, Run(c, INITIAL, es + [e]), es + [e])
  {
    assert (es + [e])[..|es|] == es;
  }

  /** Every reachable state agrees with its history. */
  lemma {:induction false} AlwaysAgrees(c: Settings, es: seq<Event>)
    requires c.Valid()
    ensures Agrees(c, Run(c, INITIAL, es), es)
  {
    if es != [] {
      AlwaysAgrees(c, es[..|es| - 1]);
      AgreesNext(c, es[..|es| - 1], es[|es| - 1]);
      assert es[..|es| - 1] + [es[|es| - 1]] == es;
    }
  }

  /** A closed breaker opens exactly at the report that makes the trailing failures reach the threshold. */
  lemma OpensAtThreshold(c: Settings, es: seq<Event>, e: Event)
    requires c.Valid() && Run(c, INITIAL, es).phase == Closed
    ensures Run(c, INITIAL, es + [e]).phase == Open <==> TrailingFailures(es + [e]) == c.failureThreshold
    ensures Run(c, INITIAL, es + [e]).phase != HalfOpen
  {
    AlwaysAgrees(c, es);
    assert (es + [e])[..|es|] == es;
  }

  function Failures(es: seq<Event>): nat {
    if es == [] then 0 else Failures(es[..|es| - 1]) + (if es[|es| - 1].Failure? then 1 else 0)
  }

  /** At no point have this many failures been reported in a row. */
  ghost predicate NeverInARow(n: int, es: seq<Event>) {
    forall k :: 0 <= k <= |es| ==> TrailingFailures(es[..k]) < n
  }

  /** Every request among the calls is permitted. */
  ghost predicate AllGranted(c: Settings, es: seq<Event>) {
    forall k :: 0 <= k < |es| && es[k].CanExecute? ==> Granted(c, Run(c, INITIAL, es[..k]), es[k])
  }

  ghost predicate AllClosed(c: Settings, es: seq<Event>) {
    forall k :: 0 <= k <= |es| ==> Run(c, INITIAL, es[..k]).phase == Closed
  }

  lemma SoFar(c: Settings, es: seq<Event>, e: Event)
    ensures NeverInARow(c.failureThreshold, es + [e]) <==>
            NeverInARow(c.failureThreshold, es) && TrailingFailures(es + [e]) < c.failureThreshold
    ensures AllClosed(c, es + [e]) <==> AllClosed(c, es) && Run(c, INITIAL, es + [e]).phase == Closed
    ensures AllGranted(c, es + [e]) <==>
            AllGranted(c, es) && (e.CanExecute? ==> Granted(c, Run(c, INITIAL, es), e))
  {
    hide Run, Granted, TrailingFailures;
    var all := es + [e];
    assert all[..|all|] == all && all[..|es|] == es;
    assert forall k :: 0 <= k <= |es| ==> all[..k] == es[..k];
    assert forall k :: 0 <= k < |es| ==> all[k] == es[k];
  }

  /** A closed breaker permits every request and is left as it was. */
  lemma ClosedGrants(c: Settings, b: Breaker, now: int)
    requires b.phase == Closed
    ensures Granted(c, b, CanExecute(now)) && Next(c, b, CanExecute(now)) == b
  {
  }

  lemma AllClosedNow(c: Settings, es: seq<Event>)
    requires AllClosed(c, es)
    ensures Run(c, INITIAL, es).phase == Closed
  {
    assert es[..|es|] == es;
  }

  /**
   As long as the threshold of failures in a row is not reached, the breaker is closed and permits every request;
   it is closed all along exactly as long as that.
   */
  lemma {:induction false} ClosedWhileBelow(c: Settings, es: seq<Event>)
    requires c.Valid()
    ensures NeverInARow(c.failureThreshold, es) <==> AllClosed(c, es)
    ensures NeverInARow(c.failureThreshold, es) ==> AllGranted(c, es)
  {
    if es != [] {
      hide NeverInARow, AllClosed, AllGranted;
      var rest, e := es[..|es| - 1], es[|es| - 1];
      assert rest + [e] == es;
      ClosedWhileBelow(c, rest);
      SoFar(c, rest, e);
      if AllClosed(c, rest) {
        AllClosedNow(c, rest);
      }
      AlwaysAgrees(c, rest);
    }
  }

  lemma {:induction false} FewFailures(es: seq<Event>, k: nat)
    requires k <= |es|
    ensures TrailingFailures(es[..k]) <= Failures(es[..k]) <= Failures(es)
  {
    if k < |es| {
      FewFailures(es[..|es| - 1], k);
      assert es[..|es| - 1][..k] == es[..k];
    } else {
      assert es[..k] == es;
      if es != [] {
        FewFailures(es[..|es| - 1], k - 1);
        assert es[..|es| - 1][..k - 1] == es[..|es| - 1];
      }
    }
  }

  /** While fewer failures than the threshold have been reported since the start, every request is permitted. */
  lemma FewFailuresGrantAll(c: Settings, es: seq<Event>, now: int)
    requires c.Valid() && Failures(es) < c.failureThreshold
    ensures AllGranted(c, es + [CanExecute(now)])
  {
    var all := es + [CanExecute(now)];
    assert Failures(all) == Failures(es) by {
      assert all[..|es|] == es;
    }
    forall k | 0 <= k <= |all|
      ensures TrailingFailures(all[..k]) < c.failureThreshold
    {
      FewFailures(all, k);
    }
    ClosedWhileBelow(c, all);
  }

  // ---------------------------------------------------------------- timing

  function LatestTime(es: seq<Event>): Option<int> {
    if es == [] then None
    else
      match es[|es| - 1]
      case CanExecute(now) => Some(now)
      case Failure(now) => Some(now)
      case Success => LatestTime(es[..|es| - 1])
  }

  /** The clock never runs backwards. */
  ghost predicate Monotone(es: seq<Event>) {
    es == [] ||
    (var rest, e := es[..|es| - 1], es[|es| - 1];
     Monotone(rest) && (!e.Success? && LatestTime(rest).Some? ==> LatestTime(rest).value <= e.now))
  }

  lemma {:induction false} HalfOpenIsLate(c: Settings, es: seq<Event>)
    requires c.Valid() && Monotone(es)
    ensures LatestFailure(es).Some? ==> LatestTime(es).Some? && LatestFailure(es).value <= LatestTime(es).value
    ensures Run(c, INITIAL, es).phase == HalfOpen ==>
              LatestFailure(es).Some? && LatestTime(es).value - LatestFailure(es).value >= c.recoveryTimeout
  {
    if es != [] {
      HalfOpenIsLate(c, es[..|es| - 1]);
      AlwaysAgrees(c, es[..|es| - 1]);
    }
  }

  /** Unless it is closed, the breaker grants nothing before the timeout has passed since the latest failure. */
  lemma NoEarlyGrant(c: Settings, es: seq<Event>, e: Event)
    requires c.Valid() && Monotone(es + [e])
    requires Run(c, INITIAL, es).phase != Closed && Granted(c, Run(c, INITIAL, es), e)
    ensures LatestFailure(es).Some? && e.now - LatestFailure(es).value >= c.recoveryTimeout
  {
    assert (es + [e])[..|es|] == es;
    AlwaysAgrees(c, es);
    HalfOpenIsLate(c, es);
  }

  /** Open with a passed timeout, the breaker does grant. */
  lemma LateGrant(c: Settings, es: seq<Event>, now: int)
    requires c.Valid() && Run(c, INITIAL, es).phase == Open
    ensures Granted(c, Run(c, INITIAL, es), CanExecute(now)) <==>
            now - LatestFailure(es).GetOr(now) >= c.recoveryTimeout
  {
    AlwaysAgrees(c, es);
  }

  // ---------------------------------------------------------------- half-open periods

  /** From `b` on, the breaker stays half-open after every one of the calls. */
  ghost predicate StaysHalfOpen(c: Settings, b: Breaker, es: seq<Event>) {
    forall k :: 1 <= k <= |es| ==> Run(c, b, es[..k]).phase == HalfOpen
  }

  lemma {:induction false} PeriodGrants(c: Settings, b: Breaker, es: seq<Event>)
    requires c.Valid() && b.phase != Closed && StaysHalfOpen(c, b, es) && es != []
    requires b.phase == HalfOpen ==> b.halfOpenReqs <= c.halfOpenMaxRequests
    ensures (if b.phase == HalfOpen then b.halfOpenReqs else 0) + Grants(c, b, es) == Run(c, b, es).halfOpenReqs
    ensures Run(c, b, es).halfOpenReqs <= c.halfOpenMaxRequests
  {
    var rest := es[..|es| - 1];
    assert es[..|es|] == es;
    if rest != [] {
      assert forall k :: 1 <= k <= |rest| ==> rest[..k] == es[..k];
      PeriodGrants(c, b, rest);
      assert Run(c, b, es[..|es| - 1]).phase == HalfOpen;
    }
  }

  /** Each half-open period, from the call that starts it on, grants at most the permitted number of trials. */
  lemma PeriodIsBounded(c: Settings, before: seq<Event>, es: seq<Event>)
    requires c.Valid() && es != []
    requires Run(c, INITIAL, before).phase != Closed && StaysHalfOpen(c, Run(c, INITIAL, before), es)
    ensures Grants(c, Run(c, INITIAL, before), es) <= c.halfOpenMaxRequests
  {
    AlwaysAgrees(c, before);
    PeriodGrants(c, Run(c, INITIAL, before), es);
  }

  ghost predicate NoReport(es: seq<Event>) {
    forall e :: e in es ==> e.CanExecute?
  }

  /**
   As long as nothing is reported, a half-open breaker grants what is left of its limit and then nothing, whatever
   the clock says: trials that are never reported block it for good.
   */
  lemma {:induction false} UnreportedTrialsBlock(c: Settings, b: Breaker, es: seq<Event>)
    requires b.phase == HalfOpen && b.halfOpenReqs <= c.halfOpenMaxRequests && NoReport(es)
    ensures var left := c.halfOpenMaxRequests - b.halfOpenReqs;
            var granted := if |es| < left then |es| else left;
            && Grants(c, b, es) == granted
            && Run(c, b, es) == b.(halfOpenReqs := b.halfOpenReqs + granted)
  {
    if es != [] {
      assert es[|es| - 1] in es;
      UnreportedTrialsBlock(c, b, es[..|es| - 1]);
    }
  }

  ghost predicate NoFailure(es: seq<Event>) {
    forall e :: e in es ==> !e.Failure?
  }

  lemma {:induction false} SuccessesMonotone(es: seq<Event>, k: nat)
    requires k <= |es|
    ensures Successes(es[..k]) <= Successes(es)
  {
    if k < |es| {
      SuccessesMonotone(es[..|es| - 1], k);
      assert es[..|es| - 1][..k] == es[..k];
    } else {
      assert es[..k] == es;
    }
  }

  /**
   Without failures, a half-open breaker is closed, with its counters at zero, exactly when enough successes
   have been reported in all, however they are interleaved with requests; until then it stays half-open.
   */
  lemma {:induction false} ClosesIff(c: Settings, b: Breaker, es: seq<Event>)
    requires c.Valid() && b.phase == HalfOpen && b.halfOpenSuccess < c.halfOpenSuccessThreshold && NoFailure(es)
    ensures var t := Run(c, b, es);
            var enough := b.halfOpenSuccess + Successes(es) >= c.halfOpenSuccessThreshold;
            && (enough ==> t.phase == Closed && t.failures == t.halfOpenReqs == t.halfOpenSuccess == 0)
            && (!enough ==> t.phase == HalfOpen && t.halfOpenSuccess == b.halfOpenSuccess + Successes(es))
  {
    if es != [] {
      assert es[|es| - 1] in es;
      assert NoFailure(es[..|es| - 1]);
      ClosesIff(c, b, es[..|es| - 1]);
    }
  }

  /** At every point no more successes were reported than trials granted. */
  ghost predicate Backed(c: Settings, b: Breaker, es: seq<Event>) {
    forall k :: 0 <= k <= |es| ==> Successes(es[..k]) <= Grants(c, b, es[..k])
  }

  /** Counts while an opened breaker, without failures, has not closed again. */
  lemma {:induction false} TrialCounts(c: Settings, b: Breaker, es: seq<Event>)
    requires c.Valid() && b.phase == Open && NoFailure(es)
    requires Backed(c, b, es) && c.halfOpenSuccessThreshold > c.halfOpenMaxRequests
    ensures var t := Run(c, b, es);
            && t.phase != Closed
            && (t.phase == Open ==> t == b && Grants(c, b, es) == 0)
            && (t.phase == HalfOpen ==> t.halfOpenSuccess <= Successes(es)
                                        && t.halfOpenReqs == Grants(c, b, es) <= c.halfOpenMaxRequests)
  {
    if es != [] {
      var rest := es[..|es| - 1];
      assert es[|es| - 1] in es;
      assert NoFailure(rest);
      assert forall k :: 0 <= k <= |rest| ==> rest[..k] == es[..k];
      assert es[..|es|] == es;
      TrialCounts(c, b, rest);
    }
  }

  /**
   An opened breaker, without failures and with no more successes reported than trials granted, is closed with
   its counters at zero exactly when the threshold of successes has been reported, whatever the schedule.
   */
  lemma {:induction false} RecoversAtThreshold(c: Settings, b: Breaker, es: seq<Event>)
    requires c.Valid() && b.phase == Open && NoFailure(es) && Backed(c, b, es)
    ensures var t := Run(c, b, es);
            var enough := Successes(es) >= c.halfOpenSuccessThreshold;
            && (t.phase == Closed <==> enough)
            && (t.phase == Closed ==> t == Breaker(Closed, 0, b.lastFailure, 0, 0, b.tripCount))
            && (t.phase == Open ==> t == b && Grants(c, b, es) == 0)
            && (t.phase == HalfOpen ==> t.halfOpenSuccess == Successes(es) && t.lastFailure == b.lastFailure
                                        && t.tripCount == b.tripCount)
  {
    assert es[..|es|] == es;
    if es != [] {
      var rest, e := es[..|es| - 1], es[|es| - 1];
      assert e in es;
      assert NoFailure(rest);
      assert forall k :: 0 <= k <= |rest| ==> rest[..k] == es[..k];
      RecoversAtThreshold(c, b, rest);
    }
  }

  /** `n` trials and then `n` successes. */
  function Trials(now: int, n: nat): (es: seq<Event>)
    ensures |es| == n && forall i :: 0 <= i < n ==> es[i] == CanExecute(now)
  {
    if n == 0 then [] else Trials(now, n - 1) + [CanExecute(now)]
  }

  function Reports(n: nat): (es: seq<Event>)
    ensures |es| == n && forall i :: 0 <= i < n ==> es[i] == Success
  {
    if n == 0 then [] else Reports(n - 1) + [Success]
  }

  lemma {:induction false} TrialsGranted(c: Settings, b: Breaker, now: int, n: nat)
    requires c.Valid() && Recovered(c, b, now) && n <= c.halfOpenMaxRequests
    ensures var t := Run(c, b, Trials(now, n));
            && Grants(c, b, Trials(now, n)) == n
            && Successes(Trials(now, n)) == 0
            && (n > 0 ==> t.phase == HalfOpen && t.halfOpenReqs == n && t.halfOpenSuccess == 0)
  {
    if n > 0 {
      TrialsGranted(c, b, now, n - 1);
      assert Trials(now, n)[..n - 1] == Trials(now, n - 1);
    }
  }

  lemma {:induction false} RunConcat(c: Settings, b: Breaker, es: seq<Event>, fs: seq<Event>)
    ensures Run(c, b, es + fs) == Run(c, Run(c, b, es), fs)
    ensures Successes(es + fs) == Successes(es) + Successes(fs)
    ensures Grants(c, b, es + fs) == Grants(c, b, es) + Grants(c, Run(c, b, es), fs)
  {
    if fs == [] {
      assert es + fs == es;
    } else {
      var rest := fs[..|fs| - 1];
      RunConcat(c, b, es, rest);
      assert (es + fs)[..|es + fs| - 1] == es + rest;
    }
  }

  lemma {:induction false} ReportsAreSuccesses(n: nat)
    ensures Successes(Reports(n)) == n
  {
    if n > 0 {
      ReportsAreSuccesses(n - 1);
      assert Reports(n)[..n - 1] == Reports(n - 1);
    }
  }

  /** With a threshold within the trial limit, that many trials, each reported as a success, close an opened breaker. */
  lemma TrialsClose(c: Settings, b: Breaker, now: int)
    requires c.Valid() && Recovered(c, b, now) && c.halfOpenSuccessThreshold <= c.halfOpenMaxRequests
    ensures var n := c.halfOpenSuccessThreshold;
            var t := Run(c, b, Trials(now, n) + Reports(n));
            t == Breaker(Closed, 0, b.lastFailure, 0, 0, b.tripCount) && Backed(c, b, Trials(now, n) + Reports(n))
  {
    var n: nat := c.halfOpenSuccessThreshold;
    var trials, reports := Trials(now, n), Reports(n);
    TrialsGranted(c, b, now, n);
    ReportsAreSuccesses(n);
    var mid := Run(c, b, trials);
    ClosesIff(c, mid, reports);
    RunConcat(c, b, trials, reports);
    NoFailureKeeps(c, b, trials + reports);
    TrialsBacked(c, b, now, n);
  }

  lemma BackedSoFar(c: Settings, b: Breaker, es: seq<Event>, fs: seq<Event>, k: nat)
    requires Successes(es) == 0 && Successes(fs) <= Grants(c, b, es) && k <= |es + fs|
    ensures Successes((es + fs)[..k]) <= Grants(c, b, (es + fs)[..k])
  {
    hide Run, Next, Granted, Grants, Successes;
    if k <= |es| {
      assert (es + fs)[..k] == es[..k];
      SuccessesMonotone(es, k);
    } else {
      assert (es + fs)[..k] == es + fs[..k - |es|];
      RunConcat(c, b, es, fs[..k - |es|]);
      SuccessesMonotone(fs, k - |es|);
    }
  }

  lemma TrialsBacked(c: Settings, b: Breaker, now: int, n: nat)
    requires c.Valid() && Recovered(c, b, now) && n <= c.halfOpenMaxRequests
    ensures Backed(c, b, Trials(now, n) + Reports(n))
  {
    var trials, reports := Trials(now, n), Reports(n);
    TrialsGranted(c, b, now, n);
    ReportsAreSuccesses(n);
    hide Run, Next, Granted, Grants, Successes, Trials, Reports, Recovered;
    forall k | 0 <= k <= |trials + reports|
      ensures Successes((trials + reports)[..k]) <= Grants(c, b, (trials + reports)[..k])
    {
      BackedSoFar(c, b, trials, reports, k);
    }
  }

  lemma {:induction false} NoFailureKeeps(c: Settings, b: Breaker, es: seq<Event>)
    requires NoFailure(es)
    ensures Run(c, b, es).tripCount == b.tripCount && Run(c, b, es).lastFailure == b.lastFailure
  {
    if es != [] {
      assert es[|es| - 1] in es;
      assert NoFailure(es[..|es| - 1]);
      NoFailureKeeps(c, b, es[..|es| - 1]);
    }
  }

  /**
   An opened breaker can be closed by successful trials alone exactly when the success threshold
   does not exceed the number of trials.
   */
  lemma RecoversFromTrialsIff(c: Settings, b: Breaker)
    requires c.Valid() && b.phase == Open && b.lastFailure.Some?
    ensures (exists es :: NoFailure(es) && Backed(c, b, es) && Run(c, b, es).phase == Closed)
            <==> c.halfOpenSuccessThreshold <= c.halfOpenMaxRequests
  {
    if c.halfOpenSuccessThreshold <= c.halfOpenMaxRequests {
      var now := b.lastFailure.value + c.recoveryTimeout;
      TrialsClose(c, b, now);
      var n: nat := c.halfOpenSuccessThreshold;
      var es := Trials(now, n) + Reports(n);
      assert NoFailure(es) && Backed(c, b, es) && Run(c, b, es).phase == Closed;
    } else if es :| NoFailure(es) && Backed(c, b, es) && Run(c, b, es).phase == Closed {
      TrialCounts(c, b, es);
    }
  }

  // ---------------------------------------------------------------- the breaker object

  lemma OpenHasFailed(c: Settings, es: seq<Event>)
    requires c.Valid()
    ensures Run(c, INITIAL, es).phase != Closed ==> Run(c, INITIAL, es).lastFailure.Some?
  {
    AlwaysAgrees(c, es);
  }

  class CircuitBreaker {
    const settings: Settings
    var state: Phase
    var failures: nat
    var lastFailureTime: Option<int>
    var halfOpenReqs: nat
    var halfOpenSuccess: nat
    var tripCount: nat
    /** All calls so far. */
    ghost var history: seq<Event>

    ghost function Now(): Breaker
      reads this
    {
      Breaker(state, failures, lastFailureTime, halfOpenReqs, halfOpenSuccess, tripCount)
    }

    ghost predicate Valid()
      reads this
    {
      settings.Valid() && Now() == Run(settings, INITIAL, history)
    }

    /** Settings that are zero or negative are replaced by the defaults. */
    constructor (s: Settings)
      ensures Valid() && history == []
      ensures Now() == Breaker(Closed, 0, None, 0, 0, 0)
      ensures s.Valid() ==> settings == s
      ensures settings.failureThreshold == (if s.failureThreshold <= 0 then 5 else s.failureThreshold)
      ensures settings.recoveryTimeout == (if s.recoveryTimeout <= 0 then 30_000_000_000 else s.recoveryTimeout)
      ensures settings.halfOpenMaxRequests == (if s.halfOpenMaxRequests <= 0 then 1 else s.halfOpenMaxRequests)
      ensures settings.halfOpenSuccessThreshold ==
            (if s.halfOpenSuccessThreshold <= 0 then 1 else s.halfOpenSuccessThreshold)
    {
      var t := s;
      if t.failureThreshold <= 0 { t := t.(failureThreshold := DEFAULTS.failureThreshold); }
      if t.recoveryTimeout <= 0 { t := t.(recoveryTimeout := DEFAULTS.recoveryTimeout); }
      if t.halfOpenMaxRequests <= 0 { t := t.(halfOpenMaxRequests := DEFAULTS.halfOpenMaxRequests); }
      if t.halfOpenSuccessThreshold <= 0 { t := t.(halfOpenSuccessThreshold := DEFAULTS.halfOpenSuccessThreshold); }
      settings := t;
      state, failures, lastFailureTime := Closed, 0, None;
      halfOpenReqs, halfOpenSuccess, tripCount := 0, 0, 0;
      history := [];
    }

    method CanExecute(now: int) returns (permitted: bool)
      requires Valid()
      modifies this
      ensures Valid() && history == old(history) + [Event.CanExecute(now)]
      ensures permitted == Granted(settings, old(Now()), Event.CanExecute(now))
      ensures old(state) == Closed ==> permitted && Now() == old(Now())
      ensures old(state) == Open ==>
                && old(lastFailureTime).Some?
                && permitted == (now - old(lastFailureTime).value >= settings.recoveryTimeout)
                && Now() == if !permitted then old(Now())
                            else Breaker(HalfOpen, old(failures), old(lastFailureTime), 1, 0, old(tripCount))
      ensures old(state) == HalfOpen ==>
                && permitted == (old(halfOpenReqs) < settings.halfOpenMaxRequests)
                && Now() == old(Now()).(halfOpenReqs := old(halfOpenReqs) + if permitted then 1 else 0)
    {
      OpenHasFailed(settings, history);
      RunNext(settings, INITIAL, history, Event.CanExecute(now));
      hide Run;
      history := history + [Event.CanExecute(now)];
      if state == Open {
        if now - lastFailureTime.value >= settings.recoveryTimeout {
          state := HalfOpen;
          halfOpenReqs := 0;
          halfOpenSuccess := 0;
        } else {
          return false;
        }
      }
      if state == HalfOpen {
        if halfOpenReqs < settings.halfOpenMaxRequests {
          halfOpenReqs := halfOpenReqs + 1;
          return true;
        }
        return false;
      }
      return true;
    }

    method RecordSuccess()
      requires Valid()
      modifies this
      ensures Valid() && history == old(history) + [Success]
      ensures old(state) == Closed ==> Now() == old(Now()).(failures := 0)
      ensures old(state) == Open ==> Now() == old(Now())
      ensures old(state) == HalfOpen ==>
                Now() == if old(halfOpenSuccess) + 1 < settings.halfOpenSuccessThreshold then
                           old(Now()).(halfOpenSuccess := old(halfOpenSuccess) + 1)
                         else Breaker(Closed, 0, old(lastFailureTime), 0, 0, old(tripCount))
    {
      RunNext(settings, INITIAL, history, Success);
      hide Run;
      history := history + [Success];
      match state
      case Closed => failures := 0;
      case HalfOpen =>
        halfOpenSuccess := halfOpenSuccess + 1;
        if halfOpenSuccess >= settings.halfOpenSuccessThreshold {
          state := Closed;
          failures := 0;
          halfOpenReqs := 0;
          halfOpenSuccess := 0;
        }
      case Open =>
    }

    method RecordFailure(now: int)
      requires Valid()
      modifies this
      ensures Valid() && history == old(history) + [Failure(now)]
      ensures lastFailureTime == Some(now)
      ensures old(state) == Closed ==>
                && failures == old(failures) + 1
                && halfOpenReqs == old(halfOpenReqs) && halfOpenSuccess == old(halfOpenSuccess)
                && (if failures < settings.failureThreshold then state == Closed && tripCount == old(tripCount)
                    else state == Open && tripCount == old(tripCount) + 1)
      ensures old(state) == Open ==> Now() == old(Now()).(lastFailure := Some(now))
      ensures old(state) == HalfOpen ==>
                Now() == Breaker(Open, old(failures), Some(now), 0, 0, old(tripCount) + 1)
    {
      RunNext(settings, INITIAL, history, Failure(now));
      hide Run;
      history := history + [Failure(now)];
      lastFailureTime := Some(now);
      match state
      case Closed =>
        failures := failures + 1;
        if failures >= settings.failureThreshold {
          state := Open;
          tripCount := tripCount + 1;
        }
      case HalfOpen =>
        state := Open;
        halfOpenReqs := 0;
        halfOpenSuccess := 0;
        tripCount := tripCount + 1;
      case Open =>
    }
  }
}
