/**
 Export of telemetry events: batches, short-circuit on failure, a queue on disk, retries
 (internal/platform/analytics/firstpartyeventloggingexporter.go). Steps run one after another.
 */
module EventExporter {
  import opened Grouping
  import opened Wrappers

  datatype Event = Event(eventType: string, eventData: string)

  /** How a batch fares; the last one: it is accepted, and the context is cancelled in the pause after it. */
  datatype Reply = Accepted | Refused | AcceptedThenCancelled

  // ---------------------------------------------------------------- chunks

  /** Consecutive chunks of `size` events, the last one possibly shorter; one chunk when the size is not positive. */
  function Chunks<T>(events: seq<T>, size: int): seq<seq<T>>
    decreases |events|
  {
    if size <= 0 then [events]
    else if events == [] then []
    else if |events| <= size then [events]
    else [events[..size]] + Chunks(events[size..], size)
  }

  /** The chunks re-join to the events; none is empty or too long, and all but the last are full. */
  lemma {:induction false} ChunksPartition<T>(events: seq<T>, size: int)
    ensures Flatten(Chunks(events, size)) == events
    ensures size <= 0 ==> Chunks(events, size) == [events]
    ensures size > 0 ==>
              && (forall i :: 0 <= i < |Chunks(events, size)| ==> 0 < |Chunks(events, size)[i]| <= size)
              && (forall i :: 0 <= i < |Chunks(events, size)| - 1 ==> |Chunks(events, size)[i]| == size)
    decreases |events|
  {
    if 0 < size < |events| {
      ChunksPartition(events[size..], size);
      FlattenFirst(events[..size], Chunks(events[size..], size));
    } else if events != [] || size <= 0 {
      FlattenFirst(events, []);
      assert [events] + [] == [events];
    }
  }

  method ChunkEvents<T>(events: seq<T>, size: int) returns (chunks: seq<seq<T>>)
    ensures chunks == Chunks(events, size)
  {
    if size <= 0 { return [events]; }
    chunks := [];
    var i := 0;
    assert events[0..] == events;
    ChunksOfNothing<T>(size);
    hide Chunks;
    while i < |events|
      invariant 0 <= i <= |events|
      invariant Chunks(events, size) == chunks + Chunks(events[i..], size)
    {
      var end := if i + size < |events| then i + size else |events|;
      ChunksAt(events, size, i, end);
      Associative(chunks, [events[i..end]], Chunks(events[end..], size));
      chunks := chunks + [events[i..end]];
      i := end;
    }
    assert events[i..] == [];
  }

  lemma ChunksOfNothing<T>(size: int)
    requires size > 0
    ensures Chunks<T>([], size) == []
  {
  }

  lemma ChunksAt<T>(events: seq<T>, size: int, i: nat, end: nat)
    requires i < |events| && size > 0 && end == if i + size < |events| then i + size else |events|
    ensures Chunks(events[i..], size) == [events[i..end]] + Chunks(events[end..], size)
  {
    ChunksStep(events[i..], size, end - i);
    assert events[i..][..end - i] == events[i..end] && events[i..][end - i..] == events[end..];
  }

  lemma ChunksStep<T>(events: seq<T>, size: int, n: nat)
    requires events != [] && size > 0 && n == if size < |events| then size else |events|
    ensures Chunks(events, size) == [events[..n]] + Chunks(events[n..], size)
  {
    if |events| <= size {
      assert events[..n] == events && events[n..] == [];
      assert [events] + [] == [events];
    }
  }

  lemma SliceNext<T>(xs: seq<T>, i: nat, j: nat)
    requires i <= j < |xs|
    ensures xs[i..j + 1] == xs[i..j] + [xs[j]]
  {
  }

  lemma FlattenNothing()
    ensures Flatten<Event>([]) == []
  {
  }

  // ---------------------------------------------------------------- sending

  /** Where the events of one send end up. */
  datatype Sent = Sent(accepted: seq<Event>, failed: seq<Event>, lost: seq<Event>)

  /** Sends the chunks from the i-th on, stopping at the first that is refused or followed by a cancellation. */
  function SendFrom(chunks: seq<seq<Event>>, replies: nat -> Reply, i: nat): Sent
    requires i <= |chunks|
    decreases |chunks| - i
  {
    if i == |chunks| then Sent([], [], [])
    else
      match replies(i)
      case Refused => Sent([], Flatten(chunks[i..]), [])
      case AcceptedThenCancelled =>
        if i < |chunks| - 1 then Sent(chunks[i], [], Flatten(chunks[i + 1..])) else Sent(chunks[i], [], [])
      case Accepted =>
        var rest := SendFrom(chunks, replies, i + 1);
        Sent(chunks[i] + rest.accepted, rest.failed, rest.lost)
  }

  function Send(events: seq<Event>, size: int, replies: nat -> Reply): Sent {
    SendFrom(Chunks(events, size), replies, 0)
  }

  /** The chunks from the i-th to the k-th are accepted, the k-th is not the last, and then the context is cancelled. */
  ghost predicate CutAfter(n: nat, replies: nat -> Reply, i: nat, k: nat) {
    i <= k < n - 1 && replies(k) == AcceptedThenCancelled && forall j: nat :: i <= j < k ==> replies(j) == Accepted
  }

  /** The context is cancelled in the pause after some chunk that is not the last, with all chunks up to it accepted. */
  ghost predicate CutShort(n: nat, replies: nat -> Reply, i: nat) {
    exists k: nat :: CutAfter(n, replies, i, k)
  }

  lemma {:induction false} SendFromConserves(chunks: seq<seq<Event>>, replies: nat -> Reply, i: nat)
    requires i <= |chunks|
    ensures var s := SendFrom(chunks, replies, i);
            s.accepted + s.failed + s.lost == Flatten(chunks[i..]) && (s.failed == [] || s.lost == [])
    decreases |chunks| - i
  {
    if i < |chunks| {
      assert chunks[i..] == [chunks[i]] + chunks[i + 1..];
      FlattenFirst(chunks[i], chunks[i + 1..]);
      if replies(i) == Accepted {
        SendFromConserves(chunks, replies, i + 1);
        var rest := SendFrom(chunks, replies, i + 1);
        hide SendFrom, Flatten;
        Regroup(chunks[i], rest.accepted, rest.failed, rest.lost);
      } else if i == |chunks| - 1 {
        assert chunks[i + 1..] == [];
      }
    }
  }

  lemma Regroup<T>(a: seq<T>, b: seq<T>, c: seq<T>, d: seq<T>)
    ensures (a + b) + c + d == a + (b + c + d)
  {
  }

  lemma {:induction false} FlattenEmpty<T>(gs: seq<seq<T>>)
    requires forall i :: 0 <= i < |gs| ==> gs[i] != []
    ensures Flatten(gs) == [] <==> gs == []
  {
  }

  lemma {:induction false} LostIffCutShort(chunks: seq<seq<Event>>, replies: nat -> Reply, i: nat)
    requires i <= |chunks| && forall k :: 0 <= k < |chunks| ==> chunks[k] != []
    ensures SendFrom(chunks, replies, i).lost != [] <==> CutShort(|chunks|, replies, i)
    decreases |chunks| - i
  {
    if i < |chunks| {
      match replies(i)
      case Refused =>
      case AcceptedThenCancelled =>
        if i < |chunks| - 1 {
          FlattenEmpty(chunks[i + 1..]);
          assert CutAfter(|chunks|, replies, i, i);
        }
      case Accepted =>
        LostIffCutShort(chunks, replies, i + 1);
        if CutShort(|chunks|, replies, i + 1) {
          var k: nat :| CutAfter(|chunks|, replies, i + 1, k);
          assert CutAfter(|chunks|, replies, i, k);
        }
        if CutShort(|chunks|, replies, i) {
          var k: nat :| CutAfter(|chunks|, replies, i, k);
          assert CutAfter(|chunks|, replies, i + 1, k);
        }
    }
  }

  /**
   Accepted events followed by failed ones are the events sent, in order, exactly when the send is not cut
   short by a cancellation; otherwise what is left is neither accepted nor reported as failed.
   */
  lemma SendConservesIff(events: seq<Event>, size: int, replies: nat -> Reply)
    requires size > 0
    ensures var s := Send(events, size, replies);
            && s.accepted + s.failed + s.lost == events
            && (s.accepted + s.failed == events <==> !CutShort(|Chunks(events, size)|, replies, 0))
            && (s.lost != [] ==> s.failed == [])
  {
    var chunks, s := Chunks(events, size), Send(events, size, replies);
    ChunksPartition(events, size);
    assert chunks[0..] == chunks;
    SendFromConserves(chunks, replies, 0);
    LostIffCutShort(chunks, replies, 0);
    assert |s.accepted + s.failed| + |s.lost| == |events|;
  }

  /** The chunks from the i-th to the k-th are accepted, and the k-th is the first that is not just accepted. */
  ghost predicate StopsAt(n: nat, replies: nat -> Reply, i: nat, k: nat) {
    i <= k <= n && (forall j: nat :: i <= j < k ==> replies(j) == Accepted) && (k < n ==> replies(k) != Accepted)
  }

  lemma {:induction false} SendFromStops(chunks: seq<seq<Event>>, replies: nat -> Reply, i: nat) returns (k: nat)
    requires i <= |chunks|
    ensures StopsAt(|chunks|, replies, i, k)
    ensures SendFrom(chunks, replies, i) ==
            if k == |chunks| then Sent(Flatten(chunks[i..]), [], [])
            else if replies(k) == Refused then Sent(Flatten(chunks[i..k]), Flatten(chunks[k..]), [])
            else Sent(Flatten(chunks[i..k + 1]), [], Flatten(chunks[k + 1..]))
    decreases |chunks| - i
  {
    hide Flatten;
    FlattenNothing();
    if i == |chunks| {
      k := i;
      assert chunks[i..] == [];
    } else if replies(i) == Accepted {
      k := SendFromStops(chunks, replies, i + 1);
      if k == |chunks| {
        FlattenFrom(chunks, i, |chunks|);
      } else if replies(k) == Refused {
        FlattenFrom(chunks, i, k);
      } else {
        FlattenFrom(chunks, i, k + 1);
      }
    } else {
      k := i;
      FlattenFrom(chunks, i, i + 1);
      assert chunks[i..i] == [] && chunks[i + 1..i + 1] == [] && chunks[i] + [] == chunks[i];
      if i == |chunks| - 1 { assert chunks[i + 1..] == []; }
    }
  }

  lemma FlattenFrom(chunks: seq<seq<Event>>, i: nat, k: nat)
    requires i < k <= |chunks|
    ensures Flatten(chunks[i..k]) == chunks[i] + Flatten(chunks[i + 1..k])
    ensures k == |chunks| ==> chunks[i..k] == chunks[i..] && chunks[i + 1..k] == chunks[i + 1..]
  {
    assert chunks[i..k] == [chunks[i]] + chunks[i + 1..k];
    FlattenFirst(chunks[i], chunks[i + 1..k]);
  }

  /**
   A send stops at the first chunk that is not just accepted: if that is refused, it and all later ones have failed;
   if the context is cancelled after it, it is accepted and the later ones are neither accepted nor failed.
   */
  lemma SendIs(events: seq<Event>, size: int, replies: nat -> Reply) returns (k: nat)
    ensures var chunks := Chunks(events, size);
            && StopsAt(|chunks|, replies, 0, k)
            && Send(events, size, replies) ==
               if k == |chunks| then Sent(events, [], [])
               else if replies(k) == Refused then Sent(Flatten(chunks[..k]), Flatten(chunks[k..]), [])
               else Sent(Flatten(chunks[..k + 1]), [], Flatten(chunks[k + 1..]))
  {
    var chunks := Chunks(events, size);
    k := SendFromStops(chunks, replies, 0);
    ChunksPartition(events, size);
    assert chunks[0..] == chunks;
  }

  /** A send has no error exactly when everything was accepted, and an error without failed events when cut short. */
  lemma SendAnswers(events: seq<Event>, size: int, replies: nat -> Reply)
    requires size > 0
    ensures var s := Send(events, size, replies);
            && (s.failed == [] && s.lost == [] <==> s.accepted == events)
            && (s.lost != [] <==> CutShort(|Chunks(events, size)|, replies, 0))
            && (s.lost != [] ==> s.failed == [])
  {
    SendConservesIff(events, size, replies);
    var s := Send(events, size, replies);
    hide Send, Chunks;
    assert |s.accepted + s.failed + s.lost| == |s.accepted| + |s.failed| + |s.lost|;
    assert |s.accepted + s.failed| == |s.accepted| + |s.failed|;
    if s.failed == [] && s.lost == [] { assert s.accepted + [] + [] == s.accepted; }
    if s.lost == [] { assert s.accepted + s.failed + [] == s.accepted + s.failed; }
  }

  lemma AddedIff(log: seq<Event>, more: seq<Event>, events: seq<Event>)
    ensures log + more == log + events <==> more == events
  {
    assert (log + more)[|log|..] == more && (log + events)[|log|..] == events;
  }

  // ---------------------------------------------------------------- runs

  /** `queue` is the file on disk; the four logs record where events have gone. */
  datatype State = State(
    attempts: nat,
    queue: seq<Event>,
    shut: bool,
    accepted: seq<Event>,
    dropped: seq<Event>,
    refused: seq<Event>,
    lost: seq<Event>
  )

  const START := State(0, [], false, [], [], [], [])

  datatype Settings = Settings(maxBatchSize: int, maxAttempts: int)
  {
    predicate Valid() { maxBatchSize > 0 && maxAttempts > 0 }
  }

  datatype Action =
    | Export(events: seq<Event>, killed: bool, replies: nat -> Reply)
    | Retry(sends: nat -> bool)
    | Shutdown

  /** A retry is never cancelled. */
  function Uncancelled(sends: nat -> bool): nat -> Reply {
    (i: nat) => if sends(i) then Accepted else Refused
  }

  function Exported(c: Settings, s: State, events: seq<Event>, killed: bool, replies: nat -> Reply): State {
    if s.shut then s.(refused := s.refused + events)
    else if events == [] then s
    else if s.attempts >= c.maxAttempts then s.(dropped := s.dropped + events)
    else if killed then s.(queue := s.queue + events)
    else
      var sent := Send(events, c.maxBatchSize, replies);
      s.(queue := s.queue + sent.failed, accepted := s.accepted + sent.accepted, lost := s.lost + sent.lost,
         attempts := if sent.failed == [] then 0 else s.attempts)
  }

  function Retried(c: Settings, s: State, sends: nat -> bool): State {
    if s.shut || s.queue == [] then s
    else if s.attempts >= c.maxAttempts then s.(attempts := 0, queue := [], dropped := s.dropped + s.queue)
    else
      var sent := Send(s.queue, c.maxBatchSize, Uncancelled(sends));
      s.(queue := sent.failed, accepted := s.accepted + sent.accepted, lost := s.lost + sent.lost,
         attempts := if sent.failed == [] then 0 else s.attempts + 1)
  }

  function Step(c: Settings, s: State, a: Action): State {
    match a
    case Export(events, killed, replies) => Exported(c, s, events, killed, replies)
    case Retry(sends) => Retried(c, s, sends)
    case Shutdown => s.(shut := true, attempts := 0)
  }

  function Run(c: Settings, acts: seq<Action>): State {
    if acts == [] then START else Step(c, Run(c, acts[..|acts| - 1]), acts[|acts| - 1])
  }

  function Offered(acts: seq<Action>): seq<Event> {
    if acts == [] then []
    else
      var a := acts[|acts| - 1];
      Offered(acts[..|acts| - 1]) + (if a.Export? then a.events else [])
  }

  /** Everything an exporter has been given, wherever it is now. */
  function Held(s: State): multiset<Event> {
    multiset(s.accepted) + multiset(s.queue) + multiset(s.dropped) + multiset(s.refused) + multiset(s.lost)
  }

  lemma SentSplits(events: seq<Event>, size: int, replies: nat -> Reply)
    requires size > 0
    ensures var s := Send(events, size, replies);
            multiset(events) == multiset(s.accepted) + multiset(s.failed) + multiset(s.lost)
  {
    SendConservesIff(events, size, replies);
    var s := Send(events, size, replies);
    assert events == s.accepted + s.failed + s.lost;
  }

  lemma HeldIgnoresAttempts(s: State, attempts: nat, shut: bool)
    ensures Held(s.(attempts := attempts, shut := shut)) == Held(s)
  {
  }

  lemma ExportHolds(c: Settings, s: State, events: seq<Event>, killed: bool, replies: nat -> Reply)
    requires c.Valid()
    ensures Held(Exported(c, s, events, killed, replies)) == Held(s) + multiset(events)
  {
    if !s.shut && events != [] && s.attempts < c.maxAttempts && !killed {
      SentSplits(events, c.maxBatchSize, replies);
      var sent := Send(events, c.maxBatchSize, replies);
      var t := Exported(c, s, events, killed, replies);
      assert t.queue == s.queue + sent.failed;
      assert t.accepted == s.accepted + sent.accepted && t.lost == s.lost + sent.lost;
      hide Send, Exported;
      assert multiset(t.queue) == multiset(s.queue) + multiset(sent.failed);
      assert multiset(t.accepted) == multiset(s.accepted) + multiset(sent.accepted);
      assert multiset(t.lost) == multiset(s.lost) + multiset(sent.lost);
    }
  }

  lemma RetryHolds(c: Settings, s: State, sends: nat -> bool)
    requires c.Valid()
    ensures Held(Retried(c, s, sends)) == Held(s)
  {
    SentSplits(s.queue, c.maxBatchSize, Uncancelled(sends));
    hide Send;
  }

  lemma StepHolds(c: Settings, s: State, a: Action)
    requires c.Valid()
    ensures Held(Step(c, s, a)) == Held(s) + multiset(if a.Export? then a.events else [])
  {
    match a
    case Export(events, killed, replies) =>
      hide Held, Exported;
      ExportHolds(c, s, events, killed, replies);
    case Retry(sends) =>
      hide Held, Retried;
      RetryHolds(c, s, sends);
    case Shutdown =>
      HeldIgnoresAttempts(s, 0, true);
      hide Held;
  }

  /** Over every run each event given to the exporter is in exactly one place, as often as it was given. */
  lemma {:induction false} EventsAreConserved(c: Settings, acts: seq<Action>)
    requires c.Valid()
    ensures Held(Run(c, acts)) == multiset(Offered(acts))
  {
    if acts != [] {
      EventsAreConserved(c, acts[..|acts| - 1]);
      StepHolds(c, Run(c, acts[..|acts| - 1]), acts[|acts| - 1]);
    }
  }

  // ---------------------------------------------------------------- where each step leaves the events

  /** `after` is `before` with more at the end. */
  ghost predicate Adds(before: seq<Event>, more: seq<Event>, after: seq<Event>) {
    after == before + more
  }

  /**
   With the k-th chunk the first that is not just accepted: all before it are accepted; if it is refused, it and all
   later ones have failed; if the context is cancelled after it, it is accepted too and the later ones are not sent.
   */
  ghost predicate EndUp(events: seq<Event>, chunks: seq<seq<Event>>, replies: nat -> Reply, k: nat,
        accepted: seq<Event>, failed: seq<Event>, unsent: seq<Event>) {
    && StopsAt(|chunks|, replies, 0, k)
    && accepted + failed + unsent == events
    && (if k == |chunks| then failed == unsent == []
        else if replies(k) == Refused then accepted == Flatten(chunks[..k]) && unsent == []
        else accepted == Flatten(chunks[..k + 1]) && failed == [])
  }

  lemma SendEndsUp(events: seq<Event>, size: int, replies: nat -> Reply) returns (k: nat)
    requires size > 0
    ensures var sent := Send(events, size, replies);
            EndUp(events, Chunks(events, size), replies, k, sent.accepted, sent.failed, sent.lost)
  {
    k := SendIs(events, size, replies);
    SendConservesIff(events, size, replies);
  }

  /**
   Where an export leaves its events: refused after shutdown, dropped when the attempts are used up, queued under the
   kill switch; otherwise first those that are accepted, then those that are queued, and nothing is dropped.
   */
  ghost predicate ExportLeaves(c: Settings, s: State, events: seq<Event>, killed: bool, replies: nat -> Reply,
        t: State) {
    if s.shut then t == s.(refused := s.refused + events)
    else if events == [] then t == s
    else if s.attempts >= c.maxAttempts then t == s.(dropped := s.dropped + events)
    else if killed then t == s.(queue := s.queue + events)
    else exists k, accepted, failed, unsent ::
      && EndUp(events, Chunks(events, c.maxBatchSize), replies, k, accepted, failed, unsent)
      && Adds(s.accepted, accepted, t.accepted) && Adds(s.queue, failed, t.queue) && Adds(s.lost, unsent, t.lost)
      && t.dropped == s.dropped && t.refused == s.refused && !t.shut
      && (unsent != [] <==> CutShort(|Chunks(events, c.maxBatchSize)|, replies, 0))
      && (unsent != [] ==> failed == [])
      && t.attempts == if failed == [] then 0 else s.attempts
  }

  lemma ExportLeavesEvents(c: Settings, s: State, events: seq<Event>, killed: bool, replies: nat -> Reply)
    requires c.Valid()
    ensures ExportLeaves(c, s, events, killed, replies, Exported(c, s, events, killed, replies))
  {
    hide Send, Chunks;
    SendConservesIff(events, c.maxBatchSize, replies);
    SendAnswers(events, c.maxBatchSize, replies);
    var sent, t := Send(events, c.maxBatchSize, replies), Exported(c, s, events, killed, replies);
    var k := SendEndsUp(events, c.maxBatchSize, replies);
    hide EndUp;
    if !s.shut && events != [] && s.attempts < c.maxAttempts && !killed {
      assert Adds(s.accepted, sent.accepted, t.accepted) && Adds(s.queue, sent.failed, t.queue);
      assert Adds(s.lost, sent.lost, t.lost);
    }
  }

  lemma RetryLosesNothing(c: Settings, events: seq<Event>, sends: nat -> bool)
    requires c.Valid()
    ensures Send(events, c.maxBatchSize, Uncancelled(sends)).lost == []
  {
    SendConservesIff(events, c.maxBatchSize, Uncancelled(sends));
  }

  /**
   Where a retry leaves the queue: untouched after shutdown, all dropped when the attempts are used up; otherwise the
   first part is accepted and the rest stays queued, one more attempt being counted unless nothing is left.
   */
  ghost predicate RetryLeaves(c: Settings, s: State, sends: nat -> bool, t: State) {
    if s.shut || s.queue == [] then t == s
    else if s.attempts >= c.maxAttempts then t == s.(queue := [], dropped := s.dropped + s.queue, attempts := 0)
    else exists k: nat, accepted ::
      && ResentUpTo(Chunks(s.queue, c.maxBatchSize), sends, k, accepted)
      && Adds(s.accepted, accepted, t.accepted) && accepted + t.queue == s.queue
      && t == s.(accepted := t.accepted, queue := t.queue,
                 attempts := if t.queue == [] then 0 else s.attempts + 1)
  }

  /** The first `k` chunks can be sent, the next one cannot, and these are their events. */
  ghost predicate ResentUpTo(chunks: seq<seq<Event>>, sends: nat -> bool, k: nat, accepted: seq<Event>) {
    && k <= |chunks| && (forall j: nat :: j < k ==> sends(j)) && (k < |chunks| ==> !sends(k))
    && accepted == Flatten(chunks[..k])
  }

  lemma ResentAre(events: seq<Event>, size: int, sends: nat -> bool) returns (k: nat)
    requires size > 0
    ensures ResentUpTo(Chunks(events, size), sends, k, Send(events, size, Uncancelled(sends)).accepted)
  {
    k := SendIs(events, size, Uncancelled(sends));
    ChunksPartition(events, size);
    var chunks := Chunks(events, size);
    assert chunks[..|chunks|] == chunks;
    forall j: nat | j < k
      ensures sends(j)
    {
      assert Uncancelled(sends)(j) == Accepted;
    }
  }

  lemma RetryLeavesEvents(c: Settings, s: State, sends: nat -> bool)
    requires c.Valid()
    ensures RetryLeaves(c, s, sends, Retried(c, s, sends))
  {
    hide Send;
    var sent, t := Send(s.queue, c.maxBatchSize, Uncancelled(sends)), Retried(c, s, sends);
    SendConservesIff(s.queue, c.maxBatchSize, Uncancelled(sends));
    RetryLosesNothing(c, s.queue, sends);
    assert s.lost + [] == s.lost && sent.accepted + sent.failed + [] == sent.accepted + sent.failed;
    if !s.shut && s.queue != [] && s.attempts < c.maxAttempts {
      var k := ResentAre(s.queue, c.maxBatchSize, sends);
      hide ResentUpTo;
      assert Adds(s.accepted, sent.accepted, t.accepted);
    }
  }

  /** Events are dropped only by a step that finds the attempts used up, and refused only after shutdown. */
  lemma DroppedOnlyAtLimit(c: Settings, s: State, a: Action)
    requires c.Valid()
    ensures Step(c, s, a).dropped != s.dropped ==> s.attempts >= c.maxAttempts && !s.shut
    ensures Step(c, s, a).refused != s.refused ==> s.shut && a.Export?
  {
    hide Exported, Retried;
    match a
    case Export(events, killed, replies) => ExportLeavesEvents(c, s, events, killed, replies);
    case Retry(sends) => RetryLeavesEvents(c, s, sends);
    case Shutdown =>
  }

  /** Before no step of the run are the attempts used up. */
  ghost predicate NeverAtLimit(c: Settings, acts: seq<Action>) {
    forall i :: 0 <= i < |acts| ==> Run(c, acts[..i]).attempts < c.maxAttempts
  }

  lemma NeverAtLimitNext(c: Settings, acts: seq<Action>, a: Action)
    requires NeverAtLimit(c, acts + [a])
    ensures NeverAtLimit(c, acts) && Run(c, acts).attempts < c.maxAttempts
  {
    var all := acts + [a];
    assert all[..|acts|] == acts;
    hide Step;
    forall i | 0 <= i < |acts|
      ensures Run(c, acts[..i]).attempts < c.maxAttempts
    {
      assert all[..i] == acts[..i];
    }
  }

  /** Over every run nothing is dropped unless some step finds the attempts used up. */
  lemma {:induction false} NothingDroppedBelowLimit(c: Settings, acts: seq<Action>)
    requires c.Valid() && NeverAtLimit(c, acts)
    ensures Run(c, acts).dropped == []
  {
    if acts != [] {
      var rest, a := acts[..|acts| - 1], acts[|acts| - 1];
      assert rest + [a] == acts;
      hide NeverAtLimit, Step;
      NeverAtLimitNext(c, rest, a);
      NothingDroppedBelowLimit(c, rest);
      DroppedOnlyAtLimit(c, Run(c, rest), a);
    }
  }

  /** No export of the run is cut short. */
  ghost predicate NoneCutShort(c: Settings, acts: seq<Action>) {
    forall a :: a in acts && a.Export? ==> !CutShort(|Chunks(a.events, c.maxBatchSize)|, a.replies, 0)
  }

  /** In this state the export sends its events, and is cut short. */
  ghost predicate Loses(c: Settings, s: State, a: Action) {
    && a.Export? && !s.shut && s.attempts < c.maxAttempts && !a.killed
    && CutShort(|Chunks(a.events, c.maxBatchSize)|, a.replies, 0)
  }

  lemma LosesIff(c: Settings, s: State, a: Action)
    requires c.Valid()
    ensures |Step(c, s, a).lost| >= |s.lost|
    ensures Step(c, s, a).lost == s.lost <==> !Loses(c, s, a)
  {
    match a
    case Export(events, _, replies) =>
      SendConservesIff(events, c.maxBatchSize, replies);
      var sent := Send(events, c.maxBatchSize, replies);
      assert |sent.accepted + sent.failed + sent.lost| == |sent.accepted + sent.failed| + |sent.lost|;
      assert s.lost + [] == s.lost;
    case Retry(sends) =>
      RetryLosesNothing(c, s.queue, sends);
      assert s.lost + [] == s.lost;
    case Shutdown =>
  }

  ghost predicate NoneLoses(c: Settings, acts: seq<Action>) {
    forall i :: 0 <= i < |acts| ==> !Loses(c, Run(c, acts[..i]), acts[i])
  }

  lemma NoneLosesNext(c: Settings, acts: seq<Action>, a: Action)
    ensures Run(c, acts + [a]) == Step(c, Run(c, acts), a)
    ensures NoneLoses(c, acts + [a]) <==> NoneLoses(c, acts) && !Loses(c, Run(c, acts), a)
  {
    var all := acts + [a];
    assert all[..|acts|] == acts && all[|acts|] == a;
    hide Loses, Step;
    assert forall i :: 0 <= i < |acts| ==> all[..i] == acts[..i] && all[i] == acts[i];
  }

  /** Nothing is lost in a run exactly when no export of it that sends its events is cut short. */
  lemma {:induction false} NothingIsLostIff(c: Settings, acts: seq<Action>)
    requires c.Valid()
    ensures Run(c, acts).lost == [] <==> NoneLoses(c, acts)
  {
    assert Run(c, []) == START;
    hide Loses, NoneLoses, Step, Run;
    if acts == [] {
      NoneLosesOfNone(c);
    } else {
      var rest, a := acts[..|acts| - 1], acts[|acts| - 1];
      assert acts == rest + [a];
      NothingIsLostIff(c, rest);
      NoneLosesNext(c, rest, a);
      LosesIff(c, Run(c, rest), a);
    }
  }

  lemma NoneLosesOfNone(c: Settings)
    ensures NoneLoses(c, [])
  {
  }

  /** So without exports cut short, nothing is ever lost. */
  lemma NothingIsLost(c: Settings, acts: seq<Action>)
    requires c.Valid() && NoneCutShort(c, acts)
    ensures Run(c, acts).lost == []
  {
    NothingIsLostIff(c, acts);
    forall i | 0 <= i < |acts|
      ensures !Loses(c, Run(c, acts[..i]), acts[i])
    {
      assert acts[i] in acts;
    }
  }

  /**
   The count of attempts never exceeds its limit, and is positive only while something is queued: so an exporter
   that drops what it is given always has a retry ahead that resets the count, unless it is shut down.
   */
  lemma {:induction false} AttemptsAreBounded(c: Settings, acts: seq<Action>)
    requires c.Valid()
    ensures Run(c, acts).attempts <= c.maxAttempts
    ensures Run(c, acts).attempts > 0 ==> Run(c, acts).queue != [] && !Run(c, acts).shut
  {
    if acts != [] {
      AttemptsAreBounded(c, acts[..|acts| - 1]);
      hide Send;
    }
  }

  /**
   Corollary of AttemptsAreBounded: queued events are given up only by a retry that finds the limit of attempts
   reached; then all of them are.
   */
  lemma GivesUpIff(c: Settings, acts: seq<Action>, sends: nat -> bool)
    requires c.Valid() && Run(c, acts).queue != [] && !Run(c, acts).shut
    ensures var s := Run(c, acts);
            var t := Retried(c, s, sends);
            && (t.dropped != s.dropped <==> s.attempts == c.maxAttempts)
            && (t.dropped != s.dropped ==> t.dropped == s.dropped + s.queue && t.queue == [] && t.attempts == 0)
  {
    AttemptsAreBounded(c, acts);
    var s := Run(c, acts);
    assert |s.dropped + s.queue| > |s.dropped|;
  }

  // ---------------------------------------------------------------- the exporter object

  class Exporter {
    const settings: Settings
    var attempts: nat
    var queue: seq<Event>
    var shutdown: bool
    ghost var accepted: seq<Event>
    ghost var dropped: seq<Event>
    ghost var refused: seq<Event>
    ghost var lost: seq<Event>

    ghost function Now(): State
      reads this
    {
      State(attempts, queue, shutdown, accepted, dropped, refused, lost)
    }

    constructor (maxBatchSize: int, maxAttempts: int)
      ensures settings ==
              Settings(if maxBatchSize <= 0 then 200 else maxBatchSize, if maxAttempts <= 0 then 8 else maxAttempts)
      ensures Now() == START && attempts == 0 && queue == [] && !shutdown
    {
      settings :=
        Settings(if maxBatchSize <= 0 then 200 else maxBatchSize, if maxAttempts <= 0 then 8 else maxAttempts);
      attempts, queue, shutdown := 0, [], false;
      accepted, dropped, refused, lost := [], [], [], [];
    }

    method SendEventsInBatches(events: seq<Event>, replies: nat -> Reply)
      returns (failed: seq<Event>, ok: bool)
      requires settings.Valid()
      ensures failed == Send(events, settings.maxBatchSize, replies).failed
      ensures ok <==> failed == [] && Send(events, settings.maxBatchSize, replies).lost == []
    {
      var batches := ChunkEvents(events, settings.maxBatchSize);
      ChunksPartition(events, settings.maxBatchSize);
      failed := [];
      ghost var sent := SendFrom(batches, replies, 0);
      for i := 0 to |batches|
        invariant sent.failed == SendFrom(batches, replies, i).failed
        invariant sent.lost == SendFrom(batches, replies, i).lost
        invariant failed == []
      {
        var reply := replies(i);
        if reply == Refused {
          failed := JoinFrom(batches, i);
          FlattenEmpty(batches[i..]);
          return failed, false;
        }
        if i < |batches| - 1 && reply == AcceptedThenCancelled {
          FlattenEmpty(batches[i + 1..]);
          return [], false;
        }
        if reply == AcceptedThenCancelled {
          return [], true;
        }
      }
      ok := true;
    }

    /** The batches from the i-th on, joined. */
    method JoinFrom(batches: seq<seq<Event>>, i: nat) returns (joined: seq<Event>)
      requires i <= |batches|
      ensures joined == Flatten(batches[i..])
    {
      hide Flatten;
      joined := [];
      assert batches[i..i] == [];
      FlattenNothing();
      for j := i to |batches|
        invariant joined == Flatten(batches[i..j])
      {
        SliceNext(batches, i, j);
        FlattenSnoc(batches[i..j], batches[j]);
        joined := joined + batches[j];
      }
      assert batches[i..|batches|] == batches[i..];
    }

    /**
     Returns how many events failed, and whether there is no error: exactly when all were accepted.  An error without
     a failed event is an export cut short, or an empty one after shutdown.
     */
    method Export(events: seq<Event>, killed: bool, replies: nat -> Reply) returns (failed: nat, ok: bool)
      requires settings.Valid()
      modifies this
      ensures Now() == Exported(settings, old(Now()), events, killed, replies)
      ensures ExportLeaves(settings, old(Now()), events, killed, replies, Now())
      ensures failed == |queue| - |old(queue)| + |dropped| - |old(dropped)| + |refused| - |old(refused)|
      ensures ok <==> !old(shutdown) && accepted == old(accepted) + events
      ensures !ok && failed == 0 && events != [] <==>
              Loses(settings, old(Now()), Action.Export(events, killed, replies))
    {
      hide ExportLeaves;
      ExportLeavesEvents(settings, Now(), events, killed, replies);
      if shutdown {
        refused := refused + events;
        return |events|, false;
      }
      if |events| == 0 { return 0, true; }
      if attempts >= settings.maxAttempts {
        dropped := dropped + events;
        return |events|, false;
      }
      if killed {
        queue := queue + events;
        return |events|, false;
      }
      ghost var sent := Send(events, settings.maxBatchSize, replies);
      var failedEvents, sentAll := SendEventsInBatches(events, replies);
      SendAnswers(events, settings.maxBatchSize, replies);
      AddedIff(accepted, sent.accepted, events);
      accepted, lost := accepted + sent.accepted, lost + sent.lost;
      if |failedEvents| > 0 {
        queue := queue + failedEvents;
      } else {
        assert queue + failedEvents == queue;
        attempts := 0;
      }
      return |failedEvents|, sentAll;
    }

    method RetryFailedEvents(sends: nat -> bool)
      requires settings.Valid()
      modifies this
      ensures Now() == Retried(settings, old(Now()), sends)
      ensures RetryLeaves(settings, old(Now()), sends, Now())
    {
      hide RetryLeaves;
      RetryLeavesEvents(settings, Now(), sends);
      if shutdown { return; }
      while |queue| > 0
        invariant !shutdown
        invariant Now() == old(Now()) || (queue == [] && Now() == Retried(settings, old(Now()), sends))
        decreases |queue|
      {
        var events := queue;
        if attempts >= settings.maxAttempts {
          dropped := dropped + queue;
          queue := [];
          attempts := 0;
          return;
        }
        queue := [];
        ghost var sent := Send(events, settings.maxBatchSize, Uncancelled(sends));
        var failedEvents, ok := SendEventsInBatches(events, Uncancelled(sends));
        accepted, lost := accepted + sent.accepted, lost + sent.lost;
        attempts := attempts + 1;
        if |failedEvents| > 0 {
          queue := failedEvents;
          return;
        }
        attempts := 0;
      }
    }

    /** From here on every export is refused and no retry runs. */
    method ShutDown()
      modifies this
      ensures Now() == Step(settings, old(Now()), Shutdown)
      ensures Now() == old(Now()).(shut := true, attempts := 0)
    {
      shutdown := true;
      attempts := 0;
    }
  }
}
