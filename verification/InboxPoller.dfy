/**
 One poll: read the unread messages, hand them over, mark them by (from, timestamp). Writers may append
 between any two of these steps, and the read or the mark may fail (internal/platform/mailbox/inbox_poller.go).
 */
module InboxPoller {
  import opened Mailbox
  import opened Text

  const SEPARATOR: string := "\U{0000}"

  function Key(m: Message): string {
    m.from + SEPARATOR + m.timestamp
  }

  function Keys(batch: seq<Message>): set<string> {
    set m | m in batch :: Key(m)
  }

  const NUL := '\U{0000}'

  lemma KeyParts(m: Message)
    ensures Key(m) == m.from + ([NUL] + m.timestamp)
  {
  }

  /**
   Exactly when two messages share a key: same sender and time, or the one sender's name begins with the other's
   and a NUL, and the other's timestamp holds what is left of it.
   */
  lemma KeysEqualIff(a: Message, b: Message)
    ensures Key(a) == Key(b) <==>
            || (a.from == b.from && a.timestamp == b.timestamp)
            || Overlap(a.from, b.from, NUL, a.timestamp, b.timestamp)
            || Overlap(b.from, a.from, NUL, b.timestamp, a.timestamp)
  {
    KeyParts(a);
    KeyParts(b);
    JoinedEqualIff(a.from, b.from, NUL, a.timestamp, b.timestamp);
  }

  /** When the timestamps contain no NUL, or the sender names contain none, equal keys mean equal sender and time. */
  lemma KeysIdentify(a: Message, b: Message)
    requires (Without(a.timestamp, NUL) && Without(b.timestamp, NUL)) || (Without(a.from, NUL) && Without(b.from, NUL))
    ensures Key(a) == Key(b) <==> a.from == b.from && a.timestamp == b.timestamp
  {
    KeyParts(a);
    KeyParts(b);
    if Key(a) == Key(b) {
      if Without(a.from, NUL) && Without(b.from, NUL) {
        SplitOnce(a.from, b.from, NUL, a.timestamp, b.timestamp);
      } else {
        SplitLast(a.from, b.from, NUL, a.timestamp, b.timestamp);
      }
    }
  }

  /** Two senders can share a key, with some timestamps, exactly when the one name begins with the other and a NUL. */
  lemma SendersConfusableIff(x: string, y: string)
    requires x != y
    ensures (exists a: Message, b: Message :: a.from == x && b.from == y && Key(a) == Key(b)) <==>
            x + SEPARATOR <= y || y + SEPARATOR <= x
  {
    CollideIff(x, y, NUL);
    if a: Message, b: Message :| a.from == x && b.from == y && Key(a) == Key(b) {
      KeyParts(a);
      KeyParts(b);
    }
    if x + SEPARATOR <= y || y + SEPARATOR <= x {
      var t, u :| x + ([NUL] + t) == y + ([NUL] + u);
      var a, b := Message(x, "", t, false, "", ""), Message(y, "", u, false, "", "");
      KeyParts(a);
      KeyParts(b);
      assert a.from == x && b.from == y && Key(a) == Key(b);
    }
  }

  /** Such a pair of messages. */
  lemma NulConfusesKeys()
    ensures var a := Message("x", "", "\U{0000}y", false, "", "");
            var b := Message("x\U{0000}", "", "y", false, "", "");
            Key(a) == Key(b) && a.from != b.from && a.timestamp != b.timestamp
  {
  }

  /** No message that arrived after the start shares its key with an earlier one that was not yet read at the start. */
  ghost predicate NoLateTwin(start: seq<Message>, inbox: seq<Message>) {
    forall i, j :: 0 <= i < j < |inbox| && |start| <= j && (i < |start| ==> !start[i].read) ==>
      Key(inbox[i]) != Key(inbox[j])
  }

  // ---------------------------------------------------------------- runs

  datatype Phase = Idle | HasRead | HasDelivered

  /** `origin` and `delivered` record at which inbox positions the batch and all deliveries so far stand. */
  datatype State = State(inbox: seq<Message>, phase: Phase, batch: seq<Message>, origin: seq<nat>, delivered: seq<nat>)

  /** `ok` tells whether the access to the inbox file succeeded. */
  datatype Event = Send(m: Message) | Read(ok: bool) | Deliver | Mark(ok: bool)

  function Start(inbox: seq<Message>): State {
    State(inbox, Idle, [], [], [])
  }

  function Marked(inbox: seq<Message>, batch: seq<Message>): seq<Message> {
    MarkWhere(inbox, m => Key(m) in Keys(batch))
  }

  /** An event that the poller is not ready for changes nothing. */
  function Step(s: State, e: Event): State {
    match e
    case Send(m) => s.(inbox := s.inbox + [m.(read := false)])
    case Read(ok) =>
      if s.phase == Idle && ok && Unread(s.inbox) != [] then
        s.(phase := HasRead, batch := Unread(s.inbox), origin := Positions(s.inbox, false))
      else s
    case Deliver =>
      if s.phase == HasRead then s.(phase := HasDelivered, delivered := s.delivered + s.origin) else s
    case Mark(ok) =>
      if s.phase == HasDelivered then
        State(if ok then Marked(s.inbox, s.batch) else s.inbox, Idle, [], [], s.delivered)
      else s
  }

  function Run(s: State, es: seq<Event>): State {
    if es == [] then s else Step(Run(s, es[..|es| - 1]), es[|es| - 1])
  }

  lemma RunNext(s: State, es: seq<Event>, e: Event)
    ensures Run(s, es + [e]) == Step(Run(s, es), e)
  {
    assert (es + [e])[..|es|] == es;
  }

  lemma RunFour(s: State, a: Event, b: Event, c: Event, d: Event)
    ensures Run(s, [a, b, c, d]) == Step(Step(Step(Step(s, a), b), c), d)
  {
    hide Step;
    assert [a, b, c, d] == [] + [a] + [b] + [c] + [d];
    RunNext(s, [], a);
    RunNext(s, [] + [a], b);
    RunNext(s, [] + [a] + [b], c);
    RunNext(s, [] + [a] + [b] + [c], d);
  }

  /** Whatever happens, the inbox only grows, keeps its order and contents, and never unsets a flag. */
  lemma {:induction false} InboxOnlyGrows(s: State, es: seq<Event>)
    ensures Extends(s.inbox, Run(s, es).inbox)
  {
    if es != [] {
      var before := Run(s, es[..|es| - 1]);
      InboxOnlyGrows(s, es[..|es| - 1]);
      assert Extends(before.inbox, Step(before, es[|es| - 1]).inbox);
      ExtendsTransitive(s.inbox, before.inbox, Run(s, es).inbox);
    }
  }

  /** The batch is a copy of unread messages of the inbox, taken in order. */
  ghost predicate BatchStands(s: State) {
    && |s.batch| == |s.origin|
    && Increasing(s.origin)
    && (forall k :: 0 <= k < |s.origin| ==>
          s.origin[k] < |s.inbox| && s.batch[k] == s.inbox[s.origin[k]] && !s.batch[k].read)
    && (s.phase == Idle ==> s.origin == [])
    && (s.phase == HasDelivered ==> forall o :: o in s.origin ==> o in s.delivered)
    && (forall d :: d in s.delivered ==> d < |s.inbox|)
  }

  lemma BatchStandsNext(s: State, e: Event)
    requires BatchStands(s)
    ensures BatchStands(Step(s, e))
  {
    match e
    case Read(ok) =>
      PositionsAreAll(s.inbox, false);
      UnreadAtPositions(s.inbox);
    case Send(m) =>
    case Deliver =>
    case Mark(ok) =>
  }

  lemma {:induction false} BatchStandsThroughout(inbox: seq<Message>, es: seq<Event>)
    ensures BatchStands(Run(Start(inbox), es))
  {
    if es != [] {
      BatchStandsThroughout(inbox, es[..|es| - 1]);
      BatchStandsNext(Run(Start(inbox), es[..|es| - 1]), es[|es| - 1]);
    }
  }

  /** Every message flagged as read was delivered, or was already flagged at the start. */
  ghost predicate MarkedOnlyDelivered(start: seq<Message>, s: State) {
    forall i :: 0 <= i < |s.inbox| && s.inbox[i].read ==> i in s.delivered || (i < |start| && start[i].read)
  }

  /** What marking flags: the unread messages whose key is in the batch. */
  lemma MarkedAt(s: State, i: nat)
    requires i < |s.inbox|
    ensures Marked(s.inbox, s.batch)[i].read <==> s.inbox[i].read || Key(s.inbox[i]) in Keys(s.batch)
  {
  }

  /**
   Marking flags only delivered messages exactly when no message that is still unread and undelivered
   shares its key with a message of the batch.
   */
  lemma MarkIsSafeIff(start: seq<Message>, s: State)
    requires BatchStands(s) && MarkedOnlyDelivered(start, s) && s.phase == HasDelivered
    requires Extends(start, s.inbox)
    ensures MarkedOnlyDelivered(start, Step(s, Mark(true))) <==>
            forall i :: 0 <= i < |s.inbox| && !s.inbox[i].read && i !in s.delivered ==>
              Key(s.inbox[i]) !in Keys(s.batch)
  {
    var after := Step(s, Mark(true));
    forall i | 0 <= i < |s.inbox|
      ensures after.inbox[i].read <==> s.inbox[i].read || Key(s.inbox[i]) in Keys(s.batch)
    {
      MarkedAt(s, i);
    }
    if MarkedOnlyDelivered(start, after) {
      forall i | 0 <= i < |s.inbox| && !s.inbox[i].read && i !in s.delivered
        ensures Key(s.inbox[i]) !in Keys(s.batch)
      {
        assert !(i < |start| && start[i].read);
      }
    }
  }

  lemma NoLateTwinBefore(start: seq<Message>, before: seq<Message>, after: seq<Message>)
    requires Extends(before, after) && NoLateTwin(start, after)
    ensures NoLateTwin(start, before)
  {
    forall i, j | 0 <= i < j < |before| && |start| <= j && (i < |start| ==> !start[i].read)
      ensures Key(before[i]) != Key(before[j])
    {
      assert Key(before[i]) == Key(after[i]) && Key(before[j]) == Key(after[j]);
    }
  }

  /** The batch holds all that is unread up to its last message, and all that was there at the start. */
  ghost predicate BatchCovers(start: seq<Message>, s: State) {
    s.phase != Idle ==>
      && (forall i :: 0 <= i < |start| && i < |s.inbox| && !s.inbox[i].read ==> i in s.origin)
      && (forall i, o :: 0 <= i < |s.inbox| && !s.inbox[i].read && o in s.origin && i < o ==> i in s.origin)
  }

  lemma {:induction false} BatchCoversThroughout(start: seq<Message>, es: seq<Event>)
    ensures BatchCovers(start, Run(Start(start), es))
  {
    if es != [] {
      var rest := es[..|es| - 1];
      BatchCoversThroughout(start, rest);
      BatchStandsThroughout(start, rest);
      InboxOnlyGrows(Start(start), rest);
      PositionsAreAll(Run(Start(start), rest).inbox, false);
    }
  }

  /** What the two invariants say of a run, with an inbox that grew from `start`. */
  ghost predicate Stands(start: seq<Message>, s: State) {
    BatchStands(s) && BatchCovers(start, s) && Extends(start, s.inbox)
  }

  lemma StandsThroughout(start: seq<Message>, es: seq<Event>)
    ensures Stands(start, Run(Start(start), es))
  {
    BatchStandsThroughout(start, es);
    BatchCoversThroughout(start, es);
    InboxOnlyGrows(Start(start), es);
  }

  /** What is in the batch has been unread from the start on. */
  lemma OriginUnread(start: seq<Message>, s: State, o: nat)
    requires Stands(start, s) && o in s.origin
    ensures o < |s.inbox| && !s.inbox[o].read && s.inbox[o] in s.batch && (o < |start| ==> !start[o].read)
  {
    var k :| 0 <= k < |s.origin| && s.origin[k] == o;
    assert s.batch[k] in s.batch;
  }

  /** Without late twins an unread message has its key in the batch only if it was read into the batch. */
  lemma KeyInBatch(start: seq<Message>, s: State, i: nat)
    requires Stands(start, s) && NoLateTwin(start, s.inbox) && i < |s.inbox| && !s.inbox[i].read
    ensures Key(s.inbox[i]) in Keys(s.batch) <==> i in s.origin
  {
    hide Key;
    if Key(s.inbox[i]) in Keys(s.batch) {
      var k :| 0 <= k < |s.batch| && Key(s.batch[k]) == Key(s.inbox[i]);
      var o := s.origin[k];
      OriginUnread(start, s, o);
      assert Key(s.inbox[o]) == Key(s.inbox[i]);
      assert i < |start| || i <= o;
    }
    if i in s.origin { OriginUnread(start, s, i); }
  }

  /** Without late twins no interleaving of writers, failures and polls marks a message that was not delivered. */
  lemma {:induction false} NeverMarksUndelivered(start: seq<Message>, es: seq<Event>)
    requires NoLateTwin(start, Run(Start(start), es).inbox)
    ensures MarkedOnlyDelivered(start, Run(Start(start), es))
  {
    if es != [] {
      var before, e := Run(Start(start), es[..|es| - 1]), es[|es| - 1];
      assert Extends(before.inbox, Step(before, e).inbox);
      NoLateTwinBefore(start, before.inbox, Step(before, e).inbox);
      NeverMarksUndelivered(start, es[..|es| - 1]);
      StandsThroughout(start, es[..|es| - 1]);
      if e == Mark(true) && before.phase == HasDelivered {
        forall i | 0 <= i < |before.inbox| && !before.inbox[i].read && i !in before.delivered
          ensures Key(before.inbox[i]) !in Keys(before.batch)
        {
          KeyInBatch(start, before, i);
        }
        MarkIsSafeIff(start, before);
      }
    }
  }

  /** A message that was flagged without being delivered is never delivered later. */
  lemma {:induction false} MissedForGood(s: State, es: seq<Event>, i: nat)
    requires i < |s.inbox| && s.inbox[i].read && i !in s.origin && i !in s.delivered
    ensures var t := Run(s, es); i < |t.inbox| && t.inbox[i].read && i !in t.origin && i !in t.delivered
  {
    if es != [] {
      MissedForGood(s, es[..|es| - 1], i);
      PositionsAreAll(Run(s, es[..|es| - 1]).inbox, false);
    }
  }

  // ---------------------------------------------------------------- exactly once, in order

  ghost predicate NoFailedMark(es: seq<Event>) {
    Mark(false) !in es
  }

  /** Deliveries so far are in inbox order; whatever is unread and not in the batch comes after all of them. */
  ghost predicate InOrder(s: State) {
    && Increasing(s.delivered)
    && (forall i, d :: 0 <= i < |s.inbox| && !s.inbox[i].read && i !in s.origin && d in s.delivered ==> d < i)
    && (s.phase == HasRead ==> forall d, o :: d in s.delivered && o in s.origin ==> d < o)
    && (forall i, o :: 0 <= i < |s.inbox| && !s.inbox[i].read && i !in s.origin && o in s.origin ==> o < i)
  }

  lemma InOrderRead(s: State)
    requires BatchStands(s) && InOrder(s) && s.phase == Idle
    ensures InOrder(Step(s, Read(true)))
  {
    PositionsAreAll(s.inbox, false);
  }

  lemma InOrderSend(s: State, m: Message)
    requires BatchStands(s) && InOrder(s)
    ensures InOrder(Step(s, Send(m)))
  {
  }

  lemma InOrderDeliver(s: State)
    requires BatchStands(s) && InOrder(s) && s.phase == HasRead
    ensures InOrder(Step(s, Deliver))
  {
    var t := Step(s, Deliver);
    forall i, j | 0 <= i < j < |t.delivered|
      ensures t.delivered[i] < t.delivered[j]
    {
      if i < |s.delivered| <= j {
        assert t.delivered[i] in s.delivered && t.delivered[j] in s.origin;
      }
    }
    forall d | d in t.delivered
      ensures d in s.delivered || d in s.origin
    {
    }
  }

  lemma InOrderMark(start: seq<Message>, s: State)
    requires Stands(start, s) && InOrder(s) && s.phase == HasDelivered && NoLateTwin(start, s.inbox)
    ensures InOrder(Step(s, Mark(true)))
  {
    forall i | 0 <= i < |s.inbox|
      ensures Marked(s.inbox, s.batch)[i].read <==> s.inbox[i].read || i in s.origin
    {
      MarkedAt(s, i);
      if !s.inbox[i].read { KeyInBatch(start, s, i); }
    }
  }

  /** Delivered in inbox order, each once; between polls flagged means delivered, or flagged at the start. */
  ghost predicate ExactlyOnce(start: seq<Message>, s: State) {
    && Increasing(s.delivered)
    && (s.phase == Idle ==> forall i :: 0 <= i < |s.inbox| ==>
          (s.inbox[i].read <==> i in s.delivered || (i < |start| && start[i].read)))
  }

  /** Without late twins and failed marks every message is delivered at most once and in inbox order. */
  lemma {:induction false} ExactlyOnceInOrder(start: seq<Message>, es: seq<Event>)
    requires NoLateTwin(start, Run(Start(start), es).inbox) && NoFailedMark(es)
    ensures ExactlyOnce(start, Run(Start(start), es)) && InOrder(Run(Start(start), es))
  {
    InOrderThroughout(start, es);
    NeverMarksUndelivered(start, es);
    StandsThroughout(start, es);
    var s := Run(Start(start), es);
    if s.phase == Idle {
      forall i | 0 <= i < |s.inbox| && i in s.delivered
        ensures s.inbox[i].read
      {
        assert !s.inbox[i].read && i !in s.origin ==> i < i;
      }
    }
  }

  lemma {:induction false} InOrderThroughout(start: seq<Message>, es: seq<Event>)
    requires NoLateTwin(start, Run(Start(start), es).inbox) && NoFailedMark(es)
    ensures InOrder(Run(Start(start), es))
  {
    if es != [] {
      var before, e := Run(Start(start), es[..|es| - 1]), es[|es| - 1];
      assert Extends(before.inbox, Step(before, e).inbox);
      NoLateTwinBefore(start, before.inbox, Step(before, e).inbox);
      InOrderThroughout(start, es[..|es| - 1]);
      StandsThroughout(start, es[..|es| - 1]);
      match e
      case Send(m) => InOrderSend(before, m);
      case Read(ok) => if before.phase == Idle && ok { InOrderRead(before); }
      case Deliver => if before.phase == HasRead { InOrderDeliver(before); }
      case Mark(ok) =>
        assert es[|es| - 1] in es;
        if before.phase == HasDelivered { InOrderMark(start, before); }
    }
  }

  /** A poll whose mark fails delivers the same messages again. */
  lemma FailedMarkRepeats(s: State)
    requires s.phase == Idle && Unread(s.inbox) != []
    ensures Run(s, [Read(true), Deliver, Mark(false), Read(true), Deliver]).delivered ==
            s.delivered + Positions(s.inbox, false) + Positions(s.inbox, false)
  {
    var four := [Read(true), Deliver, Mark(false), Read(true)];
    RunFour(s, Read(true), Deliver, Mark(false), Read(true));
    RunNext(s, four, Deliver);
    assert four + [Deliver] == [Read(true), Deliver, Mark(false), Read(true), Deliver];
  }

  // ---------------------------------------------------------------- repeated delivery

  ghost predicate Distinct(ps: seq<nat>) {
    forall i, j :: 0 <= i < j < |ps| ==> ps[i] != ps[j]
  }

  /** A poll that had delivered has failed to mark. */
  ghost predicate MarkFailed(start: State, es: seq<Event>) {
    es != [] &&
    (var rest := es[..|es| - 1];
     MarkFailed(start, rest) || (es[|es| - 1] == Mark(false) && Run(start, rest).phase == HasDelivered))
  }

  /** After such a failure another poll has read and delivered. */
  ghost predicate DeliveredAfterFailure(start: State, es: seq<Event>) {
    es != [] &&
    (var rest := es[..|es| - 1];
     || DeliveredAfterFailure(start, rest)
     || (es[|es| - 1] == Deliver && Run(start, rest).phase == HasRead && MarkFailed(start, rest)))
  }

  /** How the deliveries so far, the flags and the batch in hand stand to each other. */
  ghost predicate RepeatsStand(s: State, failed: bool, repeated: bool) {
    && (repeated <==> !Distinct(s.delivered))
    && (repeated ==> failed)
    && (s.phase != Idle ==> s.origin != [])
    && (!failed ==> forall d :: d in s.delivered && d < |s.inbox| ==>
          s.inbox[d].read || (s.phase == HasDelivered && d in s.origin))
    && (failed && !repeated ==>
          && s.phase != HasDelivered
          && exists d :: && d in s.delivered && d < |s.inbox| && !s.inbox[d].read
                         && (s.phase == HasRead ==> d in s.origin))
  }

  lemma DistinctConcatIff(a: seq<nat>, b: seq<nat>)
    ensures Distinct(a + b) <==> Distinct(a) && Distinct(b) && forall x :: x in a ==> x !in b
  {
    var all := a + b;
    if x :| x in a && x in b {
      var i, k :| 0 <= i < |a| && 0 <= k < |b| && a[i] == x && b[k] == x;
      assert all[i] == all[|a| + k];
    }
    if Distinct(all) {
      assert forall i :: 0 <= i < |a| ==> all[i] == a[i];
      assert forall k :: 0 <= k < |b| ==> b[k] == all[|a| + k];
    } else {
      var i, j :| 0 <= i < j < |all| && all[i] == all[j];
      assert i < |a| ==> all[i] == a[i];
      assert j >= |a| ==> all[j] in b;
    }
  }

  lemma DeliverRepeats(s: State, failed: bool, repeated: bool)
    requires BatchStands(s) && RepeatsStand(s, failed, repeated) && s.phase == HasRead
    ensures RepeatsStand(Step(s, Deliver), failed, repeated || failed)
  {
    DistinctConcatIff(s.delivered, s.origin);
    assert Distinct(s.origin);
    forall o | o in s.origin
      ensures o < |s.inbox| && !s.inbox[o].read
    {
      var k :| 0 <= k < |s.origin| && s.origin[k] == o;
    }
    hide Distinct;
  }

  lemma MarkRepeats(s: State, ok: bool, failed: bool, repeated: bool)
    requires BatchStands(s) && RepeatsStand(s, failed, repeated) && s.phase == HasDelivered
    ensures RepeatsStand(Step(s, Mark(ok)), failed || !ok, repeated)
  {
    MarkFlagsBatch(s);
    hide Marked, Distinct;
    if !ok && !repeated {
      var d := s.origin[0];
      assert d in s.origin && s.batch[0] == s.inbox[d];
    }
  }

  lemma ReadRepeats(s: State, failed: bool, repeated: bool)
    requires BatchStands(s) && RepeatsStand(s, failed, repeated) && s.phase == Idle && Unread(s.inbox) != []
    ensures RepeatsStand(Step(s, Read(true)), failed, repeated)
  {
    PositionsAreAll(s.inbox, false);
    UnreadAtPositions(s.inbox);
    hide Distinct;
  }

  lemma SendRepeats(s: State, m: Message, failed: bool, repeated: bool)
    requires BatchStands(s) && RepeatsStand(s, failed, repeated)
    ensures RepeatsStand(Step(s, Send(m)), failed, repeated)
  {
    hide Distinct;
  }

  lemma {:induction false} RepeatsThroughout(inbox: seq<Message>, es: seq<Event>)
    ensures RepeatsStand(Run(Start(inbox), es), MarkFailed(Start(inbox), es), DeliveredAfterFailure(Start(inbox), es))
  {
    var start := Start(inbox);
    if es != [] {
      var rest, e := es[..|es| - 1], es[|es| - 1];
      var s := Run(start, rest);
      RepeatsThroughout(inbox, rest);
      BatchStandsThroughout(inbox, rest);
      var failed, repeated := MarkFailed(start, rest), DeliveredAfterFailure(start, rest);
      hide RepeatsStand, BatchStands;
      match e
      case Send(m) => SendRepeats(s, m, failed, repeated);
      case Read(ok) => if s.phase == Idle && ok && Unread(s.inbox) != [] { ReadRepeats(s, failed, repeated); }
      case Deliver => if s.phase == HasRead { DeliverRepeats(s, failed, repeated); }
      case Mark(ok) => if s.phase == HasDelivered { MarkRepeats(s, ok, failed, repeated); }
    }
  }

  /**
   In every interleaving, whatever the keys, some position is delivered twice exactly when a mark has failed and
   a later poll has read and delivered.
   */
  lemma RepeatedIff(inbox: seq<Message>, es: seq<Event>)
    ensures Distinct(Run(Start(inbox), es).delivered) <==> !DeliveredAfterFailure(Start(inbox), es)
  {
    RepeatsThroughout(inbox, es);
  }

  ghost predicate OnlySends(es: seq<Event>) {
    forall e :: e in es ==> e.Send?
  }

  /** `t` is `s` with more unread messages at the end of the inbox. */
  ghost predicate MoreMail(s: State, t: State) {
    && t == s.(inbox := t.inbox)
    && |s.inbox| <= |t.inbox|
    && (forall i :: 0 <= i < |s.inbox| ==> t.inbox[i] == s.inbox[i])
    && (forall i :: |s.inbox| <= i < |t.inbox| ==> !t.inbox[i].read)
  }

  lemma {:induction false} SendsKeepPoll(s: State, es: seq<Event>)
    requires OnlySends(es)
    ensures MoreMail(s, Run(s, es))
  {
    if es != [] {
      assert es[|es| - 1] in es;
      SendsKeepPoll(s, es[..|es| - 1]);
    }
  }

  /** Marking flags the whole batch, and what shares a key with it. */
  lemma MarkFlagsBatch(s: State)
    requires BatchStands(s)
    ensures forall i :: 0 <= i < |s.inbox| && (s.inbox[i].read || i in s.origin) ==> Marked(s.inbox, s.batch)[i].read
  {
    forall i | 0 <= i < |s.inbox| && i in s.origin
      ensures Marked(s.inbox, s.batch)[i].read
    {
      MarkedAt(s, i);
      var k :| 0 <= k < |s.origin| && s.origin[k] == i;
      assert s.batch[k] in s.batch;
    }
  }

  /** `last` is where a poll that started in `s` stands before its mark, with only new messages since. */
  ghost predicate ReadyToMark(s: State, last: State) {
    && BatchStands(last) && last.phase == HasDelivered
    && last.origin == Positions(s.inbox, false) && last.batch == Unread(s.inbox)
    && last.delivered == s.delivered + Positions(s.inbox, false)
    && |s.inbox| <= |last.inbox|
    && (forall i :: 0 <= i < |s.inbox| ==> last.inbox[i] == s.inbox[i])
    && (forall i :: |s.inbox| <= i < |last.inbox| ==> !last.inbox[i].read)
  }

  /**
   The poll is over: everything unread at its start was delivered and is flagged; of what came later exactly that
   is flagged which shares a key with it, and the rest waits.
   */
  ghost predicate PollDone(s: State, done: State) {
    && done.phase == Idle
    && done.delivered == s.delivered + Positions(s.inbox, false)
    && |s.inbox| <= |done.inbox|
    && (forall i :: 0 <= i < |s.inbox| ==> done.inbox[i].read)
    && (forall i :: |s.inbox| <= i < |done.inbox| ==>
          (done.inbox[i].read <==> Key(done.inbox[i]) in Keys(Unread(s.inbox))))
  }

  lemma PollBeforeMark(s: State, first: seq<Event>, second: seq<Event>)
    requires BatchStands(s) && s.phase == Idle && Unread(s.inbox) != []
    requires OnlySends(first) && OnlySends(second)
    ensures ReadyToMark(s, Run(Step(Run(Step(s, Read(true)), first), Deliver), second))
  {
    BatchStandsNext(s, Read(true));
    var read := Step(s, Read(true));
    SendsKeepPoll(read, first);
    var waiting := Run(read, first);
    BatchStandsWithMail(read, waiting);
    BatchStandsNext(waiting, Deliver);
    var handed := Step(waiting, Deliver);
    SendsKeepPoll(handed, second);
    var last := Run(handed, second);
    hide Run, Positions, Unread, BatchStands;
    BatchStandsWithMail(handed, last);
  }

  lemma BatchStandsWithMail(s: State, t: State)
    requires BatchStands(s) && MoreMail(s, t)
    ensures BatchStands(t)
  {
  }

  lemma MarkEndsPoll(s: State, last: State)
    requires ReadyToMark(s, last)
    ensures PollDone(s, Step(last, Mark(true)))
  {
    PositionsAreAll(s.inbox, false);
    MarkFlagsBatch(last);
    forall i | |s.inbox| <= i < |last.inbox|
      ensures var done := Marked(last.inbox, last.batch);
              Key(done[i]) == Key(last.inbox[i]) && (done[i].read <==> Key(last.inbox[i]) in Keys(last.batch))
    {
      MarkedAt(last, i);
    }
  }

  /**
   A complete poll with writers in between delivers exactly the messages that were unread when it read, in order,
   and leaves all of them flagged; of the messages that came later it flags exactly those that share a key with one
   of them.
   */
  lemma WholePoll(s: State, first: seq<Event>, second: seq<Event>)
    requires BatchStands(s) && s.phase == Idle && Unread(s.inbox) != []
    requires OnlySends(first) && OnlySends(second)
    ensures PollDone(s, Step(Run(Step(Run(Step(s, Read(true)), first), Deliver), second), Mark(true)))
  {
    hide *;
    PollBeforeMark(s, first, second);
    MarkEndsPoll(s, Run(Step(Run(Step(s, Read(true)), first), Deliver), second));
  }

  // ---------------------------------------------------------------- the poller object

  class Poller {
    const inbox: Inbox
    var phase: Phase
    var batch: seq<Message>
    var handedOver: seq<seq<Message>>
    ghost var origin: seq<nat>
    ghost var delivered: seq<nat>

    constructor (inbox: Inbox)
      ensures this.inbox == inbox && Now() == Start(inbox.messages) && handedOver == []
    {
      this.inbox := inbox;
      phase, batch, handedOver := Idle, [], [];
      origin, delivered := [], [];
    }

    ghost function Now(): State
      reads this, inbox
    {
      State(inbox.messages, phase, batch, origin, delivered)
    }

    method ReadStep(ok: bool)
      requires phase == Idle
      modifies this
      ensures Now() == Step(old(Now()), Read(ok)) && handedOver == old(handedOver)
    {
      if !ok { return; }
      var messages := inbox.ReadUnreadMessages();
      if |messages| == 0 { return; }
      batch, phase := messages, HasRead;
      origin := Positions(inbox.messages, false);
    }

    method DeliverStep()
      requires phase == HasRead
      modifies this
      ensures Now() == Step(old(Now()), Deliver) && handedOver == old(handedOver) + [batch]
    {
      handedOver := handedOver + [batch];
      phase := HasDelivered;
      delivered := delivered + origin;
    }

    method MarkStep(ok: bool)
      requires phase == HasDelivered
      modifies this, inbox
      ensures Now() == Step(old(Now()), Mark(ok)) && handedOver == old(handedOver)
    {
      var keys: set<string> := {};
      for i := 0 to |batch|
        invariant keys == Keys(batch[..i])
      {
        assert batch[..i + 1] == batch[..i] + [batch[i]];
        keys := keys + {Key(batch[i])};
      }
      assert batch[..|batch|] == batch;
      if ok {
        inbox.MarkMessagesAsReadByPredicate(m => Key(m) in keys);
        assert inbox.messages == Marked(old(inbox.messages), batch);
      }
      phase, batch := Idle, [];
      origin := [];
    }
  }
}
