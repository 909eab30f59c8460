/**
 Exactly which messages can be lost when they arrive while the poller is at work
 (internal/platform/mailbox/inbox_poller.go, poll).
 */
module InboxInterleavings {
  import opened InboxPoller
  import opened Mailbox

  /** The messages that writers send in a run. */
  function Sent(es: seq<Event>): seq<Message> {
    if es == [] then []
    else
      var e := es[|es| - 1];
      Sent(es[..|es| - 1]) + (if e.Send? then [e.m] else [])
  }

  function Sends(ms: seq<Message>): (es: seq<Event>)
    ensures |es| == |ms| && OnlySends(es)
  {
    if ms == [] then [] else Sends(ms[..|ms| - 1]) + [Send(ms[|ms| - 1])]
  }

  lemma {:induction false} SentBySends(ms: seq<Message>)
    ensures Sent(Sends(ms)) == ms
  {
    if ms != [] { SentBySends(ms[..|ms| - 1]); }
  }

  lemma {:induction false} SentConcat(a: seq<Event>, b: seq<Event>)
    ensures Sent(a + b) == Sent(a) + Sent(b)
  {
    if b == [] {
      assert a + b == a;
    } else {
      SentConcat(a, b[..|b| - 1]);
      assert (a + b)[..|a + b| - 1] == a + b[..|b| - 1];
    }
  }

  lemma {:induction false} RunConcat(s: State, a: seq<Event>, b: seq<Event>)
    ensures Run(s, a + b) == Run(Run(s, a), b)
  {
    if b == [] {
      assert a + b == a;
    } else {
      var rest, e := b[..|b| - 1], b[|b| - 1];
      assert a + b == (a + rest) + [e];
      RunConcat(s, a, rest);
      RunNext(s, a + rest, e);
      hide Step;
    }
  }

  /** The inbox holds messages with these keys. */
  ghost predicate Holds(inbox: seq<Message>, messages: seq<Message>) {
    |inbox| == |messages| && forall i :: 0 <= i < |inbox| ==> Key(inbox[i]) == Key(messages[i])
  }

  lemma {:induction false} InboxHolds(start: seq<Message>, es: seq<Event>)
    ensures Holds(Run(Start(start), es).inbox, start + Sent(es))
  {
    if es != [] {
      InboxHolds(start, es[..|es| - 1]);
      hide Sent, Key;
    }
  }

  lemma SameTwins(start: seq<Message>, inbox: seq<Message>, messages: seq<Message>)
    requires Holds(inbox, messages)
    ensures NoLateTwin(start, inbox) <==> NoLateTwin(start, messages)
  {
    hide Key;
  }

  /** A poll during which a message arrives. */
  function LosingPoll(m: Message): seq<Event> {
    [Read(true), Deliver, Send(m), Mark(true)]
  }

  /** Whatever arrives with the key of a message that is being handed over is flagged and was not delivered. */
  lemma TwinIsLost(s: State, i: nat, m: Message)
    requires s.phase == Idle && (forall d :: d in s.delivered ==> d < |s.inbox|)
    requires i < |s.inbox| && !s.inbox[i].read && Key(m) == Key(s.inbox[i])
    ensures var t := Run(s, LosingPoll(m));
            && t.phase == Idle && t.origin == [] && |t.inbox| == |s.inbox| + 1
            && t.inbox[|s.inbox|].read && |s.inbox| !in t.delivered
  {
    PositionsAreAll(s.inbox, false);
    UnreadAtPositions(s.inbox);
    RunFour(s, Read(true), Deliver, Send(m), Mark(true));
    var k :| 0 <= k < |Positions(s.inbox, false)| && Positions(s.inbox, false)[k] == i;
    assert Unread(s.inbox)[k] == s.inbox[i] && s.inbox[i] in Unread(s.inbox);
    var last := Step(Step(Step(s, Read(true)), Deliver), Send(m));
    assert last.batch == Unread(s.inbox) && Key(last.inbox[|s.inbox|]) == Key(m);
    MarkedAt(last, |s.inbox|);
  }

  lemma LosingPollSends(m: Message)
    ensures Sent(LosingPoll(m)) == [m]
  {
    var read, handed, sent: seq<Event> := [Read(true)], [Read(true), Deliver], [Read(true), Deliver, Send(m)];
    assert LosingPoll(m)[..3] == sent && sent[..2] == handed && handed[..1] == read && read[..0] == [];
    assert Sent(handed) == [] && Sent(sent) == [m];
  }

  /** A run in which the `p`-th message of the writers arrives while a poll hands its batch over. */
  function LosingRun(sent: seq<Message>, p: nat): seq<Event>
    requires p < |sent|
  {
    Sends(sent[..p]) + LosingPoll(sent[p]) + Sends(sent[p + 1..])
  }

  lemma LosingRunSends(sent: seq<Message>, p: nat)
    requires p < |sent|
    ensures Sent(LosingRun(sent, p)) == sent && NoFailedMark(LosingRun(sent, p))
  {
    hide Sent, Sends;
    var first, poll, later := Sends(sent[..p]), LosingPoll(sent[p]), Sends(sent[p + 1..]);
    SentConcat(first, poll);
    SentConcat(first + poll, later);
    SentBySends(sent[..p]);
    SentBySends(sent[p + 1..]);
    LosingPollSends(sent[p]);
    assert sent[..p] + [sent[p]] + sent[p + 1..] == sent;
  }

  /** Before that poll the inbox holds the earlier messages, the unread ones at the start and the sent ones unread. */
  lemma BeforeLosing(start: seq<Message>, sent: seq<Message>, p: nat)
    requires p < |sent|
    ensures var s := Run(Start(start), Sends(sent[..p]));
            && s.phase == Idle && s.delivered == [] && Holds(s.inbox, start + sent[..p])
            && forall i :: 0 <= i < |s.inbox| && (i < |start| ==> !start[i].read) ==> !s.inbox[i].read
  {
    SendsKeepPoll(Start(start), Sends(sent[..p]));
    InboxHolds(start, Sends(sent[..p]));
    SentBySends(sent[..p]);
    hide Run, Sent, Sends, Key;
  }

  /** If it is a late twin of an unread message, it is flagged at the end and was not delivered. */
  lemma LosingRunLoses(start: seq<Message>, sent: seq<Message>, i: nat, p: nat)
    requires p < |sent| && i < |start| + p && (i < |start| ==> !start[i].read)
    requires Key((start + sent)[i]) == Key(sent[p])
    ensures var s, j := Run(Start(start), LosingRun(sent, p)), |start| + p;
            s.phase == Idle && j < |s.inbox| && s.inbox[j].read && j !in s.delivered
  {
    hide Run, Step, Key, Sent, Sends, LosingPoll;
    var first, poll, later := Sends(sent[..p]), LosingPoll(sent[p]), Sends(sent[p + 1..]);
    var s := Run(Start(start), first);
    BeforeLosing(start, sent, p);
    assert (start + sent)[i] == (start + sent[..p])[i];
    TwinIsLost(s, i, sent[p]);
    var t := Run(s, poll);
    MissedForGood(t, later, |s.inbox|);
    SendsKeepPoll(t, later);
    RunConcat(Start(start), first, poll);
    RunConcat(Start(start), first + poll, later);
  }

  /**
   However the messages of the writers fall between the steps of the poller, and whatever accesses fail: only
   delivered messages are flagged, exactly when no message is a late twin.
   */
  lemma NothingIsLostIff(start: seq<Message>, sent: seq<Message>)
    ensures (forall es :: Sent(es) == sent ==> MarkedOnlyDelivered(start, Run(Start(start), es)))
            <==> NoLateTwin(start, start + sent)
  {
    hide Key, Run, Sent, LosingRun;
    if NoLateTwin(start, start + sent) {
      forall es | Sent(es) == sent
        ensures MarkedOnlyDelivered(start, Run(Start(start), es))
      {
        InboxHolds(start, es);
        SameTwins(start, Run(Start(start), es).inbox, start + sent);
        NeverMarksUndelivered(start, es);
      }
    } else {
      var i, j :| && 0 <= i < j < |start + sent| && |start| <= j && (i < |start| ==> !start[i].read)
                  && Key((start + sent)[i]) == Key((start + sent)[j]);
      var es := LosingRun(sent, j - |start|);
      LosingRunSends(sent, j - |start|);
      LosingRunLoses(start, sent, i, j - |start|);
      assert !MarkedOnlyDelivered(start, Run(Start(start), es));
    }
  }

  /**
   As long as no mark fails: every message is delivered at most once, in inbox order, and between polls flagged
   means delivered, exactly when no message is a late twin.
   */
  lemma ExactlyOnceIff(start: seq<Message>, sent: seq<Message>)
    ensures (forall es :: Sent(es) == sent && NoFailedMark(es) ==> ExactlyOnce(start, Run(Start(start), es)))
            <==> NoLateTwin(start, start + sent)
  {
    hide Key, Run, Sent, LosingRun;
    if NoLateTwin(start, start + sent) {
      forall es | Sent(es) == sent && NoFailedMark(es)
        ensures ExactlyOnce(start, Run(Start(start), es))
      {
        InboxHolds(start, es);
        SameTwins(start, Run(Start(start), es).inbox, start + sent);
        ExactlyOnceInOrder(start, es);
      }
    } else {
      var i, j :| && 0 <= i < j < |start + sent| && |start| <= j && (i < |start| ==> !start[i].read)
                  && Key((start + sent)[i]) == Key((start + sent)[j]);
      var es := LosingRun(sent, j - |start|);
      LosingRunSends(sent, j - |start|);
      LosingRunLoses(start, sent, i, j - |start|);
      assert !ExactlyOnce(start, Run(Start(start), es));
    }
  }
}
