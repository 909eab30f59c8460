/** A teammate's inbox: messages are only ever appended, and flagged as read (internal/platform/mailbox/mailbox.go). */
module Mailbox {

  datatype Message = Message(from: string, text: string, timestamp: string, read: bool, color: string, summary: string)

  /** The positions whose flag is `read`, in order. */
  function Positions(inbox: seq<Message>, read: bool): (ps: seq<nat>)
    ensures forall k :: 0 <= k < |ps| ==> ps[k] < |inbox| && inbox[ps[k]].read == read
  {
    if inbox == [] then []
    else
      var last := |inbox| - 1;
      Positions(inbox[..last], read) + (if inbox[last].read == read then [last] else [])
  }

  function Unread(inbox: seq<Message>): seq<Message> {
    if inbox == [] then []
    else
      var last := inbox[|inbox| - 1];
      Unread(inbox[..|inbox| - 1]) + (if last.read then [] else [last])
  }

  ghost predicate Increasing(ps: seq<nat>) {
    forall i, j :: 0 <= i < j < |ps| ==> ps[i] < ps[j]
  }

  /** The positions are exactly those with the flag, each once, in inbox order. */
  lemma {:induction false} PositionsAreAll(inbox: seq<Message>, read: bool)
    ensures Increasing(Positions(inbox, read))
    ensures forall i :: 0 <= i < |inbox| ==> (i in Positions(inbox, read) <==> inbox[i].read == read)
  {
    if inbox != [] {
      PositionsAreAll(inbox[..|inbox| - 1], read);
    }
  }

  /** The unread messages stand at the unread positions, in the same order. */
  lemma {:induction false} UnreadAtPositions(inbox: seq<Message>)
    ensures |Unread(inbox)| == |Positions(inbox, false)|
    ensures forall k :: 0 <= k < |Unread(inbox)| ==> Unread(inbox)[k] == inbox[Positions(inbox, false)[k]]
  {
    if inbox != [] {
      UnreadAtPositions(inbox[..|inbox| - 1]);
    }
  }

  /** Flags the unread messages that `chosen` picks. */
  function MarkWhere(inbox: seq<Message>, chosen: Message -> bool): (r: seq<Message>)
    ensures |r| == |inbox|
  {
    seq(|inbox|, i requires 0 <= i < |inbox| =>
      if !inbox[i].read && chosen(inbox[i]) then inbox[i].(read := true) else inbox[i])
  }

  /** Every earlier message is still there, in its place and with its contents; flags are only ever set. */
  ghost predicate Extends(before: seq<Message>, after: seq<Message>) {
    && |before| <= |after|
    && forall i :: 0 <= i < |before| ==> after[i] == before[i] || after[i] == before[i].(read := true)
  }

  lemma ExtendsTransitive(a: seq<Message>, b: seq<Message>, c: seq<Message>)
    requires Extends(a, b) && Extends(b, c)
    ensures Extends(a, c)
  {
  }

  class Inbox {
    var messages: seq<Message>

    constructor ()
      ensures messages == []
    {
      messages := [];
    }

    method ReadUnreadMessages() returns (unread: seq<Message>)
      ensures unread == Unread(messages)
    {
      unread := [];
      for i := 0 to |messages|
        invariant unread == Unread(messages[..i])
      {
        assert messages[..i + 1][..i] == messages[..i];
        if !messages[i].read { unread := unread + [messages[i]]; }
      }
      assert messages[..|messages|] == messages;
    }

    method WriteToMailbox(msg: Message)
      modifies this
      ensures messages == old(messages) + [msg.(read := false)]
      ensures Extends(old(messages), messages)
    {
      messages := messages + [msg.(read := false)];
    }

    method MarkMessagesAsRead()
      modifies this
      ensures messages == MarkWhere(old(messages), _ => true)
      ensures |messages| == |old(messages)|
      ensures forall i :: 0 <= i < |messages| ==> messages[i] == old(messages)[i].(read := true)
      ensures Extends(old(messages), messages) && Unread(messages) == []
    {
      for i := 0 to |messages|
        invariant |messages| == |old(messages)|
        invariant forall k :: 0 <= k < i ==> messages[k] == old(messages)[k].(read := true)
        invariant forall k :: i <= k < |messages| ==> messages[k] == old(messages)[k]
      {
        messages := messages[i := messages[i].(read := true)];
      }
      AllReadNoneUnread(messages);
    }

    method MarkMessageAsReadByIndex(index: int)
      modifies this
      ensures var was := old(messages);
              messages == if 0 <= index < |was| then was[index := was[index].(read := true)] else was
      ensures Extends(old(messages), messages)
    {
      if index < 0 || index >= |messages| { return; }
      if messages[index].read { return; }
      messages := messages[index := messages[index].(read := true)];
    }

    method MarkMessagesAsReadByPredicate(chosen: Message -> bool)
      modifies this
      ensures messages == MarkWhere(old(messages), chosen)
      ensures |messages| == |old(messages)|
      ensures forall i :: 0 <= i < |messages| ==>
                messages[i] == if chosen(old(messages)[i]) && !old(messages)[i].read then
                                 old(messages)[i].(read := true)
                               else old(messages)[i]
      ensures Extends(old(messages), messages)
    {
      var changed := messages;
      for i := 0 to |messages|
        invariant |changed| == |messages| == |old(messages)| && messages == old(messages)
        invariant forall k :: 0 <= k < i ==> changed[k] == MarkWhere(messages, chosen)[k]
        invariant forall k :: i <= k < |messages| ==> changed[k] == messages[k]
      {
        if !messages[i].read && chosen(messages[i]) {
          changed := changed[i := messages[i].(read := true)];
        }
      }
      messages := changed;
    }
  }

  lemma {:induction false} AllReadNoneUnread(inbox: seq<Message>)
    ensures Unread(inbox) == [] <==> forall i :: 0 <= i < |inbox| ==> inbox[i].read
  {
    if inbox != [] {
      var rest, last := inbox[..|inbox| - 1], inbox[|inbox| - 1];
      AllReadNoneUnread(rest);
      assert forall i :: 0 <= i < |rest| ==> inbox[i] == rest[i];
      hide Unread;
      assert (forall i :: 0 <= i < |inbox| ==> inbox[i].read) <==>
             (forall i :: 0 <= i < |rest| ==> rest[i].read) && last.read;
    }
  }
}
