/**
 The part of a conversation that is summarized and the tail of the active turn that is kept
 as it is (internal/core/compact/boundary.go and splitMessagesForCompaction in compact.go).
 */
module TailSplit {
  import opened Conversation

  const COMPACT_BOUNDARY := "[compact_boundary]"

  predicate IsBoundaryPart(p: Part) {
    p.kind == TextBlock && p.text == COMPACT_BOUNDARY
  }

  predicate IsBoundary(m: Message) {
    (m.role == User || m.role == System) && exists i :: 0 <= i < |m.content| && IsBoundaryPart(m.content[i])
  }

  method IsCompactBoundary(m: Message) returns (found: bool)
    ensures found == IsBoundary(m)
    ensures found <==>
            && (m.role == User || m.role == System)
            && exists p :: p in m.content && p.kind == TextBlock && p.text == "[compact_boundary]"
  {
    if m.role != User && m.role != System { return false; }
    for i := 0 to |m.content|
      invariant forall j :: 0 <= j < i ==> !IsBoundaryPart(m.content[j])
    {
      if IsBoundaryPart(m.content[i]) { return true; }
    }
    return false;
  }

  /** Where the summarizable conversation begins: at the last boundary, or at the start. */
  function AfterBoundary(ms: seq<Message>): (from: nat)
    ensures from <= |ms|
    ensures from == 0 || (from < |ms| && IsBoundary(ms[from]))
    ensures forall i :: from < i < |ms| ==> !IsBoundary(ms[i])
    ensures from == 0 && ms != [] && !IsBoundary(ms[0]) ==> forall i :: 0 <= i < |ms| ==> !IsBoundary(ms[i])
  {
    if ms == [] then 0
    else if IsBoundary(ms[|ms| - 1]) then |ms| - 1
    else
      var from := AfterBoundary(ms[..|ms| - 1]);
      assert forall i :: 0 <= i < |ms| - 1 ==> ms[..|ms| - 1][i] == ms[i];
      from
  }

  method FindLastCompactBoundary(ms: seq<Message>) returns (idx: int)
    ensures -1 <= idx < |ms|
    ensures idx == -1 <==> forall i :: 0 <= i < |ms| ==> !IsBoundary(ms[i])
    ensures idx >= 0 ==> IsBoundary(ms[idx]) && forall i :: idx < i < |ms| ==> !IsBoundary(ms[i])
    ensures AfterBoundary(ms) == if idx == -1 then 0 else idx
  {
    idx := |ms| - 1;
    while idx >= 0
      invariant -1 <= idx < |ms|
      invariant forall i :: idx < i < |ms| ==> !IsBoundary(ms[i])
    {
      var found := IsCompactBoundary(ms[idx]);
      if found { break; }
      idx := idx - 1;
    }
  }

  // ---------------------------------------------------------------- tool calls and results

  predicate Calls(m: Message, id: string) {
    exists i :: 0 <= i < |m.content| && m.content[i].kind == ToolUse && m.content[i].toolUseId == id
  }

  predicate Answers(m: Message, id: string) {
    exists i :: 0 <= i < |m.content| && m.content[i].kind == ToolResult && m.content[i].toolUseId == id
  }

  predicate ContainsToolUse(m: Message) {
    exists i :: 0 <= i < |m.content| && m.content[i].kind == ToolUse
  }

  predicate ContainsToolResult(m: Message) {
    exists i :: 0 <= i < |m.content| && m.content[i].kind == ToolResult
  }

  /** Every tool result stands in a user message and answers a call of the assistant message just before. */
  ghost predicate WellPaired(ms: seq<Message>) {
    forall j, id :: 0 <= j < |ms| && Answers(ms[j], id) ==>
      ms[j].role == User && j > 0 && ms[j - 1].role == Assistant && Calls(ms[j - 1], id)
  }

  lemma ResultHasId(m: Message)
    ensures ContainsToolResult(m) <==> exists id :: Answers(m, id)
  {
    if ContainsToolResult(m) {
      var i :| 0 <= i < |m.content| && m.content[i].kind == ToolResult;
      assert Answers(m, m.content[i].toolUseId);
    }
  }

  function PreservedTailCount(ms: seq<Message>): nat {
    if ms == [] then 0
    else
      var n := |ms|;
      if ms[n - 1].role != User then 0
      else if !ContainsToolResult(ms[n - 1]) || n < 2 then 1
      else if ms[n - 2].role == Assistant && ContainsToolUse(ms[n - 2]) then 2
      else 1
  }

  lemma PreservedTailIsShort(ms: seq<Message>)
    ensures PreservedTailCount(ms) <= 2 && PreservedTailCount(ms) <= |ms|
    ensures PreservedTailCount(ms) == 0 <==> ms == [] || ms[|ms| - 1].role != User
  {
    hide ContainsToolUse, ContainsToolResult;
  }

  /** The messages to summarize, and the tail to keep. */
  function Split(ms: seq<Message>): (seq<Message>, seq<Message>) {
    CutTail(ms[AfterBoundary(ms)..])
  }

  function CutTail(candidate: seq<Message>): (seq<Message>, seq<Message>) {
    var keep := PreservedTailCount(candidate);
    if candidate == [] then ([], [])
    else if keep == 0 then (candidate, [])
    else if keep >= |candidate| then ([], candidate)
    else (candidate[..|candidate| - keep], candidate[|candidate| - keep..])
  }

  lemma CutTailRejoins(candidate: seq<Message>)
    ensures var (head, tail) := CutTail(candidate);
            && head + tail == candidate && |tail| == PreservedTailCount(candidate)
  {
    hide PreservedTailCount;
    PreservedTailIsShort(candidate);
  }

  /** Nothing is lost, and the tail is what the active turn needs: at most the last call and its results. */
  lemma SplitRejoins(ms: seq<Message>)
    ensures var (head, tail) := Split(ms);
            && head + tail == ms[AfterBoundary(ms)..]
            && |tail| <= 2
            && (tail == [] <==> ms == [] || ms[|ms| - 1].role != User)
  {
    hide PreservedTailCount, CutTail;
    var candidate := ms[AfterBoundary(ms)..];
    CutTailRejoins(candidate);
    PreservedTailIsShort(candidate);
    if ms != [] {
      assert candidate[|candidate| - 1] == ms[|ms| - 1];
    }
  }

  /** Some part of the message is of this kind. */
  ghost predicate HasPart(m: Message, kind: Kind) {
    exists i :: 0 <= i < |m.content| && m.content[i].kind == kind
  }

  lemma LastOnes<T>(head: seq<T>, tail: seq<T>)
    ensures var all, n := head + tail, |head + tail|;
            && (|tail| == 1 ==> tail == [all[n - 1]])
            && (|tail| == 2 ==> tail == [all[n - 2], all[n - 1]])
  {
  }

  lemma TailCountIs(ms: seq<Message>)
    ensures PreservedTailCount(ms) ==
            var n := |ms|;
            if n == 0 || ms[n - 1].role != User then 0
            else if && n >= 2 && HasPart(ms[n - 1], ToolResult)
                    && ms[n - 2].role == Assistant && HasPart(ms[n - 2], ToolUse)
            then 2
            else 1
  {
    var n := |ms|;
    if n >= 1 { assert ContainsToolResult(ms[n - 1]) <==> HasPart(ms[n - 1], ToolResult); }
    if n >= 2 { assert ContainsToolUse(ms[n - 2]) <==> HasPart(ms[n - 2], ToolUse); }
    hide ContainsToolResult, ContainsToolUse, HasPart;
  }

  /**
   What is kept as the tail: nothing unless the last message is the user's; that message; and with it the
   assistant's message before it exactly when the one holds a tool result and the other a tool call.
   */
  lemma TailIs(ms: seq<Message>)
    ensures var candidate, tail := ms[AfterBoundary(ms)..], Split(ms).1;
            var n := |candidate|;
            if n == 0 || candidate[n - 1].role != User then tail == []
            else if && n >= 2 && HasPart(candidate[n - 1], ToolResult)
                    && candidate[n - 2].role == Assistant && HasPart(candidate[n - 2], ToolUse)
            then tail == [candidate[n - 2], candidate[n - 1]]
            else tail == [candidate[n - 1]]
  {
    hide AfterBoundary, CutTail, PreservedTailCount, HasPart;
    var candidate := ms[AfterBoundary(ms)..];
    CutTailRejoins(candidate);
    TailCountIs(candidate);
    LastOnes(Split(ms).0, Split(ms).1);
  }

  /** Summarizing the head and keeping the tail never costs more than the whole conversation did. */
  lemma SplitTokens(ms: seq<Message>)
    ensures Tokens(Split(ms).0) + Tokens(Split(ms).1) + Tokens(ms[..AfterBoundary(ms)]) == Tokens(ms)
  {
    hide Split;
    var from := AfterBoundary(ms);
    SplitRejoins(ms);
    assert ms == ms[..from] + ms[from..];
    TokensConcat(ms[..from], ms[from..]);
    TokensConcat(Split(ms).0, Split(ms).1);
  }

  lemma JoinKeepsPairs(head: seq<Message>, tail: seq<Message>)
    requires WellPaired(head) && WellPaired(tail)
    ensures WellPaired(head + tail)
  {
    hide Answers, Calls;
    var all := head + tail;
    forall j, id | 0 <= j < |all| && Answers(all[j], id)
      ensures all[j].role == User && j > 0 && all[j - 1].role == Assistant && Calls(all[j - 1], id)
    {
      if j < |head| {
        assert Answers(head[j], id);
      } else {
        assert Answers(tail[j - |head|], id);
      }
    }
  }

  /** Of a well-paired history each side of a cut is well paired, if no result stands right behind the cut. */
  lemma PartsKeepPairs(head: seq<Message>, tail: seq<Message>)
    requires WellPaired(head + tail)
    requires tail != [] ==> forall id :: !Answers(tail[0], id)
    ensures WellPaired(head) && WellPaired(tail)
  {
    hide Answers, Calls;
    var all := head + tail;
    forall j, id | 0 <= j < |head| && Answers(head[j], id)
      ensures head[j].role == User && j > 0 && head[j - 1].role == Assistant && Calls(head[j - 1], id)
    {
      assert Answers(all[j], id);
    }
    forall j, id | 0 <= j < |tail| && Answers(tail[j], id)
      ensures tail[j].role == User && j > 0 && tail[j - 1].role == Assistant && Calls(tail[j - 1], id)
    {
      assert Answers(all[|head| + j], id);
    }
  }

  /** A call and its results always land on the same side: the history is well paired iff each side is by itself. */
  lemma SplitKeepsPairsIff(ms: seq<Message>)
    ensures WellPaired(ms[AfterBoundary(ms)..]) <==> WellPaired(Split(ms).0) && WellPaired(Split(ms).1)
  {
    hide Split, AfterBoundary, WellPaired;
    SplitRejoins(ms);
    if WellPaired(ms[AfterBoundary(ms)..]) {
      SplitKeepsPairs(ms);
    }
    if WellPaired(Split(ms).0) && WellPaired(Split(ms).1) {
      JoinKeepsPairs(Split(ms).0, Split(ms).1);
    }
  }

  /** The tail does not begin with a result: that would have taken its call along. */
  lemma TailBeginsPaired(candidate: seq<Message>, id: string)
    requires WellPaired(candidate)
    ensures var tail := CutTail(candidate).1; tail != [] ==> !Answers(tail[0], id)
  {
    var n := |candidate|;
    CutTailRejoins(candidate);
    if n > 0 && Answers(candidate[n - 1], id) { ResultHasId(candidate[n - 1]); }
    hide Answers, ContainsToolResult;
  }

  lemma SplitKeepsPairs(ms: seq<Message>)
    requires WellPaired(ms[AfterBoundary(ms)..])
    ensures WellPaired(Split(ms).0) && WellPaired(Split(ms).1)
  {
    hide AfterBoundary, WellPaired, Answers, CutTail;
    var candidate := ms[AfterBoundary(ms)..];
    var (head, tail) := CutTail(candidate);
    CutTailRejoins(candidate);
    forall id | tail != []
      ensures !Answers(tail[0], id)
    {
      TailBeginsPaired(candidate, id);
    }
    PartsKeepPairs(head, tail);
  }

  /**
   Cutting a well-paired history at the last boundary keeps it well paired exactly when nothing comes before
   the boundary or the boundary carries no tool result.
   */
  lemma CutKeepsPairsIff(ms: seq<Message>)
    requires WellPaired(ms)
    ensures var from := AfterBoundary(ms);
            WellPaired(ms[from..]) <==> from == 0 || !ContainsToolResult(ms[from])
  {
    var from := AfterBoundary(ms);
    if from == 0 {
      assert ms[from..] == ms;
    } else if ContainsToolResult(ms[from]) {
      ResultHasId(ms[from]);
      var id :| Answers(ms[from], id);
      assert Answers(ms[from..][0], id);
    } else {
      hide Answers, Calls;
      SuffixKeepsPairs(ms, from);
    }
  }

  lemma SuffixKeepsPairs(ms: seq<Message>, from: nat)
    requires WellPaired(ms) && from < |ms| && !ContainsToolResult(ms[from])
    ensures WellPaired(ms[from..])
  {
    ResultHasId(ms[from]);
    assert ms == ms[..from] + ms[from..] && ms[from..][0] == ms[from];
    hide Answers, ContainsToolResult, WellPaired;
    PartsKeepPairs(ms[..from], ms[from..]);
  }
}
