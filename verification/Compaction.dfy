/**
 Compaction of a long conversation: grouping it into rounds, dropping the oldest rounds when
 even the summary request is too long, and retrying (internal/core/compact/compact.go,
 grouping.go).
 */
module Compaction {
  import opened Grouping
  import opened Conversation
  import opened TailSplit
  import opened Wrappers

  const MAX_PTL_RETRIES := 3
  const PTL_RETRY_MARKER := "[earlier conversation truncated for compaction retry]"
  const PROMPT_TOO_LONG := "Prompt is too long"

  // ---------------------------------------------------------------- grouping by role

  function RoleOpens(before: seq<Message>, m: Message): bool {
    m.role == Assistant
  }

  function RoleGroups(ms: seq<Message>): seq<seq<Message>> {
    Grouped(ms, RoleOpens)
  }

  method GroupMessagesByRoleBoundary(ms: seq<Message>) returns (groups: seq<seq<Message>>)
    ensures groups == RoleGroups(ms)
  {
    groups := [];
    var current := [];
    for i := 0 to |ms|
      invariant current == [] ==> i == 0 && groups == []
      invariant RoleGroups(ms[..i]) == if current == [] then [] else groups + [current]
    {
      assert ms[..i + 1] == ms[..i] + [ms[i]];
      GroupedSnoc(ms[..i], ms[i], RoleOpens);
      if ms[i].role == Assistant && |current| > 0 {
        groups := groups + [current];
        current := [ms[i]];
      } else {
        current := current + [ms[i]];
      }
    }
    assert ms[..|ms|] == ms;
    if |current| > 0 {
      groups := groups + [current];
    }
  }

  /** The groups are a partition, their estimates add up, and each after the first begins with the assistant. */
  lemma RoleGroupsShape(ms: seq<Message>)
    ensures Flatten(RoleGroups(ms)) == ms
    ensures NonEmptyGroups(RoleGroups(ms))
    ensures GroupTokens(RoleGroups(ms)) == Tokens(ms)
    ensures forall i :: 0 < i < |RoleGroups(ms)| ==> RoleGroups(ms)[i] != [] && RoleGroups(ms)[i][0].role == Assistant
  {
    GroupedPartitions(ms, RoleOpens);
    GroupTokensAddUp(RoleGroups(ms));
    GroupsBeginOpen(ms, RoleOpens);
  }

  // ---------------------------------------------------------------- grouping by API round

  datatype MessageWithId = MessageWithId(message: Message, id: string)

  /** The id of the last assistant message, or "". */
  function LastAssistantId(ws: seq<MessageWithId>): string {
    if ws == [] then ""
    else if ws[|ws| - 1].message.role == Assistant then ws[|ws| - 1].id
    else LastAssistantId(ws[..|ws| - 1])
  }

  /** It is that of the assistant message behind which there are none, and empty when there is none at all. */
  lemma {:induction false} LastAssistantIs(ws: seq<MessageWithId>, i: nat)
    requires i < |ws| ==> ws[i].message.role == Assistant
    requires forall j :: i < j < |ws| ==> ws[j].message.role != Assistant
    requires i >= |ws| ==> forall j :: 0 <= j < |ws| ==> ws[j].message.role != Assistant
    ensures LastAssistantId(ws) == if i < |ws| then ws[i].id else ""
  {
    if ws != [] && i != |ws| - 1 {
      LastAssistantIs(ws[..|ws| - 1], i);
    }
  }

  function RoundOpens(before: seq<MessageWithId>, w: MessageWithId): bool {
    w.message.role == Assistant && w.id != LastAssistantId(before)
  }

  function AssistantOpens(before: seq<MessageWithId>, w: MessageWithId): bool {
    w.message.role == Assistant
  }

  lemma RoundOpensNext(before: seq<MessageWithId>, w: MessageWithId)
    ensures LastAssistantId(before + [w]) == if w.message.role == Assistant then w.id else LastAssistantId(before)
    ensures Grouped(before + [w], RoundOpens)
         == Extended(Grouped(before, RoundOpens), w,
                     w.message.role == Assistant && w.id != LastAssistantId(before))
  {
    assert (before + [w])[..|before|] == before;
  }

  method GroupMessagesByApiRound(ws: seq<MessageWithId>) returns (groups: seq<seq<MessageWithId>>)
    ensures groups == Grouped(ws, RoundOpens)
  {
    assert Grouped<MessageWithId>([], RoundOpens) == [] && LastAssistantId([]) == "";
    hide Grouped, LastAssistantId;
    groups := [];
    var current := [];
    var lastAssistantId := "";
    for i := 0 to |ws|
      invariant current == [] ==> i == 0 && groups == []
      invariant Grouped(ws[..i], RoundOpens) == if current == [] then [] else groups + [current]
      invariant lastAssistantId == LastAssistantId(ws[..i])
    {
      assert ws[..i + 1] == ws[..i] + [ws[i]];
      RoundOpensNext(ws[..i], ws[i]);
      if ws[i].message.role == Assistant && ws[i].id != lastAssistantId && |current| > 0 {
        groups := groups + [current];
        current := [ws[i]];
      } else {
        current := current + [ws[i]];
      }
      if ws[i].message.role == Assistant {
        lastAssistantId := ws[i].id;
      }
    }
    assert ws[..|ws|] == ws;
    if |current| > 0 {
      groups := groups + [current];
    }
  }

  function Plain(ws: seq<MessageWithId>): seq<Message> {
    Mapped(ws, (w: MessageWithId) => w.message)
  }

  function PlainGroups(gs: seq<seq<MessageWithId>>): seq<seq<Message>> {
    Mapped(gs, (g: seq<MessageWithId>) => Plain(g))
  }

  lemma {:induction false} PlainRoleGroups(ws: seq<MessageWithId>)
    ensures RoleGroups(Plain(ws)) == PlainGroups(Grouped(ws, AssistantOpens))
  {
    if ws != [] {
      var init, last := ws[..|ws| - 1], ws[|ws| - 1];
      assert ws == init + [last];
      assert Plain(ws) == Plain(init) + [last.message];
      hide Grouped, Extended, Plain, PlainGroups;
      PlainRoleGroups(init);
      GroupedSnoc(Plain(init), last.message, RoleOpens);
      GroupedSnoc(init, last, AssistantOpens);
      PlainExtended(Grouped(init, AssistantOpens), last, last.message.role == Assistant);
    }
  }

  lemma PlainExtended(gs: seq<seq<MessageWithId>>, w: MessageWithId, open: bool)
    ensures PlainGroups(Extended(gs, w, open)) == Extended(PlainGroups(gs), w.message, open)
  {
    assert Plain([w]) == [w.message];
    if gs != [] && !open {
      assert Plain(gs[|gs| - 1] + [w]) == Plain(gs[|gs| - 1]) + [w.message];
    }
  }

  lemma PlainFlatten(gs: seq<seq<MessageWithId>>)
    ensures Flatten(PlainGroups(gs)) == Plain(Flatten(gs))
  {
    if gs != [] {
      var rest, last := gs[..|gs| - 1], gs[|gs| - 1];
      PlainFlatten(rest);
      assert PlainGroups(gs)[..|gs| - 1] == PlainGroups(rest);
      assert Plain(Flatten(rest) + last) == Plain(Flatten(rest)) + Plain(last);
    }
  }

  /**
   The round groups partition the conversation and add up to its estimate; every round is a
   run of role groups; and the two groupings are the same if and only if every assistant
   message but a leading one has another id than the assistant message before it.
   */
  lemma {:induction false} RoundsAgainstRoles(ws: seq<MessageWithId>)
    ensures var rounds, roles := Grouped(ws, RoundOpens), Grouped(ws, AssistantOpens);
            && PlainGroups(roles) == RoleGroups(Plain(ws))
            && Flatten(rounds) == ws && NonEmptyGroups(rounds)
            && GroupTokens(PlainGroups(rounds)) == Tokens(Plain(ws))
            && Refines(roles, rounds)
            && (rounds == roles <==> FreshIds(ws))
  {
    PlainRoleGroups(ws);
    GroupedPartitions(ws, RoundOpens);
    PlainFlatten(Grouped(ws, RoundOpens));
    GroupTokensAddUp(PlainGroups(Grouped(ws, RoundOpens)));
    MoreOpeningsRefine(ws, AssistantOpens, RoundOpens);
    SameGroupsIff(ws, RoundOpens, AssistantOpens);
    FreshIdsOpen(ws);
  }

  /** Every assistant message but a leading one has another id than the assistant message before it. */
  ghost predicate FreshIds(ws: seq<MessageWithId>) {
    forall i :: 0 < i < |ws| && ws[i].message.role == Assistant ==> ws[i].id != LastAssistantId(ws[..i])
  }

  lemma FreshIdsOpen(ws: seq<MessageWithId>)
    ensures SameOpenings(ws, RoundOpens, AssistantOpens) <==> FreshIds(ws)
  {
    assert forall i :: 0 < i < |ws| ==>
        (OpensAt(ws, RoundOpens, i) == OpensAt(ws, AssistantOpens, i) <==>
         (ws[i].message.role == Assistant ==> ws[i].id != LastAssistantId(ws[..i])));
  }

  // ---------------------------------------------------------------- head truncation

  const MARKER: Message := TextMessage(User, PTL_RETRY_MARKER)

  predicate IsMarker(m: Message) {
    m.role == User && |m.content| == 1 && m.content[0].kind == TextBlock && m.content[0].text == PTL_RETRY_MARKER
  }

  function Strip(ms: seq<Message>): seq<Message> {
    if ms != [] && IsMarker(ms[0]) then ms[1..] else ms
  }

  /** The marker is this message of the user, and it is known by its text alone. */
  lemma MarkerIs(m: Message)
    ensures MARKER == Message(User, [Part(TextBlock, "[earlier conversation truncated for compaction retry]",
                                          "", "", "", false)])
    ensures IsMarker(m) <==> m.role == User && exists id, name, input, error ::
              m.content == [Part(TextBlock, "[earlier conversation truncated for compaction retry]",
                                 id, name, input, error)]
  {
    if IsMarker(m) {
      var p := m.content[0];
      assert m.content == [Part(p.kind, p.text, p.toolUseId, p.toolName, p.toolInput, p.isError)];
    }
  }

  /** How many rounds a request carries, not counting a marker in front. */
  function Rounds(ms: seq<Message>): nat {
    |RoleGroups(Strip(ms))|
  }

  /** From `c` on, the first number of leading groups whose estimate reaches the gap. */
  function Covering(gs: seq<seq<Message>>, gap: int, c: nat): (r: nat)
    requires c <= |gs|
    ensures c <= r <= |gs|
    decreases |gs| - c
  {
    if c == |gs| || GroupTokens(gs[..c]) >= gap then c else Covering(gs, gap, c + 1)
  }

  function DropCount(gs: seq<seq<Message>>, gap: int): nat
    requires |gs| >= 2
  {
    var n := if gap > 0 then Covering(gs, gap, 1) else if |gs| / 5 > 1 then |gs| / 5 else 1;
    if n < |gs| - 1 then n else |gs| - 1
  }

  function Truncated(ms: seq<Message>, gap: int): seq<Message> {
    var gs := RoleGroups(Strip(ms));
    if |gs| < 2 then [] else [MARKER] + Flatten(gs[DropCount(gs, gap)..])
  }

  lemma FirstOfFlatten(gs: seq<seq<Message>>)
    requires gs != [] && gs[0] != []
    ensures Flatten(gs) != [] && Flatten(gs)[0] == gs[0][0]
  {
    assert gs == [gs[0]] + gs[1..];
    FlattenConcat([gs[0]], gs[1..]);
    FlattenSnoc([], gs[0]);
    assert [] + [gs[0]] == [gs[0]];
  }

  method CoveringCount(gs: seq<seq<Message>>, gap: int) returns (dropCount: nat)
    requires |gs| >= 1
    ensures dropCount == Covering(gs, gap, 1)
  {
    var acc := 0;
    dropCount := 0;
    while dropCount < |gs|
      invariant 0 <= dropCount <= |gs|
      invariant acc == GroupTokens(gs[..dropCount])
      invariant dropCount >= 1 ==> acc < gap
      invariant Covering(gs, gap, 1) == Covering(gs, gap, if dropCount == 0 then 1 else dropCount)
    {
      assert gs[..dropCount + 1][..dropCount] == gs[..dropCount];
      var tokens := EstimateTokens(gs[dropCount]);
      acc := acc + tokens;
      dropCount := dropCount + 1;
      if acc >= gap { return; }
    }
  }

  method FlattenGroups(gs: seq<seq<Message>>) returns (sliced: seq<Message>)
    ensures sliced == Flatten(gs)
  {
    sliced := [];
    for i := 0 to |gs|
      invariant sliced == Flatten(gs[..i])
    {
      assert gs[..i + 1][..i] == gs[..i];
      sliced := sliced + gs[i];
    }
    assert gs[..|gs|] == gs;
  }

  lemma NothingToTruncate(gap: int)
    ensures Truncated([], gap) == []
  {
  }

  method CountToDrop(groups: seq<seq<Message>>, tokenGap: int) returns (dropCount: nat)
    requires |groups| >= 2
    ensures dropCount == DropCount(groups, tokenGap) && 1 <= dropCount < |groups|
  {
    if tokenGap > 0 {
      dropCount := CoveringCount(groups, tokenGap);
    } else {
      dropCount := if |groups| / 5 > 1 then |groups| / 5 else 1;
    }
    dropCount := if dropCount < |groups| - 1 then dropCount else |groups| - 1;
  }

  method TruncateHeadForPTLRetry(messages: seq<Message>, tokenGap: int) returns (result: seq<Message>)
    ensures result == Truncated(messages, tokenGap)
  {
    if |messages| == 0 {
      NothingToTruncate(tokenGap);
      return [];
    }
    var input := messages;
    if IsMarker(messages[0]) {
      input := messages[1..];
    }
    assert input == Strip(messages);
    hide Strip, RoleGroups, Flatten;
    var groups := GroupMessagesByRoleBoundary(input);
    if |groups| < 2 { return []; }
    var dropCount := CountToDrop(groups, tokenGap);
    RemainingRounds(input, dropCount);
    var sliced := FlattenGroups(groups[dropCount..]);
    if |sliced| > 0 && sliced[0].role == Assistant {
      return [TextMessage(User, PTL_RETRY_MARKER)] + sliced;
    }
    return sliced;
  }

  lemma StripMarked(ms: seq<Message>)
    ensures Strip([MARKER] + ms) == ms
  {
    assert ([MARKER] + ms)[1..] == ms;
  }

  /** What is left when the first `k` of the groups of `xs` go. */
  lemma RemainingRounds(xs: seq<Message>, k: nat)
    requires 1 <= k < |RoleGroups(xs)|
    ensures var gs := RoleGroups(xs);
            && Flatten(gs[k..]) != [] && Flatten(gs[k..])[0].role == Assistant
            && Flatten(gs[..k]) != []
            && xs == Flatten(gs[..k]) + Flatten(gs[k..])
            && RoleGroups(Flatten(gs[k..])) == gs[k..]
  {
    hide Flatten, Grouped;
    var gs := RoleGroups(xs);
    RoleGroupsShape(xs);
    FirstOfFlatten(gs[k..]);
    FirstOfFlatten(gs[..k]);
    RegroupSuffix(xs, RoleOpens, k);
    assert gs == gs[..k] + gs[k..];
    FlattenConcat(gs[..k], gs[k..]);
  }

  /**
   A truncation succeeds exactly when there are two rounds to tell apart.  It is then the
   marker and a proper suffix of the rounds, which regroup to just those rounds.
   */
  lemma {:induction false} TruncationKeepsSuffix(ms: seq<Message>, gap: int)
    ensures var r := Truncated(ms, gap);
            && (r == [] <==> Rounds(ms) < 2)
            && (r != [] ==>
                  var gs := RoleGroups(Strip(ms));
                  var k := DropCount(gs, gap);
                  && 1 <= k < |gs|
                  && r[0] == MARKER && r[0].role == User
                  && Strip(r) == Flatten(gs[k..])
                  && Flatten(gs[..k]) != [] && Strip(ms) == Flatten(gs[..k]) + Strip(r)
                  && RoleGroups(Strip(r)) == gs[k..]
                  && Rounds(r) == Rounds(ms) - k)
  {
    var gs := RoleGroups(Strip(ms));
    if |gs| >= 2 {
      var k := DropCount(gs, gap);
      RemainingRounds(Strip(ms), k);
      StripMarked(Flatten(gs[k..]));
    }
  }

  /** A known gap is met by the fewest groups that meet it, unless that would leave none. */
  lemma {:induction false} GapIsCovered(gs: seq<seq<Message>>, gap: int, c: nat)
    requires 1 <= c <= |gs|
    ensures var r := Covering(gs, gap, c);
            && (r < |gs| ==> GroupTokens(gs[..r]) >= gap)
            && (forall b :: c <= b < r ==> GroupTokens(gs[..b]) < gap)
    decreases |gs| - c
  {
    if c < |gs| && GroupTokens(gs[..c]) < gap {
      GapIsCovered(gs, gap, c + 1);
    }
  }

  /** How many groups go: for a positive gap the fewest that cover it, else a fifth, but at least one and never all. */
  lemma DropsFewest(gs: seq<seq<Message>>, gap: int)
    requires |gs| >= 2
    ensures var k := DropCount(gs, gap);
            && 1 <= k <= |gs| - 1
            && (gap >= 1 ==>
                  && (forall b :: 1 <= b < k ==> GroupTokens(gs[..b]) < gap)
                  && (k < |gs| - 1 ==> GroupTokens(gs[..k]) >= gap))
            && (gap <= 0 ==> if |gs| < 10 then k == 1 else 5 * k <= |gs| < 5 * k + 5)
  {
    GapIsCovered(gs, gap, 1);
  }

  /**
   The number of messages is no measure of progress: a truncation never adds any, but it returns fewer exactly
   when it replaces an earlier marker or drops more than the one message that the new marker makes up for.
   */
  lemma MessageCountFallsIff(ms: seq<Message>, gap: int)
    requires Truncated(ms, gap) != []
    ensures var gs := RoleGroups(Strip(ms));
            && |Truncated(ms, gap)| <= |ms|
            && (|Truncated(ms, gap)| < |ms| <==> IsMarker(ms[0]) || |Flatten(gs[..DropCount(gs, gap)])| > 1)
  {
    TruncationKeepsSuffix(ms, gap);
    var gs := RoleGroups(Strip(ms));
    var k := DropCount(gs, gap);
    assert Truncated(ms, gap) == [MARKER] + Flatten(gs[k..]);
    assert |Strip(ms)| == |Flatten(gs[..k])| + |Flatten(gs[k..])|;
    assert ms != [];
  }

  // ---------------------------------------------------------------- cuts between groups are safe

  /** Every group but the first begins with an assistant message. */
  ghost predicate AssistantHeads(gs: seq<seq<Message>>) {
    LaterHeads(gs, IsAssistant)
  }

  predicate IsAssistant(m: Message) {
    m.role == Assistant
  }

  /** A cut in front of an assistant message separates no tool call from its result. */
  lemma CutBeforeAssistant(head: seq<Message>, tail: seq<Message>)
    requires tail != [] ==> tail[0].role == Assistant
    ensures WellPaired(head + tail) <==> WellPaired(head) && WellPaired(tail)
  {
    hide Answers, Calls;
    if WellPaired(head) && WellPaired(tail) { JoinKeepsPairs(head, tail); }
    if WellPaired(head + tail) {
      assert tail != [] ==> (head + tail)[|head|] == tail[0];
      PartsKeepPairs(head, tail);
    }
  }

  /** So a conversation is well paired exactly when both sides of a cut between two of its groups are. */
  lemma GroupCutKeepsPairsIff(gs: seq<seq<Message>>, k: nat)
    requires AssistantHeads(gs) && 1 <= k <= |gs|
    ensures WellPaired(Flatten(gs)) <==> WellPaired(Flatten(gs[..k])) && WellPaired(Flatten(gs[k..]))
  {
    assert gs == gs[..k] + gs[k..];
    FlattenConcat(gs[..k], gs[k..]);
    if k < |gs| { FirstOfFlatten(gs[k..]); }
    hide Flatten, WellPaired;
    assert gs[k..] == [] ==> Flatten(gs[k..]) == [] by { FlattenNone(gs[k..]); }
    CutBeforeAssistant(Flatten(gs[..k]), Flatten(gs[k..]));
  }

  lemma FlattenNone(gs: seq<seq<Message>>)
    ensures gs == [] ==> Flatten(gs) == []
  {
  }

  predicate FromAssistant(w: MessageWithId) {
    w.message.role == Assistant
  }

  lemma {:induction false} RoundsBeginWithAssistant(ws: seq<MessageWithId>)
    ensures LaterHeads(Grouped(ws, RoundOpens), FromAssistant)
  {
    if ws != [] {
      var n := |ws| - 1;
      RoundsBeginWithAssistant(ws[..n]);
      ExtendedHeads(Grouped(ws[..n], RoundOpens), ws[n], OpensAt(ws, RoundOpens, n), FromAssistant);
    }
  }

  lemma RoundHeads(ws: seq<MessageWithId>)
    ensures AssistantHeads(PlainGroups(Grouped(ws, RoundOpens)))
  {
    RoundsBeginWithAssistant(ws);
    var gs := Grouped(ws, RoundOpens);
    forall i | 0 < i < |gs|
      ensures PlainGroups(gs)[i] != [] && PlainGroups(gs)[i][0].role == Assistant
    {
      assert PlainGroups(gs)[i] == Plain(gs[i]);
    }
  }

  /** Cuts between the groups of either grouping are such cuts. */
  lemma GroupingsCutSafely(ms: seq<Message>, ws: seq<MessageWithId>)
    ensures AssistantHeads(RoleGroups(ms))
    ensures AssistantHeads(PlainGroups(Grouped(ws, RoundOpens)))
  {
    RoleGroupsShape(ms);
    RoundHeads(ws);
  }

  /** A truncation of a well-paired conversation is well paired. */
  lemma TruncationKeepsPairs(ms: seq<Message>, gap: int)
    requires WellPaired(Strip(ms))
    ensures WellPaired(Strip(Truncated(ms, gap)))
  {
    TruncationKeepsSuffix(ms, gap);
    if Truncated(ms, gap) != [] {
      var gs := RoleGroups(Strip(ms));
      RoleGroupsShape(Strip(ms));
      assert AssistantHeads(gs);
      GroupCutKeepsPairsIff(gs, DropCount(gs, gap));
    }
  }

  // ---------------------------------------------------------------- the retry loop

  /** What the model client answers to one summary request. */
  datatype Reply = Summary(text: string) | StreamError(text: string)

  predicate Contains(s: string, sub: string) {
    sub <= s || (s != "" && Contains(s[1..], sub))
  }

  predicate TooLong(r: Reply) {
    match r
    case Summary(text) => PROMPT_TOO_LONG <= text
    case StreamError(text) => Contains(text, PROMPT_TOO_LONG)
  }

  datatype SummaryResult = Generated(text: string) | GenerationFailed(text: string) | RetriesExhausted

  /** The result that the answer to the last request decides. */
  function Outcome(last: Reply): SummaryResult {
    if TooLong(last) then RetriesExhausted
    else match last case Summary(text) => Generated(text) case StreamError(text) => GenerationFailed(text)
  }

  lemma {:induction false} ContainsAt(a: string, sub: string, b: string)
    ensures Contains(a + sub + b, sub)
  {
    if a == "" {
      assert a + sub + b == sub + b;
    } else {
      ContainsAt(a[1..], sub, b);
      assert (a + sub + b)[1..] == a[1..] + sub + b;
    }
  }

  lemma {:induction false} PlaceIn(s: string, sub: string) returns (a: string, b: string)
    requires Contains(s, sub)
    ensures s == a + sub + b
  {
    if sub <= s {
      a, b := "", s[|sub|..];
    } else {
      a, b := PlaceIn(s[1..], sub);
      a := [s[0]] + a;
    }
  }

  lemma ContainsIff(s: string, sub: string)
    ensures Contains(s, sub) <==> exists a, b :: s == a + sub + b
  {
    hide Contains;
    if Contains(s, sub) {
      var a, b := PlaceIn(s, sub);
    }
    if a, b :| s == a + sub + b {
      ContainsAt(a, sub, b);
    }
  }

  /** A summary that begins with these words says that the prompt is too long, and so does an error that holds them. */
  ghost predicate SaysTooLong(r: Reply) {
    match r
    case Summary(text) => exists b :: text == "Prompt is too long" + b
    case StreamError(text) => exists a, b :: text == a + "Prompt is too long" + b
  }

  lemma TooLongIff(r: Reply)
    ensures TooLong(r) <==> SaysTooLong(r)
  {
    match r
    case Summary(text) =>
      if PROMPT_TOO_LONG <= text { assert text == PROMPT_TOO_LONG + text[|PROMPT_TOO_LONG|..]; }
    case StreamError(text) =>
      ContainsIff(text, PROMPT_TOO_LONG);
  }

  /** What the loop returns, and the requests it sends. */
  datatype Attempts = Attempts(result: SummaryResult, sent: seq<seq<Message>>)

  /** The loop from its `k`th request on; `reply(k, request)` answers that request. */
  function Retry(api: seq<Message>, k: nat, summaryRequest: Message, reply: (nat, seq<Message>) -> Reply): Attempts
    requires k <= MAX_PTL_RETRIES
    decreases MAX_PTL_RETRIES - k
  {
    var request := api + [summaryRequest];
    var answer := reply(k, request);
    var truncated := Truncated(api, 0);
    if !TooLong(answer) || k == MAX_PTL_RETRIES || truncated == [] then Attempts(Outcome(answer), [request])
    else
      var rest := Retry(truncated, k + 1, summaryRequest, reply);
      Attempts(rest.result, [request] + rest.sent)
  }

  lemma RetryStep(api: seq<Message>, k: nat, summaryRequest: Message, reply: (nat, seq<Message>) -> Reply)
    requires k <= MAX_PTL_RETRIES
    ensures var request := api + [summaryRequest];
            var run, truncated := Retry(api, k, summaryRequest, reply), Truncated(api, 0);
            if !TooLong(reply(k, request)) || k == MAX_PTL_RETRIES || truncated == [] then
              run == Attempts(Outcome(reply(k, request)), [request])
            else
              var rest := Retry(truncated, k + 1, summaryRequest, reply);
              run == Attempts(rest.result, [request] + rest.sent)
  {
    hide Truncated, TooLong;
  }

  method SummarizeWithRetries(messages: seq<Message>, summaryRequest: Message, reply: (nat, seq<Message>) -> Reply)
    returns (result: SummaryResult, sent: seq<seq<Message>>)
    ensures Attempts(result, sent) == Retry(messages, 0, summaryRequest, reply)
    ensures 1 <= |sent| <= 4
  {
    hide Truncated, TooLong, Retry;
    var apiMessages := messages;
    sent := [];
    var ptlAttempts := 0;
    while true
      invariant 0 <= ptlAttempts <= MAX_PTL_RETRIES && |sent| == ptlAttempts
      invariant var rest := Retry(apiMessages, ptlAttempts, summaryRequest, reply);
                Retry(messages, 0, summaryRequest, reply) == Attempts(rest.result, sent + rest.sent)
      decreases MAX_PTL_RETRIES - ptlAttempts
    {
      RetryStep(apiMessages, ptlAttempts, summaryRequest, reply);
      var request := apiMessages + [summaryRequest];
      var answer := reply(ptlAttempts, request);
      ghost var before := sent;
      sent := sent + [request];
      if !TooLong(answer) {
        return if answer.Summary? then Generated(answer.text) else GenerationFailed(answer.text), sent;
      }
      ptlAttempts := ptlAttempts + 1;
      var truncated := TruncateHeadForPTLRetry(apiMessages, 0);
      if ptlAttempts > MAX_PTL_RETRIES || |truncated| == 0 {
        return RetriesExhausted, sent;
      }
      apiMessages := truncated;
      ghost var rest := Retry(apiMessages, ptlAttempts, summaryRequest, reply);
      Associative(before, [request], rest.sent);
    }
  }

  function Dropped(rounds: nat): nat {
    if rounds / 5 > 1 then rounds / 5 else 1
  }

  /** With an unknown gap a truncation drops a fifth of the rounds, and at least one. */
  lemma RoundsFall(ms: seq<Message>)
    ensures Truncated(ms, 0) == [] <==> Rounds(ms) < 2
    ensures Truncated(ms, 0) != [] ==>
              var n, gone := Rounds(ms), Rounds(ms) - Rounds(Truncated(ms, 0));
              gone == Dropped(n) && gone >= 1 && (if n < 10 then gone == 1 else 5 * gone <= n < 5 * gone + 5)
  {
    TruncationKeepsSuffix(ms, 0);
  }

  /** How many requests `rounds` rounds allow when `k` have been sent. */
  function RequestsLeft(rounds: nat, k: nat): int {
    var n := if rounds > 1 then rounds else 1;
    if n < MAX_PTL_RETRIES + 1 - k then n else MAX_PTL_RETRIES + 1 - k
  }

  /** Dropping a fifth of the rounds costs one request, because at most four are sent. */
  lemma OneRequestLess(rounds: nat, k: nat)
    requires rounds >= 2 && k < MAX_PTL_RETRIES
    ensures RequestsLeft(rounds, k) == 1 + RequestsLeft(rounds - Dropped(rounds), k + 1)
  {
    if rounds < 10 {
      assert Dropped(rounds) == 1;
    } else {
      assert rounds - Dropped(rounds) >= 8;
    }
  }

  /**
   The loop sends at most min(4, max(1, rounds)) requests, counting from the first, and
   gives up only after sending exactly that many.
  */
  lemma {:induction false} RequestsAreBounded(api: seq<Message>, k: nat, summaryRequest: Message,
                                              reply: (nat, seq<Message>) -> Reply)
    requires k <= MAX_PTL_RETRIES
    ensures var run, most := Retry(api, k, summaryRequest, reply), RequestsLeft(Rounds(api), k);
            1 <= |run.sent| <= most && (run.result.RetriesExhausted? ==> |run.sent| == most)
    decreases MAX_PTL_RETRIES - k
  {
    hide Truncated, Rounds, Retry, TooLong, Dropped;
    RetryStep(api, k, summaryRequest, reply);
    RoundsFall(api);
    var truncated := Truncated(api, 0);
    if TooLong(reply(k, api + [summaryRequest])) && k < MAX_PTL_RETRIES && truncated != [] {
      RequestsAreBounded(truncated, k + 1, summaryRequest, reply);
      OneRequestLess(Rounds(api), k);
    }
  }

  /** No run ends with a text that says the prompt is too long. */
  lemma {:induction false} ResultIsNotTooLong(api: seq<Message>, k: nat, summaryRequest: Message,
                                              reply: (nat, seq<Message>) -> Reply)
    requires k <= MAX_PTL_RETRIES
    ensures var r := Retry(api, k, summaryRequest, reply).result;
            && (forall b :: r != Generated("Prompt is too long" + b))
            && (forall a, b :: r != GenerationFailed(a + "Prompt is too long" + b))
    decreases MAX_PTL_RETRIES - k
  {
    hide Truncated, TooLong, Retry;
    RetryStep(api, k, summaryRequest, reply);
    var answer := reply(k, api + [summaryRequest]);
    TooLongIff(answer);
    if TooLong(answer) && k < MAX_PTL_RETRIES && Truncated(api, 0) != [] {
      ResultIsNotTooLong(Truncated(api, 0), k + 1, summaryRequest, reply);
    }
  }

  /**
   An answer of any other kind ends the loop at once, with its text.  One that says so is followed by a further
   request, as long as there are two rounds and fewer than four requests have been sent; otherwise the loop gives up.
   */
  lemma AnswerDecides(api: seq<Message>, k: nat, summaryRequest: Message, reply: (nat, seq<Message>) -> Reply)
    requires k <= 3
    ensures var answer, run := reply(k, api + [summaryRequest]), Retry(api, k, summaryRequest, reply);
            && run.sent != [] && run.sent[0] == api + [summaryRequest]
            && (!SaysTooLong(answer) ==>
                  && |run.sent| == 1
                  && run.result == match answer
                                   case Summary(text) => Generated(text)
                                   case StreamError(text) => GenerationFailed(text))
            && (SaysTooLong(answer) && (k == 3 || Rounds(api) < 2) ==>
                  |run.sent| == 1 && run.result == RetriesExhausted)
            && (SaysTooLong(answer) && k < 3 && Rounds(api) >= 2 ==> |run.sent| >= 2)
  {
    hide Truncated, TooLong, Retry, Rounds;
    RetryStep(api, k, summaryRequest, reply);
    RoundsFall(api);
    var answer := reply(k, api + [summaryRequest]);
    TooLongIff(answer);
    if TooLong(answer) && k < MAX_PTL_RETRIES && Truncated(api, 0) != [] {
      RetryStep(Truncated(api, 0), k + 1, summaryRequest, reply);
    }
  }

  /** The request is the marker, a proper suffix of the conversation, and the summary request. */
  ghost predicate CarriesSuffix(api: seq<Message>, request: seq<Message>, summaryRequest: Message) {
    exists dropped, kept :: dropped != [] && Strip(api) == dropped + kept && request == Resent(kept, summaryRequest)
  }

  function Resent(kept: seq<Message>, summaryRequest: Message): seq<Message> {
    [MARKER] + kept + [summaryRequest]
  }

  lemma DroppedPrefix(api: seq<Message>) returns (dropped: seq<Message>)
    requires Truncated(api, 0) != []
    ensures dropped != [] && Strip(api) == dropped + Strip(Truncated(api, 0))
    ensures Truncated(api, 0) == [MARKER] + Strip(Truncated(api, 0))
  {
    TruncationKeepsSuffix(api, 0);
    var gs := RoleGroups(Strip(api));
    dropped := Flatten(gs[..DropCount(gs, 0)]);
  }

  lemma SuffixOfSuffix(api: seq<Message>, truncated: seq<Message>, request: seq<Message>, summaryRequest: Message)
    requires truncated == Truncated(api, 0) && truncated != []
    requires CarriesSuffix(truncated, request, summaryRequest) || request == truncated + [summaryRequest]
    ensures CarriesSuffix(api, request, summaryRequest)
  {
    hide Truncated;
    var here := DroppedPrefix(api);
    if request == truncated + [summaryRequest] {
      assert request == Resent(Strip(truncated), summaryRequest);
    } else {
      var dropped, kept :| && dropped != [] && Strip(truncated) == dropped + kept
                           && request == Resent(kept, summaryRequest);
      assert Strip(api) == (here + dropped) + kept;
    }
  }

  /**
   The requests are as they should be from the `k`th on: every one but the last was too long and the last one
   decides the result; the first carries the whole conversation, and every later one begins with the user's
   marker and carries a proper suffix of it.
   */
  ghost predicate CarriesSuffixes(api: seq<Message>, k: nat, run: Attempts, summaryRequest: Message,
                                  reply: (nat, seq<Message>) -> Reply) {
    && run.sent != [] && run.sent[0] == api + [summaryRequest]
    && (forall i :: 0 <= i < |run.sent| - 1 ==> TooLong(reply(k + i, run.sent[i])))
    && run.result == Outcome(reply(k + |run.sent| - 1, run.sent[|run.sent| - 1]))
    && (forall i :: 1 <= i < |run.sent| ==> CarriesSuffix(api, run.sent[i], summaryRequest))
  }

  lemma PrependRequest(api: seq<Message>, k: nat, rest: Attempts, summaryRequest: Message,
                       reply: (nat, seq<Message>) -> Reply)
    requires Truncated(api, 0) != [] && TooLong(reply(k, api + [summaryRequest]))
    requires CarriesSuffixes(Truncated(api, 0), k + 1, rest, summaryRequest, reply)
    ensures CarriesSuffixes(api, k, Attempts(rest.result, [api + [summaryRequest]] + rest.sent), summaryRequest, reply)
  {
    hide Truncated, CarriesSuffix, TooLong, Outcome;
    var sent := [api + [summaryRequest]] + rest.sent;
    assert forall i :: 1 <= i < |sent| ==> sent[i] == rest.sent[i - 1];
    forall i | 1 <= i < |sent|
      ensures CarriesSuffix(api, sent[i], summaryRequest)
    {
      SuffixOfSuffix(api, Truncated(api, 0), sent[i], summaryRequest);
    }
    forall i | 0 <= i < |sent| - 1
      ensures TooLong(reply(k + i, sent[i]))
    {
      if i > 0 { assert k + i == (k + 1) + (i - 1); }
    }
  }

  /** Every run of the loop is so. */
  lemma {:induction false} RetriesCarrySuffixes(api: seq<Message>, k: nat, summaryRequest: Message,
                                                reply: (nat, seq<Message>) -> Reply)
    requires k <= MAX_PTL_RETRIES
    ensures CarriesSuffixes(api, k, Retry(api, k, summaryRequest, reply), summaryRequest, reply)
    decreases MAX_PTL_RETRIES - k
  {
    RetryStep(api, k, summaryRequest, reply);
    hide Truncated, CarriesSuffix, Retry, TooLong, Outcome;
    if TooLong(reply(k, api + [summaryRequest])) && k < MAX_PTL_RETRIES && Truncated(api, 0) != [] {
      RetriesCarrySuffixes(Truncated(api, 0), k + 1, summaryRequest, reply);
      PrependRequest(api, k, Retry(Truncated(api, 0), k + 1, summaryRequest, reply), summaryRequest, reply);
    }
  }
}
