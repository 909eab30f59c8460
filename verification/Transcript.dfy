/**
 Writing a conversation to a transcript and getting it back (internal/core/transcript/entry.go, recovery.go).
 */
module Transcript {
  import opened Wrappers
  import opened Conversation

  datatype Metadata = Metadata(trigger: string, preTokenCount: int, postTokenCount: int)

  /** `tag` is the type field of the stored record. */
  datatype Entry =
    | UserEntry(tag: string, timestamp: int, message: Message)
    | AssistantEntry(tag: string, timestamp: int, message: Message)
    | ToolUseEntry(tag: string, timestamp: int, toolUseId: string, name: string, input: string)
    | ToolResultEntry(tag: string, timestamp: int, toolUseId: string, output: string, isError: bool)
    | SystemEntry(tag: string, subtype: string, timestamp: int, content: string, metadata: Option<Metadata>)
    | SummaryEntry(tag: string, timestamp: int, summary: string)
    | ProgressEntry(tag: string, uuid: string, parentUuid: string, data: string)
    | UnknownEntry(data: string)

  datatype CompactBoundary =
    CompactBoundary(messageIndex: nat, trigger: string, preTokenCount: int, postTokenCount: int)

  datatype Recovered = Recovered(messages: seq<Message>, summaries: seq<Entry>, boundaries: seq<CompactBoundary>)

  const COMPACT_BOUNDARY := "compact_boundary"

  // ---------------------------------------------------------------- writing

  function NewBoundaryEntry(timestamp: int, trigger: string, pre: int, post: int): Entry {
    SystemEntry("system", COMPACT_BOUNDARY, timestamp, "", Some(Metadata(trigger, pre, post)))
  }

  function NewSummaryEntry(timestamp: int, summary: string): Entry {
    SummaryEntry("summary", timestamp, summary)
  }

  /** The entry for the whole message; a tool message has none. */
  function MainEntry(timestamp: int, m: Message): seq<Entry> {
    match m.role
    case User => [UserEntry("user", timestamp, m)]
    case Assistant => [AssistantEntry("assistant", timestamp, m)]
    case System => [SystemEntry("system", "system", timestamp, "", None)]
    case Tool => []
  }

  /** One entry for each tool call and tool result. */
  function IndexEntries(timestamp: int, parts: seq<Part>): seq<Entry> {
    if parts == [] then []
    else
      var p := parts[|parts| - 1];
      IndexEntries(timestamp, parts[..|parts| - 1]) +
      match p.kind
      case ToolUse => [ToolUseEntry("tool_use", timestamp, p.toolUseId, p.toolName, p.toolInput)]
      case ToolResult => [ToolResultEntry("tool_result", timestamp, p.toolUseId, p.text, p.isError)]
      case _ => []
  }

  function Expansion(timestamp: int, m: Message): seq<Entry> {
    MainEntry(timestamp, m) + IndexEntries(timestamp, m.content)
  }

  lemma IndexNext(timestamp: int, ps: seq<Part>, p: Part)
    ensures IndexEntries(timestamp, ps + [p]) == IndexEntries(timestamp, ps) + IndexEntries(timestamp, [p])
  {
    assert (ps + [p])[..|ps|] == ps && [p][..0] == [];
  }

  /** A message has an entry of its own unless it is from a tool, and each tool call and tool result has one. */
  lemma EntriesAre(timestamp: int, m: Message, p: Part)
    ensures m.role == User ==> UserEntry("user", timestamp, m) in Expansion(timestamp, m)
    ensures m.role == Assistant ==> AssistantEntry("assistant", timestamp, m) in Expansion(timestamp, m)
    ensures m.role == System ==> SystemEntry("system", "system", timestamp, "", None) in Expansion(timestamp, m)
    ensures |Expansion(timestamp, m)| == |IndexEntries(timestamp, m.content)| + if m.role == Tool then 0 else 1
    ensures IndexEntries(timestamp, m.content) <= Expansion(timestamp, m)[if m.role == Tool then 0 else 1..]
    ensures IndexEntries(timestamp, [p]) ==
            if p.kind == ToolUse then [ToolUseEntry("tool_use", timestamp, p.toolUseId, p.toolName, p.toolInput)]
            else if p.kind == ToolResult then
              [ToolResultEntry("tool_result", timestamp, p.toolUseId, p.text, p.isError)]
            else []
  {
    assert [p][..0] == [];
    assert MainEntry(timestamp, m) != [] ==> Expansion(timestamp, m)[0] == MainEntry(timestamp, m)[0];
  }

  method EntriesFromMessage(timestamp: int, m: Message) returns (entries: seq<Entry>)
    ensures entries == Expansion(timestamp, m)
  {
    entries := [];
    match m.role {
      case User => entries := entries + [UserEntry("user", timestamp, m)];
      case Assistant => entries := entries + [AssistantEntry("assistant", timestamp, m)];
      case System => entries := entries + [SystemEntry("system", "system", timestamp, "", None)];
      case Tool =>
    }
    for i := 0 to |m.content|
      invariant entries == MainEntry(timestamp, m) + IndexEntries(timestamp, m.content[..i])
    {
      assert m.content[..i + 1][..i] == m.content[..i];
      var p := m.content[i];
      match p.kind {
        case ToolUse =>
          entries := entries + [ToolUseEntry("tool_use", timestamp, p.toolUseId, p.toolName, p.toolInput)];
        case ToolResult =>
          entries := entries + [ToolResultEntry("tool_result", timestamp, p.toolUseId, p.text, p.isError)];
        case _ =>
      }
    }
    assert m.content[..|m.content|] == m.content;
  }

  // ---------------------------------------------------------------- reading

  predicate ValidEntry(e: Entry) {
    match e
    case UserEntry(tag, _, m) => tag == "user" && m.role == User
    case AssistantEntry(tag, _, m) => tag == "assistant" && m.role == Assistant
    case ToolUseEntry(tag, _, id, _, _) => tag == "tool_use" && id != ""
    case ToolResultEntry(tag, _, id, _, _) => tag == "tool_result" && id != ""
    case SystemEntry(tag, subtype, _, _, _) => tag == "system" && subtype != ""
    case SummaryEntry(tag, _, summary) => tag == "summary" && summary != ""
    case ProgressEntry(tag, _, _, _) => tag == "progress"
    case UnknownEntry(_) => false
  }

  /** What one more entry adds. */
  function Add(r: Recovered, e: Entry): Recovered {
    if !ValidEntry(e) then r
    else
      match e
      case UserEntry(_, _, m) => r.(messages := r.messages + [m])
      case AssistantEntry(_, _, m) => r.(messages := r.messages + [m])
      case SystemEntry(_, subtype, _, _, metadata) =>
        if subtype == COMPACT_BOUNDARY && metadata.Some? then
          var d := metadata.value;
          r.(boundaries := r.boundaries + [CompactBoundary(|r.messages|, d.trigger, d.preTokenCount, d.postTokenCount)])
        else r
      case SummaryEntry(_, _, _) => r.(summaries := r.summaries + [e])
      case _ => r
  }

  function Recover(entries: seq<Entry>): Recovered {
    if entries == [] then Recovered([], [], []) else Add(Recover(entries[..|entries| - 1]), entries[|entries| - 1])
  }

  /** The message waiting to be added. */
  function Held(pending: Option<Message>): seq<Message> {
    match pending
    case None => []
    case Some(m) => [m]
  }

  /** Keeps the latest message back until the next entry that is not ignored. */
  method RecoverEntries(entries: seq<Entry>) returns (result: Recovered)
    ensures result == Recover(entries)
  {
    hide ValidEntry;
    var messages, summaries, boundaries := [], [], [];
    var pending: Option<Message> := None;
    for i := 0 to |entries|
      invariant Recovered(messages + Held(pending), summaries, boundaries) == Recover(entries[..i])
    {
      assert entries[..i + 1][..i] == entries[..i];
      var entry := entries[i];
      if !ValidEntry(entry) { continue; }
      match entry {
        case UserEntry(_, _, m) =>
          messages, pending := messages + Held(pending), Some(m);
        case AssistantEntry(_, _, m) =>
          messages, pending := messages + Held(pending), Some(m);
        case SystemEntry(_, subtype, _, _, metadata) =>
          messages, pending := messages + Held(pending), None;
          if subtype == COMPACT_BOUNDARY && metadata.Some? {
            var d := metadata.value;
            boundaries := boundaries + [CompactBoundary(|messages|, d.trigger, d.preTokenCount, d.postTokenCount)];
          }
        case SummaryEntry(_, _, _) =>
          messages, pending := messages + Held(pending), None;
          summaries := summaries + [entry];
        case _ =>
      }
    }
    assert entries[..|entries|] == entries;
    messages := messages + Held(pending);
    result := Recovered(messages, summaries, boundaries);
  }

  /** Which entries have an effect: messages of their own role, compactions with numbers, and summaries with a text. */
  lemma AddsIff(r: Recovered, e: Entry)
    ensures Add(r, e) != r <==>
            || (e.UserEntry? && e.tag == "user" && e.message.role == User)
            || (e.AssistantEntry? && e.tag == "assistant" && e.message.role == Assistant)
            || (e.SystemEntry? && e.tag == "system" && e.subtype == "compact_boundary" && e.metadata.Some?)
            || (e.SummaryEntry? && e.tag == "summary" && e.summary != "")
    ensures Add(r, e) != r && e.SummaryEntry? ==> Add(r, e) == r.(summaries := r.summaries + [e])
    ensures Add(r, e) != r && e.SystemEntry? ==>
              var d := e.metadata.value;
              var b := CompactBoundary(|r.messages|, d.trigger, d.preTokenCount, d.postTokenCount);
              Add(r, e) == r.(boundaries := r.boundaries + [b])
    ensures Add(r, e) != r && (e.UserEntry? || e.AssistantEntry?) ==>
              Add(r, e) == r.(messages := r.messages + [e.message])
  {
    assert forall s: seq<Message>, x: Message :: s + [x] != s;
  }

  // ---------------------------------------------------------------- the round trip

  /** What is written to a transcript. */
  datatype Record =
    | Said(timestamp: int, message: Message)
    | Compacted(timestamp: int, trigger: string, pre: int, post: int)
    | Summarized(timestamp: int, summary: string)
    | Progressed(uuid: string, parentUuid: string, data: string)

  function Written(r: Record): seq<Entry> {
    match r
    case Said(t, m) => Expansion(t, m)
    case Compacted(t, trigger, pre, post) => [NewBoundaryEntry(t, trigger, pre, post)]
    case Summarized(t, summary) => [NewSummaryEntry(t, summary)]
    case Progressed(uuid, parent, data) => [ProgressEntry("progress", uuid, parent, data)]
  }

  function AllWritten(rs: seq<Record>): seq<Entry> {
    if rs == [] then [] else AllWritten(rs[..|rs| - 1]) + Written(rs[|rs| - 1])
  }

  /** The user and assistant messages, in order. */
  function Dialogue(rs: seq<Record>): seq<Message> {
    if rs == [] then []
    else
      var r := rs[|rs| - 1];
      Dialogue(rs[..|rs| - 1])
      + (if r.Said? && (r.message.role == User || r.message.role == Assistant) then [r.message] else [])
  }

  function Summaries(rs: seq<Record>): seq<Entry> {
    if rs == [] then []
    else
      var r := rs[|rs| - 1];
      Summaries(rs[..|rs| - 1]) + (if r.Summarized? then [NewSummaryEntry(r.timestamp, r.summary)] else [])
  }

  /** Each compaction with the number of user and assistant messages before it. */
  function Boundaries(rs: seq<Record>): seq<CompactBoundary> {
    if rs == [] then []
    else
      var before, r := rs[..|rs| - 1], rs[|rs| - 1];
      Boundaries(before)
      + (if r.Compacted? then [CompactBoundary(|Dialogue(before)|, r.trigger, r.pre, r.post)] else [])
  }

  lemma RecoverNext(entries: seq<Entry>, e: Entry)
    ensures Recover(entries + [e]) == Add(Recover(entries), e)
  {
    assert (entries + [e])[..|entries|] == entries;
  }

  /** An entry that recovery passes over. */
  predicate Ignored(e: Entry) {
    !ValidEntry(e) || e.ToolUseEntry? || e.ToolResultEntry? || e.ProgressEntry?
  }

  lemma {:induction false} IgnoredTail(entries: seq<Entry>, tail: seq<Entry>)
    requires forall e :: e in tail ==> Ignored(e)
    ensures Recover(entries + tail) == Recover(entries)
  {
    if tail == [] {
      assert entries + tail == entries;
    } else {
      var rest, e := tail[..|tail| - 1], tail[|tail| - 1];
      assert e in tail && entries + tail == entries + rest + [e];
      IgnoredTail(entries, rest);
      RecoverNext(entries + rest, e);
    }
  }

  /** Invalid, unknown, progress and tool entries can stand anywhere without changing what is recovered. */
  lemma {:induction false} IgnoredAnywhere(before: seq<Entry>, e: Entry, after: seq<Entry>)
    requires Ignored(e)
    ensures Recover(before + [e] + after) == Recover(before + after)
  {
    if after == [] {
      assert before + [e] + after == before + [e] && before + after == before;
      RecoverNext(before, e);
    } else {
      var rest, last := after[..|after| - 1], after[|after| - 1];
      IgnoredAnywhere(before, e, rest);
      assert before + [e] + after == before + [e] + rest + [last] && before + after == before + rest + [last];
      RecoverNext(before + [e] + rest, last);
      RecoverNext(before + rest, last);
    }
  }

  lemma {:induction false} IndexEntriesIgnored(timestamp: int, parts: seq<Part>)
    ensures forall e :: e in IndexEntries(timestamp, parts) ==> Ignored(e)
  {
    if parts != [] { IndexEntriesIgnored(timestamp, parts[..|parts| - 1]); }
  }

  lemma RecoverExpansion(entries: seq<Entry>, timestamp: int, m: Message)
    ensures Recover(entries + Expansion(timestamp, m)) ==
            var r := Recover(entries);
            if m.role == User || m.role == Assistant then r.(messages := r.messages + [m]) else r
  {
    var main, index := MainEntry(timestamp, m), IndexEntries(timestamp, m.content);
    assert entries + Expansion(timestamp, m) == entries + main + index;
    IndexEntriesIgnored(timestamp, m.content);
    IgnoredTail(entries + main, index);
    if main == [] {
      assert entries + main == entries;
    } else {
      RecoverNext(entries, main[0]);
    }
  }

  /** The summaries that have a text. */
  function SummariesWithText(rs: seq<Record>): seq<Entry> {
    if rs == [] then []
    else
      var r := rs[|rs| - 1];
      SummariesWithText(rs[..|rs| - 1])
      + (if r.Summarized? && r.summary != "" then [NewSummaryEntry(r.timestamp, r.summary)] else [])
  }

  /** What one record adds to what is recovered. */
  function AddRecord(x: Recovered, r: Record): Recovered {
    match r
    case Said(_, m) => if m.role == User || m.role == Assistant then x.(messages := x.messages + [m]) else x
    case Compacted(_, trigger, pre, post) =>
      x.(boundaries := x.boundaries + [CompactBoundary(|x.messages|, trigger, pre, post)])
    case Summarized(t, summary) =>
      if summary != "" then x.(summaries := x.summaries + [NewSummaryEntry(t, summary)]) else x
    case Progressed(_, _, _) => x
  }

  lemma BoundaryAdds(x: Recovered, t: int, trigger: string, pre: int, post: int)
    ensures Add(x, NewBoundaryEntry(t, trigger, pre, post)) ==
            x.(boundaries := x.boundaries + [CompactBoundary(|x.messages|, trigger, pre, post)])
  {
  }

  lemma SummaryAdds(x: Recovered, t: int, summary: string)
    ensures Add(x, NewSummaryEntry(t, summary)) ==
            if summary != "" then x.(summaries := x.summaries + [NewSummaryEntry(t, summary)]) else x
  {
  }

  lemma ProgressAdds(x: Recovered, uuid: string, parent: string, data: string)
    ensures Add(x, ProgressEntry("progress", uuid, parent, data)) == x
  {
  }

  lemma WrittenAdds(entries: seq<Entry>, r: Record)
    ensures Recover(entries + Written(r)) == AddRecord(Recover(entries), r)
  {
    hide Recover, Add, Expansion, NewBoundaryEntry, NewSummaryEntry;
    match r
    case Said(t, m) =>
      RecoverExpansion(entries, t, m);
    case Compacted(t, trigger, pre, post) =>
      RecoverNext(entries, NewBoundaryEntry(t, trigger, pre, post));
      BoundaryAdds(Recover(entries), t, trigger, pre, post);
    case Summarized(t, summary) =>
      RecoverNext(entries, NewSummaryEntry(t, summary));
      SummaryAdds(Recover(entries), t, summary);
    case Progressed(uuid, parent, data) =>
      RecoverNext(entries, ProgressEntry("progress", uuid, parent, data));
      ProgressAdds(Recover(entries), uuid, parent, data);
  }

  function Content(rs: seq<Record>): Recovered {
    Recovered(Dialogue(rs), SummariesWithText(rs), Boundaries(rs))
  }

  lemma ContentNext(rs: seq<Record>, r: Record)
    ensures Content(rs + [r]) == AddRecord(Content(rs), r)
    ensures AllWritten(rs + [r]) == AllWritten(rs) + Written(r)
  {
    assert (rs + [r])[..|rs|] == rs;
  }

  /**
   Recovering what was written gives the user and assistant messages in order, the summaries that have a text in
   order, and every compaction at its place among the messages.
   */
  lemma {:induction false} RecoverWritten(rs: seq<Record>)
    ensures Recover(AllWritten(rs)) == Recovered(Dialogue(rs), SummariesWithText(rs), Boundaries(rs))
  {
    if rs != [] {
      hide Recover, AllWritten, Written, Dialogue, SummariesWithText, Boundaries, AddRecord;
      var rest, r := rs[..|rs| - 1], rs[|rs| - 1];
      assert rest + [r] == rs;
      RecoverWritten(rest);
      ContentNext(rest, r);
      WrittenAdds(AllWritten(rest), r);
    }
  }

  predicate InDialogue(r: Record) {
    r.Said? ==> r.message.role == User || r.message.role == Assistant
  }

  predicate HasText(r: Record) {
    r.Summarized? ==> r.summary != ""
  }

  lemma SameLast<T>(a: seq<T>, b: seq<T>, x: T)
    ensures a + [x] == b + [x] <==> a == b
  {
    if a + [x] == b + [x] { assert (a + [x])[..|a|] == a && (b + [x])[..|b|] == b; }
  }

  lemma {:induction false} SummariesMissing(rs: seq<Record>)
    ensures |SummariesWithText(rs)| <= |Summaries(rs)|
    ensures SummariesWithText(rs) == Summaries(rs) <==> forall r :: r in rs ==> HasText(r)
    ensures |SummariesWithText(rs)| == |Summaries(rs)| ==> SummariesWithText(rs) == Summaries(rs)
  {
    if rs != [] {
      var rest, r := rs[..|rs| - 1], rs[|rs| - 1];
      SummariesMissing(rest);
      assert rs == rest + [r];
      assert (forall x :: x in rs ==> HasText(x)) <==> (forall x :: x in rest ==> HasText(x)) && HasText(r);
      if r.Summarized? {
        SameLast(SummariesWithText(rest), Summaries(rest), NewSummaryEntry(r.timestamp, r.summary));
      }
      hide NewSummaryEntry;
    }
  }
  // ---------------------------------------------------------------- when nothing is lost

  /** All messages, whoever said them. */
  function AllSaid(rs: seq<Record>): seq<Message> {
    if rs == [] then []
    else
      var r := rs[|rs| - 1];
      AllSaid(rs[..|rs| - 1]) + (if r.Said? then [r.message] else [])
  }

  /** Everything that was written: all messages, all summaries, each compaction at its place among all messages. */
  function Everything(rs: seq<Record>): Recovered {
    if rs == [] then Recovered([], [], [])
    else
      var x := Everything(rs[..|rs| - 1]);
      match rs[|rs| - 1]
      case Said(_, m) => x.(messages := x.messages + [m])
      case Compacted(_, trigger, pre, post) =>
        x.(boundaries := x.boundaries + [CompactBoundary(|x.messages|, trigger, pre, post)])
      case Summarized(t, summary) => x.(summaries := x.summaries + [NewSummaryEntry(t, summary)])
      case Progressed(_, _, _) => x
  }

  lemma {:induction false} EverythingIs(rs: seq<Record>)
    ensures Everything(rs).messages == AllSaid(rs) && Everything(rs).summaries == Summaries(rs)
  {
    if rs != [] { EverythingIs(rs[..|rs| - 1]); }
  }

  lemma {:induction false} MessagesMissing(rs: seq<Record>)
    ensures |Dialogue(rs)| <= |AllSaid(rs)|
    ensures Dialogue(rs) == AllSaid(rs) <==> forall r :: r in rs ==> InDialogue(r)
    ensures |Dialogue(rs)| == |AllSaid(rs)| ==> Dialogue(rs) == AllSaid(rs)
  {
    if rs != [] {
      var rest, r := rs[..|rs| - 1], rs[|rs| - 1];
      MessagesMissing(rest);
      assert rs == rest + [r];
      assert (forall x :: x in rs ==> InDialogue(x)) <==> (forall x :: x in rest ==> InDialogue(x)) && InDialogue(r);
      if r.Said? { SameLast(Dialogue(rest), AllSaid(rest), r.message); }
    }
  }
  lemma {:induction false} ContentIsEverything(rs: seq<Record>)
    requires forall r :: r in rs ==> InDialogue(r) && HasText(r)
    ensures Content(rs) == Everything(rs)
  {
    if rs != [] {
      var rest, r := rs[..|rs| - 1], rs[|rs| - 1];
      assert r in rs && rest + [r] == rs;
      ContentIsEverything(rest);
      ContentNext(rest, r);
    }
  }

  /**
   Everything that was written is recovered exactly when every message is the user's or the assistant's and every
   summary has a text.  The first decides about the messages alone, the second about the summaries alone.
   */
  lemma RecoverRoundTripIff(rs: seq<Record>)
    ensures Recover(AllWritten(rs)).messages == AllSaid(rs) <==> forall r :: r in rs ==> InDialogue(r)
    ensures Recover(AllWritten(rs)).summaries == Summaries(rs) <==> forall r :: r in rs ==> HasText(r)
    ensures Recover(AllWritten(rs)) == Everything(rs) <==> forall r :: r in rs ==> InDialogue(r) && HasText(r)
  {
    RecoverWritten(rs);
    EverythingIs(rs);
    MessagesMissing(rs);
    SummariesMissing(rs);
    hide Recover, AllWritten, Everything, Dialogue, AllSaid, Summaries, SummariesWithText, Boundaries;
    if forall r :: r in rs ==> InDialogue(r) && HasText(r) { ContentIsEverything(rs); }
  }

  /** The dialogue alone is recovered with everything else exactly when every summary has a text. */
  lemma DialogueRoundTripIff(rs: seq<Record>)
    ensures Recover(AllWritten(rs)) == Recovered(Dialogue(rs), Summaries(rs), Boundaries(rs)) <==>
            forall r :: r in rs ==> HasText(r)
  {
    RecoverWritten(rs);
    SummariesMissing(rs);
  }

  /** A message of the system or of a tool is written and not recovered. */
  lemma OtherRolesAreLost(timestamp: int, m: Message)
    requires m.role == System || m.role == Tool
    ensures var rs := [Said(timestamp, m)];
            Recover(AllWritten(rs)) == Recovered([], [], []) && AllSaid(rs) == [m]
  {
    var rs := [Said(timestamp, m)];
    assert rs[..0] == [];
    RecoverWritten(rs);
  }

  /** So is a summary without text. */
  lemma EmptySummaryIsLost(timestamp: int)
    ensures var rs := [Summarized(timestamp, "")];
            Recover(AllWritten(rs)) == Recovered([], [], []) && Summaries(rs) == [NewSummaryEntry(timestamp, "")]
  {
    var rs := [Summarized(timestamp, "")];
    assert rs[..0] == [];
    RecoverWritten(rs);
  }
}
