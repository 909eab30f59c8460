/**
 Files and skills that are put back after a compaction, within a token budget
 (internal/core/compact/attachments.go).
 */
module Attachments {
  import opened Wrappers
  import opened Conversation

  const MAX_FILES_TO_RESTORE := 5
  const TOKEN_BUDGET := 50000
  const MAX_TOKENS_PER_FILE := 5000
  const MAX_TOKENS_PER_SKILL := 5000
  const SKILLS_TOKEN_BUDGET := 25000

  datatype FileReadState = FileReadState(content: string, timestamp: int)

  datatype SkillInfo = SkillInfo(name: string, path: string, content: string, invokedAt: int)

  datatype Attachment = Attachment(kind: string, name: string, content: string)

  /** Cuts a text to `maxTokens * 4` characters. */
  function TruncateString(s: string, maxTokens: nat): string {
    if |s| <= maxTokens * BYTES_PER_TOKEN then s else s[..maxTokens * BYTES_PER_TOKEN]
  }

  /** What a text is charged. */
  function Cost(s: string, maxTokens: nat): nat {
    if RoughEstimate(s) > maxTokens then maxTokens else RoughEstimate(s)
  }

  /** What is kept of a text. */
  function Kept(s: string, maxTokens: nat): string {
    if RoughEstimate(s) > maxTokens then TruncateString(s, maxTokens) else s
  }

  /** Something that asks to be put back. */
  datatype Item = Item(name: string, path: string, content: string)

  /** Tokens charged when each item is taken that still fits. */
  function Used(items: seq<Item>, maxTokens: nat, budget: int): nat {
    if items == [] then 0
    else
      var before := Used(items[..|items| - 1], maxTokens, budget);
      var cost := Cost(items[|items| - 1].content, maxTokens);
      if before + cost > budget then before else before + cost
  }

  predicate Fits(before: seq<Item>, item: Item, maxTokens: nat, budget: int)
  {
    Used(before, maxTokens, budget) + Cost(item.content, maxTokens) <= budget
  }

  function Trim(item: Item, maxTokens: nat): Item {
    item.(content := Kept(item.content, maxTokens))
  }

  /** The items that are taken, trimmed, in order. */
  function Selected(items: seq<Item>, maxTokens: nat, budget: int): seq<Item> {
    if items == [] then []
    else
      var init, last := items[..|items| - 1], items[|items| - 1];
      Selected(init, maxTokens, budget) + (if Fits(init, last, maxTokens, budget) then [Trim(last, maxTokens)] else [])
  }

  /** Token estimate of a list of texts. */
  function Estimated(items: seq<Item>): nat {
    if items == [] then 0 else Estimated(items[..|items| - 1]) + RoughEstimate(items[|items| - 1].content)
  }

  lemma {:induction false} UsedGrows(items: seq<Item>, maxTokens: nat, budget: int, i: nat)
    requires i <= |items|
    ensures Used(items[..i], maxTokens, budget) <= Used(items, maxTokens, budget)
  {
    if i < |items| {
      UsedGrows(items[..|items| - 1], maxTokens, budget, i);
      assert items[..|items| - 1][..i] == items[..i];
    } else {
      assert items[..i] == items;
    }
  }

  lemma {:induction false} UsedWithinBudget(items: seq<Item>, maxTokens: nat, budget: int)
    ensures Used(items, maxTokens, budget) <= if budget < 0 then 0 else budget
  {
    if items != [] { UsedWithinBudget(items[..|items| - 1], maxTokens, budget); }
  }

  /**
   The selection stays within its budget and is maximal: an item that was skipped does not
   fit into what is left over at the end either.
   */
  lemma {:induction false} SelectionIsMaximal(items: seq<Item>, maxTokens: nat, budget: int)
    ensures budget >= 0 ==> Used(items, maxTokens, budget) <= budget
    ensures forall i :: 0 <= i < |items| ==>
              Fits(items[..i], items[i], maxTokens, budget) ||
              Used(items, maxTokens, budget) + Cost(items[i].content, maxTokens) > budget
  {
    UsedWithinBudget(items, maxTokens, budget);
    forall i | 0 <= i < |items| && !Fits(items[..i], items[i], maxTokens, budget)
      ensures Used(items, maxTokens, budget) + Cost(items[i].content, maxTokens) > budget
    {
      UsedGrows(items, maxTokens, budget, i);
    }
  }

  /** A text is charged what it costs, at most the limit; one that costs more is cut to four characters a token. */
  lemma ChargeIs(s: string, maxTokens: nat)
    ensures RoughEstimate(s) <= maxTokens ==> Cost(s, maxTokens) == RoughEstimate(s) && Kept(s, maxTokens) == s
    ensures RoughEstimate(s) > maxTokens ==>
              && Cost(s, maxTokens) == maxTokens
              && Kept(s, maxTokens) == if |s| <= 4 * maxTokens then s else s[..4 * maxTokens]
  {
  }

  // ---------------------------------------------------------------- what the kept texts really cost

  predicate Ascii(s: string) {
    forall i :: 0 <= i < |s| ==> s[i] as int < 0x80
  }

  lemma {:induction false} ByteLengthBounds(s: string)
    ensures |s| <= ByteLength(s) <= 4 * |s|
    ensures ByteLength(s) == |s| <==> Ascii(s)
  {
    if s != [] {
      var rest, c := s[..|s| - 1], s[|s| - 1];
      ByteLengthBounds(rest);
      assert s == rest + [c];
      AsciiNext(rest, c);
      hide Ascii;
    }
  }

  lemma AsciiNext(s: string, c: char)
    ensures Ascii(s + [c]) <==> Ascii(s) && c as int < 0x80
  {
    if Ascii(s + [c]) {
      assert forall i :: 0 <= i < |s| ==> s[i] == (s + [c])[i];
      assert (s + [c])[|s|] == c;
    }
  }

  lemma EstimateOfBytes(s: string, n: nat)
    ensures ByteLength(s) <= 4 * n <==> RoughEstimate(s) <= n
    ensures ByteLength(s) == 4 * n ==> RoughEstimate(s) == n
  {
  }

  /** The text fits its limit as it is, or what is kept of it is all ASCII. */
  predicate WithinCharge(s: string, maxTokens: nat) {
    RoughEstimate(s) <= maxTokens || (|s| > 4 * maxTokens && Ascii(s[..4 * maxTokens]))
  }

  /**
   A kept text never costs less than its charge, and at most four times as much; it costs no more than its charge
   exactly when the whole text fits, or the part that is kept is cut from a longer text and all ASCII.
   */
  lemma KeptEstimateIff(s: string, maxTokens: nat)
    ensures Cost(s, maxTokens) <= RoughEstimate(Kept(s, maxTokens)) <= 4 * Cost(s, maxTokens)
    ensures RoughEstimate(Kept(s, maxTokens)) <= Cost(s, maxTokens) <==> WithinCharge(s, maxTokens)
  {
    if RoughEstimate(s) > maxTokens {
      var kept := Kept(s, maxTokens);
      EstimateOfBytes(s, maxTokens);
      ByteLengthBounds(s);
      ByteLengthBounds(kept);
      EstimateOfBytes(kept, maxTokens);
      EstimateOfBytes(kept, 4 * maxTokens);
      hide RoughEstimate, ByteLength, Ascii;
      if |s| > 4 * maxTokens {
        assert kept == s[..4 * maxTokens];
        KeptCosts(kept, maxTokens);
      } else {
        assert kept == s;
      }
    }
  }

  /** Full-length texts cost at least their length. */
  lemma KeptCosts(kept: string, maxTokens: nat)
    requires |kept| == 4 * maxTokens
    ensures RoughEstimate(kept) >= maxTokens
  {
    ByteLengthBounds(kept);
    if maxTokens > 0 { EstimateOfBytes(kept, maxTokens - 1); }
  }

  /** For ASCII texts the charge is what the kept text costs. */
  lemma AsciiIsExact(s: string, maxTokens: nat)
    requires Ascii(s)
    ensures RoughEstimate(Kept(s, maxTokens)) == Cost(s, maxTokens)
  {
    KeptEstimateIff(s, maxTokens);
    if RoughEstimate(s) > maxTokens {
      ByteLengthBounds(s);
      EstimateOfBytes(s, maxTokens);
      assert Ascii(s[..4 * maxTokens]);
    }
  }

  lemma EstimatedSnoc(items: seq<Item>, item: Item)
    ensures Estimated(items + [item]) == Estimated(items) + RoughEstimate(item.content)
  {
    assert (items + [item])[..|items|] == items;
  }

  /** Every item that is taken costs no more than its charge. */
  ghost predicate AllWithinCharge(items: seq<Item>, maxTokens: nat, budget: int) {
    forall i :: 0 <= i < |items| && Fits(items[..i], items[i], maxTokens, budget) ==>
      WithinCharge(items[i].content, maxTokens)
  }

  lemma AllWithinChargeNext(items: seq<Item>, item: Item, maxTokens: nat, budget: int)
    ensures AllWithinCharge(items + [item], maxTokens, budget) <==>
            && AllWithinCharge(items, maxTokens, budget)
            && (Fits(items, item, maxTokens, budget) ==> WithinCharge(item.content, maxTokens))
  {
    hide Fits, WithinCharge;
    var all := items + [item];
    assert forall i :: 0 <= i < |items| ==> all[..i] == items[..i] && all[i] == items[i];
    assert all[..|items|] == items && all[|items|] == item;
    var itemWithin := Fits(items, item, maxTokens, budget) ==> WithinCharge(item.content, maxTokens);
    if AllWithinCharge(items, maxTokens, budget) && itemWithin {
      forall i | 0 <= i < |all| && Fits(all[..i], all[i], maxTokens, budget)
        ensures WithinCharge(all[i].content, maxTokens)
      {
        if i < |items| { assert Fits(items[..i], items[i], maxTokens, budget); }
      }
    }
    if AllWithinCharge(all, maxTokens, budget) {
      forall i | 0 <= i < |items| && Fits(items[..i], items[i], maxTokens, budget)
        ensures WithinCharge(items[i].content, maxTokens)
      {
        assert Fits(all[..i], all[i], maxTokens, budget);
      }
      if Fits(items, item, maxTokens, budget) { assert Fits(all[..|items|], all[|items|], maxTokens, budget); }
    }
  }

  /**
   Over a whole selection: at least the charge and at most four times as much; no more than the charge exactly when
   every item that is taken stays within its own.
   */
  lemma {:induction false} SelectionEstimateIff(items: seq<Item>, maxTokens: nat, budget: int)
    ensures var charged, cost := Used(items, maxTokens, budget), Estimated(Selected(items, maxTokens, budget));
            && charged <= cost <= 4 * charged
            && (cost <= charged <==> AllWithinCharge(items, maxTokens, budget))
  {
    if items != [] {
      var init, last := items[..|items| - 1], items[|items| - 1];
      assert items == init + [last];
      SelectNext(init, last, maxTokens, budget);
      hide Used, Selected, RoughEstimate, Kept, Cost, Fits, WithinCharge, AllWithinCharge;
      SelectionEstimateIff(init, maxTokens, budget);
      KeptEstimateIff(last.content, maxTokens);
      EstimatedSnoc(Selected(init, maxTokens, budget), Trim(last, maxTokens));
      AllWithinChargeNext(init, last, maxTokens, budget);
    } else {
      hide Fits, WithinCharge;
    }
  }

  /** So ASCII texts are charged exactly. */
  lemma AsciiSelectionIsExact(items: seq<Item>, maxTokens: nat, budget: int)
    requires forall i :: 0 <= i < |items| ==> Ascii(items[i].content)
    ensures Estimated(Selected(items, maxTokens, budget)) == Used(items, maxTokens, budget)
  {
    SelectionEstimateIff(items, maxTokens, budget);
    hide Fits, Used, Selected, Estimated;
    forall i | 0 <= i < |items|
      ensures WithinCharge(items[i].content, maxTokens)
    {
      KeptEstimateIff(items[i].content, maxTokens);
      AsciiIsExact(items[i].content, maxTokens);
    }
  }

  /** Such a text: eight three-byte characters cost three times their charge. */
  lemma ChargeMayBeExceeded()
    ensures var s := seq(8, _ => '\U{20AC}');
            Cost(s, 2) == 2 && RoughEstimate(Kept(s, 2)) == 6
  {
    var s := seq(8, _ => '\U{20AC}');
    WideByteLength(s);
    assert Kept(s, 2) == s;
  }

  lemma {:induction false} WideByteLength(s: string)
    requires forall i :: 0 <= i < |s| ==> s[i] == '\U{20AC}'
    ensures ByteLength(s) == 3 * |s|
  {
    if s != [] { WideByteLength(s[..|s| - 1]); }
  }

  // ---------------------------------------------------------------- the two selections

  lemma NewestExists(state: map<string, FileReadState>, names: set<string>)
    requires names != {} && names <= state.Keys
    ensures exists k :: k in names && forall j :: j in names ==> state[j].timestamp <= state[k].timestamp
  {
    var x :| x in names;
    if names == {x} {
      assert forall j :: j in names ==> j == x;
    } else {
      var rest := names - {x};
      NewestExists(state, rest);
      var k :| k in rest && forall j :: j in rest ==> state[j].timestamp <= state[k].timestamp;
      assert forall j :: j in names ==> j == x || j in rest;
      if state[x].timestamp > state[k].timestamp {
        assert forall j :: j in names ==> state[j].timestamp <= state[x].timestamp;
      }
    }
  }

  /** Distinct names of known files, most recently read first. */
  ghost predicate Recent(state: map<string, FileReadState>, names: seq<string>) {
    && (forall i :: 0 <= i < |names| ==> names[i] in state)
    && (forall i, j :: 0 <= i < j < |names| ==>
          names[i] != names[j] && state[names[i]].timestamp >= state[names[j]].timestamp)
  }

  /** The file names, most recently read first; ties in any order. */
  method SortedByRecency(state: map<string, FileReadState>) returns (names: seq<string>)
    ensures Recent(state, names) && |names| == |state|
    ensures forall n :: n in state ==> n in names
  {
    names := [];
    var rest := state.Keys;
    while rest != {}
      invariant rest <= state.Keys
      invariant Recent(state, names) && |names| + |rest| == |state|
      invariant forall n :: n in state ==> n in names || n in rest
      invariant forall i :: 0 <= i < |names| ==>
                  names[i] !in rest && forall r :: r in rest ==> state[names[i]].timestamp >= state[r].timestamp
      decreases |rest|
    {
      NewestExists(state, rest);
      var k :| k in rest && forall j :: j in rest ==> state[j].timestamp <= state[k].timestamp;
      names, rest := names + [k], rest - {k};
    }
  }

  function FileItem(state: map<string, FileReadState>, name: string): Item {
    Item(name, "", if name in state then state[name].content else "")
  }

  function FileItems(state: map<string, FileReadState>, names: seq<string>): (items: seq<Item>)
    ensures |items| == |names|
  {
    if names == [] then [] else FileItems(state, names[..|names| - 1]) + [FileItem(state, names[|names| - 1])]
  }

  function FileAttachments(items: seq<Item>): seq<Attachment> {
    if items == [] then []
    else
      var last := items[|items| - 1];
      FileAttachments(items[..|items| - 1]) + [Attachment("file", last.name, last.content)]
  }

  lemma AttachmentsSnoc(items: seq<Item>, item: Item)
    ensures FileAttachments(items + [item]) == FileAttachments(items) + [Attachment("file", item.name, item.content)]
  {
    assert (items + [item])[..|items|] == items;
  }

  /** Tokens charged for the listed files, and what is attached of them. */
  function ChargedFor(state: map<string, FileReadState>, names: seq<string>, budget: int): nat {
    Used(FileItems(state, names), MAX_TOKENS_PER_FILE, budget)
  }

  function AttachedFor(state: map<string, FileReadState>, names: seq<string>, budget: int): seq<Attachment> {
    FileAttachments(Selected(FileItems(state, names), MAX_TOKENS_PER_FILE, budget))
  }

  lemma AttachNone(state: map<string, FileReadState>, budget: int)
    ensures ChargedFor(state, [], budget) == 0 && AttachedFor(state, [], budget) == []
  {
  }

  lemma AttachNext(state: map<string, FileReadState>, names: seq<string>, name: string, budget: int)
    requires name in state
    ensures var content := state[name].content;
            var cost := Cost(content, 5_000);
            var fits := ChargedFor(state, names, budget) + cost <= budget;
            var kept := Attachment("file", name, Kept(content, 5_000));
            && ChargedFor(state, names + [name], budget) ==
                 ChargedFor(state, names, budget) + (if fits then cost else 0)
            && AttachedFor(state, names + [name], budget) ==
                 AttachedFor(state, names, budget) + (if fits then [kept] else [])
  {
    var before, item := FileItems(state, names), FileItem(state, name);
    assert (names + [name])[..|names|] == names;
    assert FileItems(state, names + [name]) == before + [item];
    SelectNext(before, item, MAX_TOKENS_PER_FILE, budget);
    AttachmentsSnoc(Selected(before, MAX_TOKENS_PER_FILE, budget), Trim(item, MAX_TOKENS_PER_FILE));
  }

  /** What is kept of a text, and what it is charged. */
  method Charge(text: string, maxTokens: nat) returns (content: string, tokens: nat)
    ensures content == Kept(text, maxTokens) && tokens == Cost(text, maxTokens)
  {
    content := text;
    tokens := RoughEstimate(content);
    if tokens > maxTokens {
      content := TruncateString(content, maxTokens);
      tokens := maxTokens;
    }
  }

  method AttachFiles(state: map<string, FileReadState>, entries: seq<string>, tokenBudget: int)
      returns (results: seq<Attachment>)
    requires forall i :: 0 <= i < |entries| ==> entries[i] in state
    ensures results == AttachedFor(state, entries, tokenBudget)
  {
    hide ChargedFor, AttachedFor, Kept, Cost;
    AttachNone(state, tokenBudget);
    results := [];
    var usedTokens := 0;
    for i := 0 to |entries|
      invariant usedTokens == ChargedFor(state, entries[..i], tokenBudget)
      invariant results == AttachedFor(state, entries[..i], tokenBudget)
    {
      assert entries[..i + 1] == entries[..i] + [entries[i]];
      AttachNext(state, entries[..i], entries[i], tokenBudget);
      var content, contentTokens := Charge(state[entries[i]].content, MAX_TOKENS_PER_FILE);
      if usedTokens + contentTokens > tokenBudget { continue; }
      usedTokens := usedTokens + contentTokens;
      results := results + [Attachment("file", entries[i], content)];
    }
    assert entries[..|entries|] == entries;
  }

  /** The names of at most `maxFiles` files, none of them read earlier than a file left out. */
  ghost predicate MostRecent(state: map<string, FileReadState>, maxFiles: nat, names: seq<string>) {
    && Recent(state, names)
    && |names| == (if |state| < maxFiles then |state| else maxFiles)
    && forall i, m :: 0 <= i < |names| && m in state && m !in names ==> state[m].timestamp <= state[names[i]].timestamp
  }

  /** They are in the order in which they were read, the latest first, and whatever is left out was read no later. */
  lemma LatestFirst(state: map<string, FileReadState>, maxFiles: nat, names: seq<string>, i: nat, m: string)
    requires MostRecent(state, maxFiles, names) && i < |names|
    requires m in names[i..] || (m in state && m !in names)
    ensures m in state && names[i] in state && state[m].timestamp <= state[names[i]].timestamp
    ensures |names| <= maxFiles && (m !in names ==> |names| == maxFiles)
  {
    if m !in names {
      NamesLeftOut(state, names, m);
    }
  }

  lemma NamesLeftOut(state: map<string, FileReadState>, names: seq<string>, m: string)
    requires Recent(state, names) && m in state && m !in names
    ensures |names| < |state|
  {
    DistinctCount(names, state.Keys - {m});
  }

  /** Different members of a set, listed, are at most as many as the set has. */
  lemma {:induction false} DistinctCount<T>(xs: seq<T>, all: set<T>)
    requires forall i :: 0 <= i < |xs| ==> xs[i] in all
    requires forall i, j :: 0 <= i < j < |xs| ==> xs[i] != xs[j]
    ensures |xs| <= |all|
  {
    if xs != [] {
      DistinctCount(xs[..|xs| - 1], all - {xs[|xs| - 1]});
    }
  }

  method CreatePostCompactFileAttachments(state: map<string, FileReadState>, maxFiles: nat, tokenBudget: int)
    returns (results: seq<Attachment>)
    ensures exists names :: MostRecent(state, maxFiles, names) && results == AttachedFor(state, names, tokenBudget)
  {
    hide AttachedFor;
    var all := SortedByRecency(state);
    var entries := if |all| > maxFiles then all[..maxFiles] else all;
    results := AttachFiles(state, entries, tokenBudget);
    assert MostRecent(state, maxFiles, entries);
  }

  lemma SelectNext(before: seq<Item>, item: Item, maxTokens: nat, budget: int)
    ensures var fits := Fits(before, item, maxTokens, budget);
            && Used(before + [item], maxTokens, budget) ==
                 Used(before, maxTokens, budget) + (if fits then Cost(item.content, maxTokens) else 0)
            && var was, now := Selected(before, maxTokens, budget), Selected(before + [item], maxTokens, budget);
               (fits ==> now == was + [Trim(item, maxTokens)]) && (!fits ==> now == was)
  {
    assert (before + [item])[..|before|] == before;
  }

  /** As many items as the budget holds at full size are taken from the front, whatever they cost. */
  lemma {:induction false} FirstFit(items: seq<Item>, k: nat, maxTokens: nat, budget: int)
    requires k <= |items| && k * maxTokens <= budget
    ensures k == |items| ==> Used(items, maxTokens, budget) <= k * maxTokens
    ensures k <= |Selected(items, maxTokens, budget)|
    ensures forall i :: 0 <= i < k ==> Selected(items, maxTokens, budget)[i] == Trim(items[i], maxTokens)
    ensures k == |items| ==> |Selected(items, maxTokens, budget)| == k
    decreases |items|
  {
    if items != [] {
      var init, last := items[..|items| - 1], items[|items| - 1];
      assert items == init + [last];
      SelectNext(init, last, maxTokens, budget);
      hide Trim;
      if k == |items| {
        assert (k - 1) * maxTokens + maxTokens == k * maxTokens;
        FirstFit(init, k - 1, maxTokens, budget);
      } else {
        FirstFit(init, k, maxTokens, budget);
      }
    }
  }

  /** One attachment for each file, trimmed, in order. */
  ghost predicate AllAttached(state: map<string, FileReadState>, names: seq<string>, out: seq<Attachment>)
    requires forall n :: n in names ==> n in state
  {
    && |out| == |names|
    && forall i :: 0 <= i < |names| ==>
         out[i] == Attachment("file", names[i], Kept(state[names[i]].content, MAX_TOKENS_PER_FILE))
  }

  lemma {:induction false} FilesAllFit(state: map<string, FileReadState>, names: seq<string>, budget: int)
    requires (forall n :: n in names ==> n in state) && |names| * MAX_TOKENS_PER_FILE <= budget
    ensures ChargedFor(state, names, budget) <= |names| * MAX_TOKENS_PER_FILE
    ensures AllAttached(state, names, AttachedFor(state, names, budget))
  {
    hide ChargedFor, AttachedFor, Kept, RoughEstimate;
    if names == [] {
      AttachNone(state, budget);
    } else {
      var rest, name := names[..|names| - 1], names[|names| - 1];
      assert names == rest + [name] && name in names;
      FilesAllFit(state, rest, budget);
      AttachNext(state, rest, name, budget);
    }
  }

  /** The files' token budget never binds: every one of the files that are restored is attached. */
  lemma RestoredFilesAllFit(state: map<string, FileReadState>, names: seq<string>)
    requires (forall n :: n in names ==> n in state) && |names| <= MAX_FILES_TO_RESTORE
    ensures AllAttached(state, names, AttachedFor(state, names, TOKEN_BUDGET))
  {
    FilesAllFit(state, names, TOKEN_BUDGET);
  }

  // ---------------------------------------------------------------- skills

  function SkillItem(s: SkillInfo): Item {
    Item(s.name, s.path, s.content)
  }

  function SkillItems(skills: seq<SkillInfo>): seq<Item> {
    if skills == [] then [] else SkillItems(skills[..|skills| - 1]) + [SkillItem(skills[|skills| - 1])]
  }

  ghost predicate SkillsByRecency(skills: seq<SkillInfo>) {
    forall i, j :: 0 <= i < j < |skills| ==> skills[i].invokedAt >= skills[j].invokedAt
  }

  lemma InsertAddsOne(sorted: seq<SkillInfo>, k: nat, s: SkillInfo)
    requires k <= |sorted|
    ensures multiset(sorted[..k] + [s] + sorted[k..]) == multiset(sorted) + multiset{s}
  {
    assert sorted == sorted[..k] + sorted[k..];
  }

  method InsertSkill(sorted: seq<SkillInfo>, s: SkillInfo) returns (r: seq<SkillInfo>)
    requires SkillsByRecency(sorted)
    ensures SkillsByRecency(r) && multiset(r) == multiset(sorted) + multiset{s}
  {
    var k := 0;
    while k < |sorted| && sorted[k].invokedAt >= s.invokedAt
      invariant 0 <= k <= |sorted|
      invariant forall j :: 0 <= j < k ==> sorted[j].invokedAt >= s.invokedAt
    {
      k := k + 1;
    }
    r := sorted[..k] + [s] + sorted[k..];
    InsertAddsOne(sorted, k, s);
  }

  /** The skills most recently invoked first; ties in any order. */
  method SortSkills(skills: seq<SkillInfo>) returns (sorted: seq<SkillInfo>)
    ensures multiset(sorted) == multiset(skills) && SkillsByRecency(sorted)
  {
    sorted := [];
    for i := 0 to |skills|
      invariant multiset(sorted) == multiset(skills[..i]) && SkillsByRecency(sorted)
    {
      assert skills[..i + 1] == skills[..i] + [skills[i]];
      sorted := InsertSkill(sorted, skills[i]);
    }
    assert skills[..|skills|] == skills;
  }

  function Section(s: Item): string {
    "--- " + s.name + " (" + s.path + ") ---\n" + s.content
  }

  /** The sections, separated by blank lines. */
  function SkillBody(items: seq<Item>): string {
    if items == [] then ""
    else if |items| == 1 then Section(items[0])
    else SkillBody(items[..|items| - 1]) + "\n\n" + Section(items[|items| - 1])
  }

  /** One skill's section, and how the sections of several follow one another. */
  lemma SectionIs(name: string, path: string, content: string)
    ensures SkillBody([Item(name, path, content)]) == "--- " + name + " (" + path + ") ---\n" + content
  {
  }

  lemma {:induction false} SectionsConcat(a: seq<Item>, b: seq<Item>)
    requires a != [] && b != []
    ensures SkillBody(a + b) == SkillBody(a) + "\n\n" + SkillBody(b)
  {
    hide Section;
    var init, last := b[..|b| - 1], b[|b| - 1];
    assert (a + b)[..|a + b| - 1] == a + init;
    if init == [] {
      assert a + init == a && b == [last];
    } else {
      SectionsConcat(a, init);
    }
  }

  method CombineSections(trimmed: seq<Item>) returns (combined: string)
    ensures combined == SkillBody(trimmed)
  {
    combined := "";
    for i := 0 to |trimmed|
      invariant combined == SkillBody(trimmed[..i])
    {
      assert trimmed[..i + 1][..i] == trimmed[..i];
      if i > 0 {
        combined := combined + "\n\n";
        combined := combined + Section(trimmed[i]);
      } else {
        combined := Section(trimmed[i]);
      }
    }
    assert trimmed[..|trimmed|] == trimmed;
  }

  /** The same skills, the most recently invoked first. */
  ghost predicate IsSorting(skills: seq<SkillInfo>, sorted: seq<SkillInfo>) {
    multiset(sorted) == multiset(skills) && SkillsByRecency(sorted)
  }

  /** Every skill is there as often as it was given, and none was invoked later than one before it. */
  lemma NewestFirst(skills: seq<SkillInfo>, sorted: seq<SkillInfo>, i: nat, s: SkillInfo)
    requires IsSorting(skills, sorted)
    ensures |sorted| == |skills| && multiset(sorted)[s] == multiset(skills)[s]
    ensures i < |sorted| && s in sorted[i..] ==> s.invokedAt <= sorted[i].invokedAt
  {
    assert |multiset(sorted)| == |multiset(skills)|;
  }

  function SkillAttachment(sorted: seq<SkillInfo>, maxTokens: nat, budget: int): Option<Attachment> {
    var chosen := Selected(SkillItems(sorted), maxTokens, budget);
    if chosen == [] then None else Some(Attachment("skill", "invoked_skills", SkillBody(chosen)))
  }

  lemma {:induction false} SkillItemAt(skills: seq<SkillInfo>, i: nat)
    requires i < |skills|
    ensures |SkillItems(skills)| == |skills| && SkillItems(skills)[i] == SkillItem(skills[i])
    decreases |skills|
  {
    if |skills| > 1 { SkillItemAt(skills[..|skills| - 1], if i < |skills| - 1 then i else 0); }
  }

  /** The five skills invoked last are always put back, trimmed, however many and however long the others are. */
  lemma NewestSkillsFit(sorted: seq<SkillInfo>, i: nat)
    requires i < |sorted| && i < 5
    ensures var chosen, s := Selected(SkillItems(sorted), MAX_TOKENS_PER_SKILL, SKILLS_TOKEN_BUDGET), sorted[i];
            i < |chosen| && chosen[i] == Item(s.name, s.path, Kept(s.content, MAX_TOKENS_PER_SKILL))
  {
    SkillItemAt(sorted, i);
    FirstFit(SkillItems(sorted), i + 1, MAX_TOKENS_PER_SKILL, SKILLS_TOKEN_BUDGET);
  }

  method CreateSkillAttachment(skills: seq<SkillInfo>, maxTokensPerSkill: nat, totalTokenBudget: int)
    returns (result: Option<Attachment>)
    ensures exists sorted ::
              IsSorting(skills, sorted) && result == SkillAttachment(sorted, maxTokensPerSkill, totalTokenBudget)
    ensures result.Some? ==> result.value.kind == "skill" && result.value.name == "invoked_skills"
  {
    if |skills| == 0 {
      assert IsSorting(skills, skills) && SkillAttachment(skills, maxTokensPerSkill, totalTokenBudget) == None;
      return None;
    }
    var ordered := SortSkills(skills);
    assert IsSorting(skills, ordered);
    var usedTokens := 0;
    var trimmed := [];
    for i := 0 to |ordered|
      invariant usedTokens == Used(SkillItems(ordered[..i]), maxTokensPerSkill, totalTokenBudget)
      invariant trimmed == Selected(SkillItems(ordered[..i]), maxTokensPerSkill, totalTokenBudget)
    {
      ghost var before := SkillItems(ordered[..i]);
      assert ordered[..i + 1][..i] == ordered[..i];
      assert SkillItems(ordered[..i + 1]) == before + [SkillItem(ordered[i])];
      SelectNext(before, SkillItem(ordered[i]), maxTokensPerSkill, totalTokenBudget);
      var s := ordered[i];
      var content, tokens := Charge(s.content, maxTokensPerSkill);
      if usedTokens + tokens > totalTokenBudget { continue; }
      usedTokens := usedTokens + tokens;
      trimmed := trimmed + [Item(s.name, s.path, content)];
    }
    assert ordered[..|ordered|] == ordered;
    if |trimmed| == 0 { return None; }
    var combined := CombineSections(trimmed);
    return Some(Attachment("skill", "invoked_skills", combined));
  }
}
