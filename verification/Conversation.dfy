/** Conversation messages and the token estimate, as far as compaction looks at them. */
module Conversation {
  import opened Grouping

  datatype Role = System | User | Assistant | Tool

  datatype Kind = TextBlock | ToolUse | ToolResult | OtherBlock

  /** `toolInput` is the encoded form of the tool arguments. */
  datatype Part = Part(
    kind: Kind,
    text: string,
    toolUseId: string,
    toolName: string,
    toolInput: string,
    isError: bool
  )

  datatype Message = Message(role: Role, content: seq<Part>)

  function TextPart(text: string): Part {
    Part(TextBlock, text, "", "", "", false)
  }

  function TextMessage(role: Role, text: string): Message {
    Message(role, [TextPart(text)])
  }

  // ---------------------------------------------------------------- token estimate

  const BYTES_PER_TOKEN := 4

  /** Length of a character in UTF-8 (RFC 3629, section 3). */
  function Utf8Width(c: char): nat {
    if c as int < 0x80 then 1 else if c as int < 0x800 then 2 else if c as int < 0x1_0000 then 3 else 4
  }

  function ByteLength(s: string): nat {
    if s == [] then 0 else ByteLength(s[..|s| - 1]) + Utf8Width(s[|s| - 1])
  }

  function RoughEstimate(text: string): nat {
    if text == "" then 0 else (ByteLength(text) + BYTES_PER_TOKEN - 1) / BYTES_PER_TOKEN
  }

  function PartTokens(p: Part): nat {
    match p.kind
    case TextBlock => RoughEstimate(p.text)
    case ToolUse => RoughEstimate(p.toolName + p.toolInput)
    case ToolResult => RoughEstimate(p.text)
    case OtherBlock => if p.text != "" then RoughEstimate(p.text) else 0
  }

  function PartsTokens(ps: seq<Part>): nat {
    if ps == [] then 0 else PartsTokens(ps[..|ps| - 1]) + PartTokens(ps[|ps| - 1])
  }

  function Tokens(ms: seq<Message>): nat {
    if ms == [] then 0 else Tokens(ms[..|ms| - 1]) + PartsTokens(ms[|ms| - 1].content)
  }

  function GroupTokens(gs: seq<seq<Message>>): nat {
    if gs == [] then 0 else GroupTokens(gs[..|gs| - 1]) + Tokens(gs[|gs| - 1])
  }

  lemma {:induction false} TokensConcat(xs: seq<Message>, ys: seq<Message>)
    ensures Tokens(xs + ys) == Tokens(xs) + Tokens(ys)
  {
    if ys == [] {
      assert xs + ys == xs;
    } else {
      var rest, last := ys[..|ys| - 1], ys[|ys| - 1];
      TokensConcat(xs, rest);
      assert (xs + ys)[..|xs + ys| - 1] == xs + rest;
    }
  }

  lemma {:induction false} ByteLengthConcat(s: string, t: string)
    ensures ByteLength(s + t) == ByteLength(s) + ByteLength(t)
  {
    if t == "" {
      assert s + t == s;
    } else {
      ByteLengthConcat(s, t[..|t| - 1]);
      assert (s + t)[..|s + t| - 1] == s + t[..|t| - 1];
    }
  }

  /**
   A character takes the fewest bytes whose form has room for its code: 7, 11, 16 or 21 bits (RFC 3629, section 3).
   */
  lemma CharacterWidth(c: char)
    ensures var n := ByteLength([c]);
            && 1 <= n <= 4
            && (n == 1 <==> (c as int) < 0x80)
            && (n <= 2 <==> (c as int) < 0x800)
            && (n <= 3 <==> (c as int) < 0x1_0000)
  {
    assert [c][..0] == "";
  }

  /** A text costs the fewest tokens of four bytes each that hold it. */
  lemma EstimateHolds(text: string)
    ensures 4 * RoughEstimate(text) - 4 < ByteLength(text) <= 4 * RoughEstimate(text)
  {
    if text != "" { CharacterWidth(text[|text| - 1]); }
  }

  /** A tool call is charged for its name and its input together, every other part for its text. */
  lemma PartIsCharged(p: Part)
    ensures var bytes :=
              if p.kind == ToolUse then ByteLength(p.toolName) + ByteLength(p.toolInput) else ByteLength(p.text);
            4 * PartTokens(p) - 4 < bytes <= 4 * PartTokens(p)
  {
    hide RoughEstimate;
    ByteLengthConcat(p.toolName, p.toolInput);
    EstimateHolds(p.toolName + p.toolInput);
    EstimateHolds(p.text);
  }

  /** The parts of a message, and the messages, are charged one by one. */
  lemma {:induction false} PartsTokensConcat(ps: seq<Part>, qs: seq<Part>)
    ensures PartsTokens(ps + qs) == PartsTokens(ps) + PartsTokens(qs)
  {
    if qs == [] {
      assert ps + qs == ps;
    } else {
      PartsTokensConcat(ps, qs[..|qs| - 1]);
      assert (ps + qs)[..|ps + qs| - 1] == ps + qs[..|qs| - 1];
    }
  }

  lemma OneMessageTokens(role: Role, p: Part)
    ensures Tokens([Message(role, [p])]) == PartsTokens([p]) == PartTokens(p)
  {
    assert [p][..0] == [] && [Message(role, [p])][..0] == [];
  }

  /** However a conversation is cut into groups, the estimates of the groups add up to its own. */
  lemma {:induction false} GroupTokensAddUp(gs: seq<seq<Message>>)
    ensures GroupTokens(gs) == Tokens(Flatten(gs))
  {
    if gs != [] {
      GroupTokensAddUp(gs[..|gs| - 1]);
      TokensConcat(Flatten(gs[..|gs| - 1]), gs[|gs| - 1]);
    }
  }

  method EstimateMessageTokens(m: Message) returns (total: nat)
    ensures total == PartsTokens(m.content)
  {
    total := 0;
    for i := 0 to |m.content|
      invariant total == PartsTokens(m.content[..i])
    {
      assert m.content[..i + 1][..i] == m.content[..i];
      total := total + PartTokens(m.content[i]);
    }
    assert m.content[..|m.content|] == m.content;
  }

  method EstimateTokens(ms: seq<Message>) returns (total: nat)
    ensures total == Tokens(ms)
  {
    total := 0;
    for i := 0 to |ms|
      invariant total == Tokens(ms[..i])
    {
      assert ms[..i + 1][..i] == ms[..i];
      var n := EstimateMessageTokens(ms[i]);
      total := total + n;
    }
    assert ms[..|ms|] == ms;
  }
}
