/**
 Content-Length framing of JSON-RPC messages (internal/platform/lsp/jsonrpc.go; Language Server Protocol 3.17,
 "Base Protocol"). A string stands for a sequence of bytes, one character a byte.
 */
module Framing {
  import opened Wrappers
  import opened Decimal
  import opened Text

  const PREFIX: string := "Content-Length: "
  const SEPARATOR: string := "\r\n\r\n"

  /** `Panics` is what a negative length leads to. */
  datatype ReadResult = Body(bytes: string) | EndOfInput | MalformedHeader | BadLength | Panics

  // ---------------------------------------------------------------- writing

  function Header(length: nat): string {
    PREFIX + PrintInt(length) + SEPARATOR
  }

  function Frame(body: string): string {
    Header(|body|) + body
  }

  function Frames(bodies: seq<string>): string {
    if bodies == [] then "" else Frame(bodies[0]) + Frames(bodies[1..])
  }

  // ---------------------------------------------------------------- reading

  /** Splits off the first line with its newline; None when there is no newline. */
  function ReadLine(s: string): Option<(string, string)> {
    var n := First(s, '\n');
    if n < |s| then Some((s[..n + 1], s[n + 1..])) else None
  }

  function ReadBody(length: int, s: string): (ReadResult, string) {
    if length < 0 then (Panics, s)
    else if length > |s| then (EndOfInput, "")
    else (Body(s[..length]), s[length..])
  }

  /** One message and what is left of the input; the second line is skipped whatever it is. */
  function ReadFrame(s: string): (ReadResult, string) {
    match ReadLine(s)
    case None => (EndOfInput, "")
    case Some(line) =>
      var header := TrimSpace(line.0);
      if !(PREFIX <= header) then (MalformedHeader, line.1)
      else
        match Atoi(header[|PREFIX|..])
        case None => (BadLength, line.1)
        case Some(length) =>
          match ReadLine(line.1)
          case None => (EndOfInput, "")
          case Some(separator) => ReadBody(length, separator.1)
  }

  function ReadFrames(s: string, n: nat): (seq<ReadResult>, string)
    decreases n
  {
    if n == 0 then ([], s)
    else
      var first := ReadFrame(s);
      var others := ReadFrames(first.1, n - 1);
      ([first.0] + others.0, others.1)
  }

  // ---------------------------------------------------------------- the header of a written frame

  lemma LineIn(line: string, rest: string)
    requires Without(line, '\n')
    ensures ReadLine(line + "\n" + rest) == Some((line + "\n", rest))
  {
    FirstSeparator(line, '\n', rest);
    var s := line + "\n" + rest;
    assert s == line + (['\n'] + rest);
    assert s[..|line| + 1] == line + "\n" && s[|line| + 1..] == rest;
  }

  lemma HeaderTrimmed(n: nat)
    ensures TrimSpace(PREFIX + PrintInt(n) + "\r" + "\n") == PREFIX + PrintInt(n)
    ensures Without(PREFIX + PrintInt(n) + "\r", '\n')
  {
    var core := PREFIX + PrintInt(n);
    assert core[0] == 'C' && core[|core| - 1] == PrintInt(n)[|PrintInt(n)| - 1];
    assert IsDigit(PrintInt(n)[|PrintInt(n)| - 1]);
    TrimLine(core);
    HeaderIsOneLine(n);
  }

  lemma HeaderIsOneLine(n: nat)
    ensures Without(PREFIX + PrintInt(n) + "\r", '\n')
  {
    assert Without(PREFIX, '\n');
    assert Without(PrintInt(n), '\n') by {
      forall i | 0 <= i < |PrintInt(n)|
        ensures PrintInt(n)[i] != '\n'
      {
        assert IsDigit(PrintInt(n)[i]);
      }
    }
    hide PrintInt;
  }

  lemma HeaderRead(n: nat, rest: string)
    ensures ReadFrame(Header(n) + rest) == ReadBody(n, rest)
  {
    var core := PREFIX + PrintInt(n);
    HeaderTrimmed(n);
    AtoiOfPrint(n);
    hide PrintInt, TrimSpace, Atoi;
    assert Header(n) + rest == (core + "\r") + "\n" + ("\r" + "\n" + rest) by {
      assert SEPARATOR == "\r" + "\n" + ("\r" + "\n");
    }
    LineIn(core + "\r", "\r" + "\n" + rest);
    LineIn("\r", rest);
    hide ReadLine;
    assert core[|PREFIX|..] == PrintInt(n);
  }

  /** A written frame is read back as its body, whatever the body contains and whatever follows it. */
  lemma FrameRoundTrip(body: string, rest: string)
    ensures ReadFrame(Frame(body) + rest) == (Body(body), rest)
  {
    assert Frame(body) + rest == Header(|body|) + (body + rest);
    HeaderRead(|body|, body + rest);
    assert (body + rest)[..|body|] == body && (body + rest)[|body|..] == rest;
  }

  function Bodies(bodies: seq<string>): seq<ReadResult> {
    if bodies == [] then [] else [Body(bodies[0])] + Bodies(bodies[1..])
  }

  /** Frames written one after another are read back in order, and what follows them stays unread. */
  lemma {:induction false} FramesRoundTrip(bodies: seq<string>, rest: string)
    ensures ReadFrames(Frames(bodies) + rest, |bodies|) == (Bodies(bodies), rest)
  {
    if bodies == [] {
      assert Frames(bodies) + rest == rest;
    } else {
      assert Frames(bodies) + rest == Frame(bodies[0]) + (Frames(bodies[1..]) + rest);
      FrameRoundTrip(bodies[0], Frames(bodies[1..]) + rest);
      FramesRoundTrip(bodies[1..], rest);
    }
  }

  // ---------------------------------------------------------------- other inputs

  lemma NoLine(s: string)
    requires Without(s, '\n')
    ensures ReadLine(s) == None
  {
    FirstIn(s, '\n');
  }

  /** Ends before the newline of the length line. */
  lemma CutInLength(n: nat, cut: string)
    requires cut <= PREFIX + PrintInt(n) + "\r"
    ensures ReadFrame(cut) == (EndOfInput, "")
  {
    HeaderTrimmed(n);
    hide PrintInt;
    assert Without(cut, '\n');
    NoLine(cut);
  }

  /** Ends between the two newlines of the header. */
  lemma CutInSeparator(n: nat, tail: string)
    requires tail <= "\r"
    ensures ReadFrame(PREFIX + PrintInt(n) + "\r" + "\n" + tail) == (EndOfInput, "")
  {
    var core := PREFIX + PrintInt(n);
    HeaderTrimmed(n);
    AtoiOfPrint(n);
    hide PrintInt, TrimSpace, Atoi;
    LineIn(core + "\r", tail);
    assert Without(tail, '\n');
    NoLine(tail);
    hide ReadLine;
    assert core[|PREFIX|..] == PrintInt(n);
  }

  /** A frame that is cut off anywhere reads as the end of the input, never as a body. */
  lemma CutFrameFails(body: string, k: nat)
    requires k < |Frame(body)|
    ensures ReadFrame(Frame(body)[..k]) == (EndOfInput, "")
  {
    var core := PREFIX + PrintInt(|body|);
    hide PrintInt, ReadFrame;
    var n, cut := |core|, Frame(body)[..k];
    assert Frame(body) == core + "\r" + "\n" + "\r" + "\n" + body;
    if k < n + 2 {
      assert cut == (core + "\r")[..k];
      CutInLength(|body|, cut);
    } else if k < n + 4 {
      assert cut == core + "\r" + "\n" + "\r"[..k - n - 2];
      CutInSeparator(|body|, "\r"[..k - n - 2]);
    } else {
      assert cut == Header(|body|) + body[..k - n - 4];
      HeaderRead(|body|, body[..k - n - 4]);
      CutBody(|body|, body[..k - n - 4]);
    }
  }

  lemma CutBody(n: nat, part: string)
    requires |part| < n
    ensures ReadBody(n, part) == (EndOfInput, "")
  {
  }

  // ---------------------------------------------------------------- messages with several header fields

  /** Header fields, each on a line of its own. */
  function Fields(fs: seq<string>): string {
    if fs == [] then "" else fs[0] + "\r" + "\n" + Fields(fs[1..])
  }

  predicate OneLine(f: string) {
    Without(f, '\n')
  }

  /** A header field that is not the content length. */
  predicate OtherField(f: string) {
    OneLine(f) && !(PREFIX <= TrimSpace(f + "\r" + "\n"))
  }

  /** A message whose header has other fields before and after the content length, as the protocol allows. */
  function Message(before: seq<string>, after: seq<string>, body: string): string {
    Fields(before) + (PREFIX + PrintInt(|body|) + "\r" + "\n" + (Fields(after) + ("\r" + "\n" + body)))
  }

  lemma OneLineEnds(f: string)
    requires OneLine(f)
    ensures Without(f + "\r", '\n')
  {
  }

  /** A field in front of the content length is taken for a malformed header. */
  lemma FieldBefore(f: string, tail: string)
    requires OtherField(f)
    ensures ReadFrame(f + "\r" + "\n" + tail) == (MalformedHeader, tail)
  {
    OneLineEnds(f);
    hide TrimSpace, Atoi;
    LineIn(f + "\r", tail);
  }

  /** Whatever one line follows the length is skipped, and the body is read behind it. */
  lemma LineAfterLength(n: nat, line: string, tail: string)
    requires OneLine(line)
    ensures ReadFrame(PREFIX + PrintInt(n) + "\r" + "\n" + (line + "\r" + "\n" + tail)) == ReadBody(n, tail)
  {
    var core := PREFIX + PrintInt(n);
    HeaderTrimmed(n);
    AtoiOfPrint(n);
    OneLineEnds(line);
    hide PrintInt, TrimSpace, Atoi;
    LineIn(core + "\r", line + "\r" + "\n" + tail);
    LineIn(line + "\r", tail);
    hide ReadLine;
    assert core[|PREFIX|..] == PrintInt(n);
  }

  lemma ReadBodyLength(n: nat, t: string)
    requires |t| >= n
    ensures ReadBody(n, t) == (Body(t[..n]), t[n..]) && |t[n..]| == |t| - n
  {
  }

  /**
   A message with a field behind the content length: that field is skipped as if it ended the header, so the
   body is read too early by all that still follows in the header, and as much is left over.
   */
  lemma FieldAfter(after: seq<string>, body: string, rest: string)
    requires after != [] && OneLine(after[0])
    ensures var tail := Fields(after[1..]) + ("\r" + "\n" + body) + rest;
            && ReadFrame(Message([], after, body) + rest) == (Body(tail[..|body|]), tail[|body|..])
            && |tail[|body|..]| == |Fields(after[1..])| + 2 + |rest|
  {
    var n, f := |body|, after[0];
    var tail := Fields(after[1..]) + ("\r" + "\n" + body) + rest;
    assert Message([], after, body) + rest == PREFIX + PrintInt(n) + "\r" + "\n" + (f + "\r" + "\n" + tail);
    LineAfterLength(n, f, tail);
    hide ReadFrame, PrintInt;
    ReadBodyLength(n, tail);
  }

  lemma PlainMessage(body: string)
    ensures Message([], [], body) == Frame(body)
  {
    hide PrintInt;
    assert SEPARATOR == "\r" + "\n" + ("\r" + "\n");
  }

  lemma MessageStarts(before: seq<string>, after: seq<string>, body: string, rest: string)
    requires before != []
    ensures Message(before, after, body) + rest ==
            before[0] + "\r" + "\n" + (Message(before[1..], after, body) + rest)
  {
    var length := PREFIX + PrintInt(|body|) + "\r" + "\n" + (Fields(after) + ("\r" + "\n" + body));
    assert Fields(before) == before[0] + "\r" + "\n" + Fields(before[1..]);
    hide Fields, PrintInt;
    assert Fields(before) + length + rest == before[0] + "\r" + "\n" + (Fields(before[1..]) + length + rest);
  }

  /** A message is read back as its body exactly when its header has no other field. */
  lemma ReadsMessageIff(before: seq<string>, after: seq<string>, body: string, rest: string)
    requires forall f :: f in before ==> OtherField(f)
    requires forall f :: f in after ==> OneLine(f)
    ensures ReadFrame(Message(before, after, body) + rest) == (Body(body), rest) <==> before == [] && after == []
  {
    hide ReadFrame, Message, Frame, OtherField;
    if before != [] {
      assert before[0] in before;
      MessageStarts(before, after, body, rest);
      FieldBefore(before[0], Message(before[1..], after, body) + rest);
    } else if after != [] {
      assert after[0] in after;
      FieldAfter(after, body, rest);
    } else {
      PlainMessage(body);
      FrameRoundTrip(body, rest);
    }
  }

  /** Exactly which inputs give a body. */
  ghost predicate FramedAs(s: string, body: string, rest: string, line: string, separator: string) {
    && s == line + "\n" + separator + "\n" + body + rest
    && Without(line, '\n') && Without(separator, '\n')
    && "Content-Length: " <= TrimSpace(line + "\n")
    && Atoi(TrimSpace(line + "\n")[16..]) == Some(|body|)
  }

  lemma LineOf(s: string) returns (line: string, rest: string)
    requires ReadLine(s).Some?
    ensures Without(line, '\n') && s == line + "\n" + rest && ReadLine(s) == Some((line + "\n", rest))
  {
    FirstIn(s, '\n');
    var n := First(s, '\n');
    line, rest := s[..n], s[n + 1..];
    assert s[..n + 1] == line + "\n";
  }

  /**
   A body is read exactly from an input that is a line announcing its length, any second line, and the body.
   */
  lemma ReadsBodyIff(s: string, body: string, rest: string)
    ensures ReadFrame(s) == (Body(body), rest) <==> exists line, separator :: FramedAs(s, body, rest, line, separator)
  {
    if ReadFrame(s) == (Body(body), rest) {
      var line, separator := ReadIsFramed(s, body, rest);
    }
    if line, separator :| FramedAs(s, body, rest, line, separator) {
      FramedReads(s, body, rest, line, separator);
    }
  }

  lemma ReadIsFramed(s: string, body: string, rest: string) returns (line: string, separator: string)
    requires ReadFrame(s) == (Body(body), rest)
    ensures FramedAs(s, body, rest, line, separator)
  {
    hide ReadLine, TrimSpace, Atoi;
    var tail, remaining;
    line, tail := LineOf(s);
    assert PREFIX <= TrimSpace(line + "\n");
    assert ReadLine(tail).Some?;
    separator, remaining := LineOf(tail);
    hide ReadFrame;
    assert remaining == body + rest;
    assert line + "\n" + separator + "\n" + body + rest == line + "\n" + (separator + "\n" + (body + rest));
  }

  lemma FramedReads(s: string, body: string, rest: string, line: string, separator: string)
    requires FramedAs(s, body, rest, line, separator)
    ensures ReadFrame(s) == (Body(body), rest)
  {
    hide TrimSpace, Atoi;
    assert s == line + "\n" + (separator + "\n" + (body + rest));
    LineIn(line, separator + "\n" + (body + rest));
    LineIn(separator, body + rest);
    hide ReadLine;
    assert (body + rest)[..|body|] == body && (body + rest)[|body|..] == rest;
  }

  /** What any other input gives, and how much of it is consumed. */
  lemma ReadsOtherwise(line: string, separator: string, rest: string)
    requires Without(line, '\n') && Without(separator, '\n')
    ensures ReadFrame(line) == (EndOfInput, "")
    ensures var header := TrimSpace(line + "\n");
            if !("Content-Length: " <= header) then
              && ReadFrame(line + "\n" + rest) == (MalformedHeader, rest)
            else
              match Atoi(header[16..])
              case None => ReadFrame(line + "\n" + rest) == (BadLength, rest)
              case Some(n) =>
                && ReadFrame(line + "\n" + separator) == (EndOfInput, "")
                && (n < 0 ==> ReadFrame(line + "\n" + (separator + "\n" + rest)) == (Panics, rest))
                && (n > |rest| ==> ReadFrame(line + "\n" + (separator + "\n" + rest)) == (EndOfInput, ""))
  {
    hide TrimSpace, Atoi;
    NoLine(line);
    NoLine(separator);
    LineIn(line, rest);
    LineIn(line, separator);
    LineIn(line, separator + "\n" + rest);
    LineIn(separator, rest);
  }

  // ---------------------------------------------------------------- the two ends of a connection

  class Connection {
    /** Bytes written and not yet read. */
    var buffer: string

    constructor ()
      ensures buffer == ""
    {
      buffer := "";
    }

    method WriteMessage(data: string)
      modifies this
      ensures buffer == old(buffer) + Frame(data)
      ensures buffer == old(buffer) + ("Content-Length: " + PrintInt(|data|) + "\r\n\r\n" + data)
    {
      var header := "Content-Length: " + PrintInt(|data|) + "\r\n\r\n";
      buffer := buffer + header;
      buffer := buffer + data;
      assert buffer == old(buffer) + (header + data);
    }

    /** Up to and including the first newline; without one everything is consumed. */
    method ReadString() returns (line: Option<string>)
      modifies this
      ensures match ReadLine(old(buffer))
              case None => line == None && buffer == ""
              case Some(split) => line == Some(split.0) && buffer == split.1
    {
      var i := 0;
      assert buffer[0..] == buffer;
      while i < |buffer| && buffer[i] != '\n'
        invariant 0 <= i <= |buffer| && buffer == old(buffer)
        invariant First(buffer, '\n') == i + First(buffer[i..], '\n')
      {
        assert buffer[i..][1..] == buffer[i + 1..];
        i := i + 1;
      }
      if i == |buffer| {
        buffer := "";
        return None;
      }
      line := Some(buffer[..i + 1]);
      buffer := buffer[i + 1..];
    }

    method ReadMessage() returns (result: ReadResult)
      modifies this
      ensures (result, buffer) == ReadFrame(old(buffer))
    {
      hide ReadLine, TrimSpace, Atoi;
      var line := ReadString();
      if line == None { return EndOfInput; }
      var header := TrimSpace(line.value);
      if !(PREFIX <= header) { return MalformedHeader; }
      var length := Atoi(header[|PREFIX|..]);
      if length == None { return BadLength; }
      var separator := ReadString();
      if separator == None { return EndOfInput; }
      if length.value < 0 { return Panics; }
      if length.value > |buffer| {
        buffer := "";
        return EndOfInput;
      }
      result := Body(buffer[..length.value]);
      buffer := buffer[length.value..];
    }
  }
}
