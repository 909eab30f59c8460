/**
 Diagnostics and the text key by which they are compared (internal/platform/lsp/diagnostics.go, createDiagnosticKey).
 */
module DiagnosticKey {
  import opened Decimal
  import opened Text

  datatype Position = Position(line: int, character: int)

  datatype Diagnostic = Diagnostic(
    message: string,
    severity: int,
    start: Position,
    end: Position,
    source: string,
    code: string
  )

  function Span(d: Diagnostic): string {
    PrintInt(d.start.line) + (":" + (PrintInt(d.start.character) + ("-" +
      (PrintInt(d.end.line) + (":" + PrintInt(d.end.character))))))
  }

  function Key(d: Diagnostic): string {
    d.message + ("|" + (PrintInt(d.severity) + ("|" + (Span(d) + ("|" + (d.source + ("|" + d.code)))))))
  }

  lemma NumeralsLackBar(n: int)
    ensures Without(PrintInt(n), '|') && Without(PrintInt(n), ':')
    ensures Without(PrintInt(n)[1..], '-')
  {
    if n < 0 { assert PrintInt(n)[1..] == Print(-n); }
  }

  lemma NumeralsIdentify(m: int, n: int)
    requires PrintInt(m) == PrintInt(n)
    ensures m == n
  {
    AtoiOfPrint(m);
    AtoiOfPrint(n);
  }

  /** A sign can only stand first, so the dash between two numerals is found behind the first character. */
  lemma DashSplits(m: int, n: int, x: string, y: string)
    requires PrintInt(m) + ("-" + x) == PrintInt(n) + ("-" + y)
    ensures m == n && x == y
  {
    NumeralsLackBar(m);
    NumeralsLackBar(n);
    hide PrintInt;
    var s, t := PrintInt(m) + ("-" + x), PrintInt(n) + ("-" + y);
    assert s[1..] == PrintInt(m)[1..] + ("-" + x) && t[1..] == PrintInt(n)[1..] + ("-" + y);
    SplitOnce(PrintInt(m)[1..], PrintInt(n)[1..], '-', x, y);
    assert s[0] == PrintInt(m)[0] && t[0] == PrintInt(n)[0];
    assert PrintInt(m) == [s[0]] + s[1..][..|PrintInt(m)| - 1];
    assert PrintInt(n) == [t[0]] + t[1..][..|PrintInt(n)| - 1];
    NumeralsIdentify(m, n);
  }

  lemma SpanIdentifies(d: Diagnostic, e: Diagnostic)
    requires Span(d) == Span(e)
    ensures d.start == e.start && d.end == e.end
  {
    NumeralsLackBar(d.start.line);
    NumeralsLackBar(e.start.line);
    NumeralsLackBar(d.end.line);
    NumeralsLackBar(e.end.line);
    var dEnd := PrintInt(d.end.line) + (":" + PrintInt(d.end.character));
    var eEnd := PrintInt(e.end.line) + (":" + PrintInt(e.end.character));
    SplitOnce(PrintInt(d.start.line), PrintInt(e.start.line), ':',
              PrintInt(d.start.character) + ("-" + dEnd), PrintInt(e.start.character) + ("-" + eEnd));
    NumeralsIdentify(d.start.line, e.start.line);
    DashSplits(d.start.character, e.start.character, dEnd, eEnd);
    SplitOnce(PrintInt(d.end.line), PrintInt(e.end.line), ':', PrintInt(d.end.character), PrintInt(e.end.character));
    NumeralsIdentify(d.end.line, e.end.line);
    NumeralsIdentify(d.end.character, e.end.character);
  }

  lemma WithoutConcat(a: string, b: string, c: char)
    requires Without(a, c) && Without(b, c)
    ensures Without(a + b, c)
  {
  }

  lemma SpanLacksBar(d: Diagnostic)
    ensures Without(Span(d), '|')
  {
    NumeralsLackBar(d.start.line);
    NumeralsLackBar(d.start.character);
    NumeralsLackBar(d.end.line);
    NumeralsLackBar(d.end.character);
    hide PrintInt;
    var end := PrintInt(d.end.line) + (":" + PrintInt(d.end.character));
    WithoutConcat(":", PrintInt(d.end.character), '|');
    WithoutConcat(PrintInt(d.end.line), ":" + PrintInt(d.end.character), '|');
    WithoutConcat("-", end, '|');
    WithoutConcat(PrintInt(d.start.character), "-" + end, '|');
    WithoutConcat(":", PrintInt(d.start.character) + ("-" + end), '|');
    WithoutConcat(PrintInt(d.start.line), ":" + (PrintInt(d.start.character) + ("-" + end)), '|');
  }

  /** All of the key but source and code; and what follows the message in it. */
  function Head(d: Diagnostic): string {
    d.message + ("|" + Place(d))
  }

  function Place(d: Diagnostic): string {
    PrintInt(d.severity) + ("|" + Span(d))
  }

  lemma KeyParts(d: Diagnostic)
    ensures Key(d) == Head(d) + ("|" + (d.source + ("|" + d.code)))
    ensures Key(d) == (Head(d) + ("|" + d.source)) + ("|" + d.code)
  {
    hide PrintInt, Span;
    Bars(d.message, PrintInt(d.severity), Span(d), d.source, d.code);
  }

  lemma Bars(a: string, b: string, c: string, d: string, e: string)
    ensures a + ("|" + (b + ("|" + (c + ("|" + (d + ("|" + e))))))) ==
            (a + ("|" + (b + ("|" + c)))) + ("|" + (d + ("|" + e)))
    ensures a + ("|" + (b + ("|" + (c + ("|" + (d + ("|" + e))))))) ==
            ((a + ("|" + (b + ("|" + c)))) + ("|" + d)) + ("|" + e)
  {
  }

  lemma PlaceIdentifies(d: Diagnostic, e: Diagnostic)
    requires Place(d) == Place(e)
    ensures d.severity == e.severity && d.start == e.start && d.end == e.end
  {
    NumeralsLackBar(d.severity);
    NumeralsLackBar(e.severity);
    SplitOnce(PrintInt(d.severity), PrintInt(e.severity), '|', Span(d), Span(e));
    NumeralsIdentify(d.severity, e.severity);
    SpanIdentifies(d, e);
  }

  /** Message, severity and position can be told apart from the right, since severity and position hold no bar. */
  lemma HeadIdentifies(d: Diagnostic, e: Diagnostic)
    requires Head(d) == Head(e)
    ensures d.message == e.message && d.severity == e.severity && d.start == e.start && d.end == e.end
  {
    NumeralsLackBar(d.severity);
    NumeralsLackBar(e.severity);
    SpanLacksBar(d);
    SpanLacksBar(e);
    HeadParts(d);
    HeadParts(e);
    hide Head;
    SplitLast(d.message + ("|" + PrintInt(d.severity)), e.message + ("|" + PrintInt(e.severity)), '|',
              Span(d), Span(e));
    SplitLast(d.message, e.message, '|', PrintInt(d.severity), PrintInt(e.severity));
    PlaceIdentifies(d, e);
  }

  lemma HeadParts(d: Diagnostic)
    ensures Head(d) == (d.message + ("|" + PrintInt(d.severity))) + ("|" + Span(d))
  {
    hide PrintInt, Span;
  }

  /** Diagnostics whose source and code contain no bar are equal exactly when their keys are, whatever the messages. */
  lemma KeyIdentifies(d: Diagnostic, e: Diagnostic)
    requires Without(d.source, '|') && Without(e.source, '|')
    requires Without(d.code, '|') && Without(e.code, '|')
    ensures Key(d) == Key(e) <==> d == e
  {
    if Key(d) == Key(e) {
      KeyParts(d);
      KeyParts(e);
      hide Key, Head;
      SplitLast(Head(d) + ("|" + d.source), Head(e) + ("|" + e.source), '|', d.code, e.code);
      SplitLast(Head(d), Head(e), '|', d.source, e.source);
      HeadIdentifies(d, e);
    }
  }

  /** So are diagnostics whose message and source contain no bar, whatever their codes contain. */
  lemma KeyIdentifiesAnyCode(d: Diagnostic, e: Diagnostic)
    requires Without(d.message, '|') && Without(e.message, '|')
    requires Without(d.source, '|') && Without(e.source, '|')
    ensures Key(d) == Key(e) <==> d == e
  {
    if Key(d) == Key(e) {
      NumeralsLackBar(d.severity);
      NumeralsLackBar(e.severity);
      SpanLacksBar(d);
      SpanLacksBar(e);
      var dTail, eTail := d.source + ("|" + d.code), e.source + ("|" + e.code);
      var dRest, eRest := Span(d) + ("|" + dTail), Span(e) + ("|" + eTail);
      SplitOnce(d.message, e.message, '|', PrintInt(d.severity) + ("|" + dRest), PrintInt(e.severity) + ("|" + eRest));
      SplitOnce(PrintInt(d.severity), PrintInt(e.severity), '|', dRest, eRest);
      NumeralsIdentify(d.severity, e.severity);
      SplitOnce(Span(d), Span(e), '|', dTail, eTail);
      SpanIdentifies(d, e);
      SplitOnce(d.source, e.source, '|', d.code, e.code);
    }
  }

  /** Source and code, as they end the key. */
  function Tail(d: Diagnostic): string {
    d.source + ("|" + d.code)
  }

  ghost predicate SameReport(d: Diagnostic, e: Diagnostic) {
    d.message == e.message && d.severity == e.severity && d.start == e.start && d.end == e.end
  }

  lemma SameHeadIff(d: Diagnostic, e: Diagnostic)
    ensures Head(d) == Head(e) <==> SameReport(d, e)
  {
    if Head(d) == Head(e) { HeadIdentifies(d, e); }
  }

  /**
   Exactly when two diagnostics share a key: they are equal; or they agree but for source and code, and the one
   source begins with the other and a bar; or all that stands before the one source begins with all that stands
   before the other and a bar.  In the last two cases the other's remaining text holds what is left of it.
   */
  lemma KeysEqualIff(d: Diagnostic, e: Diagnostic)
    ensures Key(d) == Key(e) <==>
            || d == e
            || (SameReport(d, e) && Overlap(d.source, e.source, '|', d.code, e.code))
            || (SameReport(d, e) && Overlap(e.source, d.source, '|', e.code, d.code))
            || Overlap(Head(d), Head(e), '|', Tail(d), Tail(e)) || Overlap(Head(e), Head(d), '|', Tail(e), Tail(d))
  {
    hide Key, Head;
    KeyParts(d);
    KeyParts(e);
    SameHeadIff(d, e);
    JoinedEqualIff(Head(d), Head(e), '|', Tail(d), Tail(e));
    JoinedEqualIff(d.source, e.source, '|', d.code, e.code);
  }

  lemma OverlapIsLonger(a: string, b: string, c: char, x: string, y: string)
    requires Overlap(a, b, c, x, y)
    ensures |a| < |b|
  {
  }

  /**
   One report with two sources and codes has one key exactly when both agree, or the one source begins with the
   other and a bar, and the other's code holds what is left of it.
   */
  lemma SourcesShareKeyIff(d: Diagnostic, x: string, t: string, y: string, u: string)
    ensures Key(d.(source := x, code := t)) == Key(d.(source := y, code := u)) <==>
            (x == y && t == u) || Overlap(x, y, '|', t, u) || Overlap(y, x, '|', u, t)
  {
    var a, b := d.(source := x, code := t), d.(source := y, code := u);
    KeysEqualIff(a, b);
    assert Head(a) == Head(b);
    hide Key, Head, Overlap;
    if Overlap(Head(a), Head(b), '|', Tail(a), Tail(b)) { OverlapIsLonger(Head(a), Head(b), '|', Tail(a), Tail(b)); }
    if Overlap(Head(b), Head(a), '|', Tail(b), Tail(a)) { OverlapIsLonger(Head(b), Head(a), '|', Tail(b), Tail(a)); }
  }

  /** Two sources can share a key for one report, with some codes, exactly when one begins with the other and a bar. */
  lemma SourcesConfusableIff(d: Diagnostic, x: string, y: string)
    requires x != y
    ensures (exists t, u :: Key(d.(source := x, code := t)) == Key(d.(source := y, code := u))) <==>
            x + "|" <= y || y + "|" <= x
  {
    CollideIff(x, y, '|');
    if t, u :| Key(d.(source := x, code := t)) == Key(d.(source := y, code := u)) {
      SourcesShareKeyIff(d, x, t, y, u);
      JoinedEqualIff(x, y, '|', t, u);
    }
    if x + "|" <= y || y + "|" <= x {
      var t, u :| x + (['|'] + t) == y + (['|'] + u);
      JoinedEqualIff(x, y, '|', t, u);
      SourcesShareKeyIff(d, x, t, y, u);
    }
  }

  /** For different reports any two sources can: a message may hold the whole of another report and its source. */
  lemma ReportsConfusable(d: Diagnostic, e: Diagnostic)
    ensures var a := d.(code := Place(e) + ("|" + Tail(e)));
            var b := e.(message := Head(d) + ("|" + d.source));
            a != b && a.source == d.source && b.source == e.source && Key(a) == Key(b)
  {
    var a, b := d.(code := Place(e) + ("|" + Tail(e))), e.(message := Head(d) + ("|" + d.source));
    KeyParts(a);
    KeyParts(b);
    assert Head(a) == Head(d) && Place(b) == Place(e);
    assert |b.message| > |a.message|;
    hide Key;
    assert Head(b) == (Head(d) + ("|" + d.source)) + ("|" + Place(e));
    hide Head, Place;
    Associate(Head(d), d.source, Place(e), Tail(e));
  }

  lemma Associate(a: string, b: string, c: string, d: string)
    ensures a + ("|" + (b + ("|" + (c + ("|" + d))))) == (a + ("|" + b)) + ("|" + c) + ("|" + d)
  {
  }

  /** Such a pair of sources. */
  lemma BarConfusesKeys(d: Diagnostic)
    ensures Key(d.(source := "a|b", code := "c")) == Key(d.(source := "a", code := "b|c"))
  {
    hide Key;
    SourcesShareKeyIff(d, "a|b", "c", "a", "b|c");
    assert Overlap("a", "a|b", '|', "b|c", "c");
  }
}
