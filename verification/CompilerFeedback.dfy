/** Compiler diagnostics, their identity and their delta, from `src/compiler_feedback.rs`. Text is
    its UTF-8 bytes, one byte to a `char`; a line of JSON is what parsing it yields. */
module CompilerFeedback {
  import opened Options
  import opened Strings

  const MESSAGE_CAP := 400

  datatype Level = Error | Warning

  datatype Span = Span(startLine: nat, startColumn: nat, endLine: nat, endColumn: nat)

  datatype Diagnostic = Diagnostic(level: Level, code: Option<string>, file: Option<string>, span: Option<Span>,
    message: string)

  function LevelText(level: Level): string {
    if level.Error? then "error" else "warning"
  }

  function ParseLevel(text: string): Option<Level> {
    if text == "error" then Some(Error) else if text == "warning" then Some(Warning) else None
  }

  function SpanText(span: Option<Span>): string {
    if span.None? then "-"
    else
      var s := span.value;
      Decimal(s.startLine) + ":" + (Decimal(s.startColumn) + "-" + (Decimal(s.endLine) + ":" + Decimal(s.endColumn)))
  }

  function OrDash(text: Option<string>): string {
    if text.Some? then text.value else "-"
  }

  function Identity(d: Diagnostic): string {
    LevelText(d.level) + "|" + (OrDash(d.code) + "|" + (OrDash(d.file) + "|" + (SpanText(d.span) + "|" + d.message)))
  }

  // ---- truncation ----

  const ELLIPSIS: string := [0xE2 as char, 0x80 as char, 0xA6 as char]

  predicate Boundary(text: string, i: nat)
    requires i <= |text|
  {
    i == 0 || i == |text| || !(0x80 <= text[i] as int <= 0xBF)
  }

  /** The last character boundary at or before `end`. */
  function Cut(text: string, end: nat): (cut: nat)
    requires end <= |text|
    ensures cut <= end && Boundary(text, cut)
    ensures forall i :: cut < i <= end ==> !Boundary(text, i)
  {
    if end > 0 && !Boundary(text, end) then Cut(text, end - 1) else end
  }

  function Truncated(text: string, cap: nat): string {
    if |text| <= cap then text else text[..Cut(text, cap)] + ELLIPSIS
  }

  method Truncate(text: string, cap: nat) returns (r: string)
    ensures r == Truncated(text, cap)
    ensures |text| > cap ==> exists cut :: 0 <= cut <= cap && r == text[..cut] + ELLIPSIS && Boundary(text, cut)
                                           && forall i :: cut < i <= cap ==> !Boundary(text, i)
  {
    if |text| <= cap { return text; }
    var end := cap;
    while end > 0 && !Boundary(text, end)
      invariant 0 <= end <= |text| && Cut(text, end) == Cut(text, cap)
    {
      end := end - 1;
    }
    r := text[..end] + ELLIPSIS;
  }

  // ---- parsing ----

  datatype RawSpan = RawSpan(
    primary: bool, file: Option<string>,
    lineStart: Option<nat>, columnStart: Option<nat>, lineEnd: Option<nat>, columnEnd: Option<nat>)

  datatype Message = Message(level: Option<string>, text: Option<string>, code: Option<string>,
    spans: Option<seq<RawSpan>>)

  /** A line that is not JSON, and one that is, with the members that are read. */
  datatype Line = Prose | Json(reason: Option<string>, message: Option<Message>)

  function Narrow(n: nat): nat {
    n % 0x1_0000_0000
  }

  function SpanOf(s: RawSpan): Option<Span> {
    if s.lineStart.Some? && s.columnStart.Some? && s.lineEnd.Some? && s.columnEnd.Some?
    then Some(Span(Narrow(s.lineStart.value), Narrow(s.columnStart.value), Narrow(s.lineEnd.value),
      Narrow(s.columnEnd.value)))
    else None
  }

  /** The first primary span, or else the first span. */
  function Primary(spans: seq<RawSpan>): Option<RawSpan> {
    if spans == [] then None
    else if spans[0].primary then Some(spans[0])
    else
      var later := Primary(spans[1..]);
      if later.Some? && later.value.primary then later else Some(spans[0])
  }

  function DiagnosticFrom(m: Message): Option<Diagnostic> {
    if m.level.None? || ParseLevel(m.level.value).None? || m.text.None? then None
    else
      var primary := if m.spans.Some? then Primary(m.spans.value) else None;
      if primary.None? then None
      else Some(Diagnostic(ParseLevel(m.level.value).value, m.code, primary.value.file, SpanOf(primary.value),
        Truncated(m.text.value, MESSAGE_CAP)))
  }

  function Read(line: Line): Option<Diagnostic> {
    if line.Json? && line.reason == Some("compiler-message") && line.message.Some?
      then DiagnosticFrom(line.message.value) else None
  }

  predicate Has(diagnostics: seq<Diagnostic>, identity: string) {
    exists i :: 0 <= i < |diagnostics| && Identity(diagnostics[i]) == identity
  }

  function Readings(lines: seq<Line>): (readings: seq<Option<Diagnostic>>)
    ensures |readings| == |lines| && forall i :: 0 <= i < |lines| ==> readings[i] == Read(lines[i])
  {
    seq(|lines|, i requires 0 <= i < |lines| => Read(lines[i]))
  }

  /** What was read, each identity once. */
  function Listed(readings: seq<Option<Diagnostic>>): seq<Diagnostic> {
    if readings == [] then []
    else
      var before := Listed(readings[..|readings| - 1]);
      var d := readings[|readings| - 1];
      if d.None? || Has(before, Identity(d.value)) then before else before + [d.value]
  }

  /** The diagnostics of the lines, each identity once. */
  function Parsed(lines: seq<Line>): seq<Diagnostic> {
    Listed(Readings(lines))
  }

  lemma ReadingsGrow(lines: seq<Line>, i: nat)
    requires i < |lines|
    ensures Readings(lines[..i + 1])[..i] == Readings(lines[..i]) && Readings(lines[..i + 1])[i] == Read(lines[i])
  {}

  /** `from_json_lines`. */
  method FromJsonLines(lines: seq<Line>) returns (diagnostics: seq<Diagnostic>)
    ensures diagnostics == Parsed(lines)
  {
    diagnostics := [];
    for i := 0 to |lines|
      invariant diagnostics == Parsed(lines[..i])
    {
      ReadingsGrow(lines, i);
      if lines[i].Prose? { continue; }
      if lines[i].reason != Some("compiler-message") || lines[i].message.None? { continue; }
      var diagnostic := DiagnosticFrom(lines[i].message.value);
      if diagnostic.Some? {
        var identity := Identity(diagnostic.value);
        if !Has(diagnostics, identity) { diagnostics := diagnostics + [diagnostic.value]; }
      }
    }
    assert lines[..|lines|] == lines;
  }

  // ---- the delta ----

  function Ids(diagnostics: seq<Diagnostic>): (ids: set<string>)
    ensures forall id :: id in ids <==> Has(diagnostics, id)
  {
    set i | 0 <= i < |diagnostics| :: Identity(diagnostics[i])
  }

  /** Those whose identity is in `ids`, or is not, in order. */
  function Within(diagnostics: seq<Diagnostic>, ids: set<string>, keep: bool): seq<Diagnostic> {
    if diagnostics == [] then []
    else
      var last := diagnostics[|diagnostics| - 1];
      var before := Within(diagnostics[..|diagnostics| - 1], ids, keep);
      if (Identity(last) in ids) == keep then before + [last] else before
  }

  datatype Delta = Delta(current: seq<Diagnostic>, added: seq<Diagnostic>, remaining: seq<Diagnostic>,
    resolved: seq<Diagnostic>, baselineKnown: bool)

  /** `delta`. */
  function DeltaOf(previous: Option<seq<Diagnostic>>, current: seq<Diagnostic>): Delta {
    if previous.None? then Delta(current, [], [], [], false)
    else
      Delta(current, Within(current, Ids(previous.value), false), Within(current, Ids(previous.value), true),
            Within(previous.value, Ids(current), false), true)
  }

  // ---- identity ----

  /** Compilers never name a code or a file so; an absent one is written that way. */
  predicate Plain(text: Option<string>) {
    text.Some? ==> text.value != "-" && '|' !in text.value
  }

  lemma OrDashPlain(a: Option<string>, b: Option<string>)
    requires Plain(a) && Plain(b)
    ensures '|' !in OrDash(a) && '|' !in OrDash(b) && (OrDash(a) == OrDash(b) <==> a == b)
  {}

  lemma DecimalSame(m: nat, n: nat)
    ensures Decimal(m) == Decimal(n) ==> m == n
    ensures forall c :: c in Decimal(m) ==> '0' <= c <= '9'
  {
    DecimalRoundTrip(m);
    DecimalRoundTrip(n);
    DecimalDigits(m);
  }

  lemma Pair(m: nat, n: nat, sep: char, r: string, s: string)
    requires sep < '0' || sep > '9'
    ensures Decimal(m) + [sep] + r == Decimal(n) + [sep] + s ==> m == n && r == s
  {
    DecimalSame(m, n);
    DecimalSame(n, m);
    if Decimal(m) + [sep] + r == Decimal(n) + [sep] + s { CutAtFirst(Decimal(m), r, Decimal(n), s, sep); }
  }

  lemma SpanTextInjective(a: Option<Span>, b: Option<Span>)
    ensures '|' !in SpanText(a)
    ensures SpanText(a) == SpanText(b) <==> a == b
  {
    if a.Some? { SpanCharacters(a.value); }
    if b.Some? { SpanCharacters(b.value); }
    if a.Some? && b.Some? {
      var s, t := a.value, b.value;
      Pair(s.startLine, t.startLine, ':',
           Decimal(s.startColumn) + "-" + (Decimal(s.endLine) + ":" + Decimal(s.endColumn)),
           Decimal(t.startColumn) + "-" + (Decimal(t.endLine) + ":" + Decimal(t.endColumn)));
      Pair(s.startColumn, t.startColumn, '-',
           Decimal(s.endLine) + ":" + Decimal(s.endColumn), Decimal(t.endLine) + ":" + Decimal(t.endColumn));
      Pair(s.endLine, t.endLine, ':', Decimal(s.endColumn), Decimal(t.endColumn));
      DecimalSame(s.endColumn, t.endColumn);
    }
  }

  lemma SpanCharacters(s: Span)
    ensures '|' !in SpanText(Some(s)) && SpanText(Some(s)) != "-"
  {
    DecimalSame(s.startLine, 0);
    DecimalSame(s.startColumn, 0);
    DecimalSame(s.endLine, 0);
    DecimalSame(s.endColumn, 0);
    assert SpanText(Some(s))[0] == Decimal(s.startLine)[0];
  }

  /** Over plain codes and files the identity is the whole diagnostic, its message included:
      a reworded diagnostic is a new one. */
  lemma IdentityIsEverything(a: Diagnostic, b: Diagnostic)
    requires Plain(a.code) && Plain(a.file) && Plain(b.code) && Plain(b.file)
    ensures Identity(a) == Identity(b) <==> a == b
  {
    if Identity(a) == Identity(b) {
      OrDashPlain(a.code, b.code);
      OrDashPlain(a.file, b.file);
      SpanTextInjective(a.span, b.span);
      SpanTextInjective(b.span, a.span);
      CutAtFirst(LevelText(a.level),
                 OrDash(a.code) + "|" + (OrDash(a.file) + "|" + (SpanText(a.span) + "|" + a.message)),
                 LevelText(b.level),
                 OrDash(b.code) + "|" + (OrDash(b.file) + "|" + (SpanText(b.span) + "|" + b.message)), '|');
      CutAtFirst(OrDash(a.code), OrDash(a.file) + "|" + (SpanText(a.span) + "|" + a.message),
                 OrDash(b.code), OrDash(b.file) + "|" + (SpanText(b.span) + "|" + b.message), '|');
      CutAtFirst(OrDash(a.file), SpanText(a.span) + "|" + a.message,
                 OrDash(b.file), SpanText(b.span) + "|" + b.message, '|');
      CutAtFirst(SpanText(a.span), a.message, SpanText(b.span), b.message, '|');
    }
  }

  // ---- exactly which diagnostics share their identity ----

  predicate Narrow32(span: Option<Span>) {
    span.Some? ==>
      span.value.startLine < 0x1_0000_0000 && span.value.startColumn < 0x1_0000_0000
      && span.value.endLine < 0x1_0000_0000 && span.value.endColumn < 0x1_0000_0000
  }

  /** Some other diagnostic has the same identity. */
  ghost predicate Shares(a: Diagnostic) {
    exists b :: b != a && Narrow32(b.span) && Identity(b) == Identity(a)
  }

  /** The text is the tail of a field: empty, or up to and with a bar. */
  predicate Field(head: string) {
    head == "" || head[|head| - 1] == '|'
  }

  /** A bar-delimited field of the message reads as a span, with a bar behind it. */
  ghost predicate SpanAt(message: string, head: string, span: Option<Span>, tail: string) {
    Field(head) && Narrow32(span) && message == head + (SpanText(span) + "|" + tail)
  }

  ghost predicate SpanInside(message: string) {
    exists head, span, tail :: SpanAt(message, head, span, tail)
  }

  /** Code and file are present, not dashes and bar-free, and the message has no span among its fields. */
  ghost predicate Unmistakable(a: Diagnostic) {
    a.code.Some? && a.file.Some? && Plain(a.code) && Plain(a.file) && !SpanInside(a.message)
  }

  function Located(a: Diagnostic): string {
    SpanText(a.span) + "|" + a.message
  }

  lemma IdentityIs(a: Diagnostic)
    ensures Identity(a) == LevelText(a.level) + "|" + (OrDash(a.code) + "|" + (OrDash(a.file) + "|" + Located(a)))
  {}

  /** Where the first text has no bar, the second is it, or goes on behind the bar. */
  lemma CutOr(x: string, r: string, y: string, s: string) returns (more: Option<string>)
    requires '|' !in x && x + "|" + r == y + "|" + s
    ensures if more.None? then y == x && r == s else y == x + "|" + more.value && r == more.value + "|" + s
  {
    var t := x + "|" + r;
    assert t[|y|] == '|' && t[..|y|] == y && t[|y| + 1..] == s;
    assert t[|x|] == '|' && t[..|x|] == x && t[|x| + 1..] == r;
    if |y| == |x| {
      more := None;
    } else {
      assert forall i :: 0 <= i < |x| ==> t[i] == x[i];
      var z := y[|x| + 1..];
      more := Some(z);
      assert y[|x|] == t[|x|];
      assert y == x + "|" + z;
      assert r == t[|x| + 1..] == z + "|" + s;
    }
  }

  lemma Deeper(more: string, span: Option<Span>, tail: string, message: string)
    requires Narrow32(span) && message == more + "|" + (SpanText(span) + "|" + tail)
    ensures SpanInside(message)
  {
    var head := more + "|";
    assert message == head + (SpanText(span) + "|" + tail);
    assert SpanAt(message, head, span, tail);
  }

  lemma AtOnce(span: Option<Span>, tail: string, message: string)
    requires Narrow32(span) && message == SpanText(span) + "|" + tail
    ensures SpanInside(message)
  {
    assert message == "" + (SpanText(span) + "|" + tail);
    assert SpanAt(message, "", span, tail);
  }

  /** What follows a bar-free field that both texts share, or that only the second goes beyond. */
  lemma FieldThenSpan(own: Option<Span>, message: string, field: string, span: Option<Span>, tail: string)
    requires Narrow32(span) && SpanText(own) + "|" + message == field + "|" + (SpanText(span) + "|" + tail)
    ensures SpanInside(message)
  {
    SpanTextInjective(own, own);
    var more := CutOr(SpanText(own), message, field, SpanText(span) + "|" + tail);
    if more.None? { AtOnce(span, tail, message); } else { Deeper(more.value, span, tail, message); }
  }

  lemma TwoFieldsThenSpan(
    file: string, own: Option<Span>, message: string, field: string, second: string, span: Option<Span>, tail: string)
    requires '|' !in file && Narrow32(span)
    requires file + "|" + (SpanText(own) + "|" + message) ==
      field + "|" + (second + "|" + (SpanText(span) + "|" + tail))
    ensures SpanInside(message)
  {
    var rest := second + "|" + (SpanText(span) + "|" + tail);
    var more := CutOr(file, SpanText(own) + "|" + message, field, rest);
    if more.None? {
      FieldThenSpan(own, message, second, span, tail);
    } else {
      var long := more.value + "|" + second;
      assert more.value + "|" + rest == long + "|" + (SpanText(span) + "|" + tail);
      FieldThenSpan(own, message, long, span, tail);
    }
  }

  lemma UnmistakableIsAlone(a: Diagnostic, b: Diagnostic)
    requires Unmistakable(a) && Narrow32(b.span) && Identity(b) == Identity(a)
    ensures b == a
  {
    IdentityIs(a);
    IdentityIs(b);
    CutAtFirst(LevelText(a.level), OrDash(a.code) + "|" + (OrDash(a.file) + "|" + Located(a)),
               LevelText(b.level), OrDash(b.code) + "|" + (OrDash(b.file) + "|" + Located(b)), '|');
    var more :=
      CutOr(OrDash(a.code), OrDash(a.file) + "|" + Located(a), OrDash(b.code), OrDash(b.file) + "|" + Located(b));
    if more.Some? {
      TwoFieldsThenSpan(OrDash(a.file), a.span, a.message, more.value, OrDash(b.file), b.span, b.message);
    } else {
      var next := CutOr(OrDash(a.file), Located(a), OrDash(b.file), Located(b));
      if next.Some? {
        FieldThenSpan(a.span, a.message, next.value, b.span, b.message);
      } else {
        SpanTextInjective(a.span, b.span);
        SpanTextInjective(b.span, a.span);
        CutAtFirst(SpanText(a.span), a.message, SpanText(b.span), b.message, '|');
      }
    }
  }

  function Dashed(text: Option<string>): Option<string> {
    if text.None? then Some("-") else if text == Some("-") then None else text
  }

  lemma SplitAtBar(text: string) returns (head: string, tail: string)
    requires '|' in text
    ensures text == head + "|" + tail
  {
    var i :| 0 <= i < |text| && text[i] == '|';
    head, tail := text[..i], text[i + 1..];
  }

  /** A file that takes the span and the beginning of the message in. */
  lemma Swallowed(a: Diagnostic, head: string, span: Option<Span>, tail: string) returns (b: Diagnostic)
    requires SpanAt(a.message, head, span, tail)
    ensures b != a && Narrow32(b.span) && Identity(b) == Identity(a)
  {
    var f := OrDash(a.file);
    var grown := Grown(f, SpanText(a.span), head);
    b := Diagnostic(a.level, a.code, Some(grown), span, tail);
    GrownAppends(f, SpanText(a.span), head, SpanText(span) + "|" + tail);
    IdentityIs(a);
    IdentityIs(b);
  }

  function Grown(f: string, s: string, head: string): (grown: string)
    ensures |grown| > |f|
  {
    if head == "" then f + "|" + s else f + "|" + s + "|" + head[..|head| - 1]
  }

  lemma GrownAppends(f: string, s: string, head: string, rest: string)
    requires Field(head)
    ensures f + "|" + (s + "|" + (head + rest)) == Grown(f, s, head) + "|" + rest
  {
    if head == "" {
      assert head + rest == rest;
    } else {
      assert head == head[..|head| - 1] + "|";
    }
  }

  lemma Mistaken(a: Diagnostic) returns (b: Diagnostic)
    requires !Unmistakable(a) && Narrow32(a.span)
    ensures b != a && Narrow32(b.span) && Identity(b) == Identity(a)
  {
    if Dashed(a.code) != a.code {
      b := a.(code := Dashed(a.code));
    } else if Dashed(a.file) != a.file {
      b := a.(file := Dashed(a.file));
    } else if '|' in a.code.value {
      var c1, c2 := SplitAtBar(a.code.value);
      b := a.(code := Some(c1), file := Some(c2 + "|" + a.file.value));
      MovedBar(c1, c2, a.file.value, Located(a));
    } else if '|' in a.file.value {
      var f1, f2 := SplitAtBar(a.file.value);
      b := a.(code := Some(a.code.value + "|" + f1), file := Some(f2));
      MovedBar(a.code.value, f1, f2, Located(a));
    } else {
      var head, span, tail :| SpanAt(a.message, head, span, tail);
      b := Swallowed(a, head, span, tail);
    }
  }

  lemma MovedBar(x: string, y: string, z: string, rest: string)
    ensures x + "|" + ((y + "|" + z) + "|" + rest) == (x + "|" + y) + "|" + (z + "|" + rest)
  {}

  /** A diagnostic shares its identity with a different one exactly when code or file is missing, a
      dash or contains a bar, or a field of the message reads as a span. */
  lemma SharesIff(a: Diagnostic)
    requires Narrow32(a.span)
    ensures Shares(a) <==> !Unmistakable(a)
  {
    if !Unmistakable(a) { var b := Mistaken(a); }
    if b :| b != a && Narrow32(b.span) && Identity(b) == Identity(a) {
      if Unmistakable(a) { UnmistakableIsAlone(a, b); }
    }
  }

  function ErrorLine(code: Option<string>): Line {
    Json(Some("compiler-message"),
      Some(Message(Some("error"), Some("m"), code, Some([RawSpan(true, None, None, None, None, None)]))))
  }

  /** Two lines that report different diagnostics of one identity: only the first is listed. */
  lemma IdentityCollides()
    ensures Read(ErrorLine(None)).Some? && Read(ErrorLine(Some("-"))).Some?
    ensures var a, b := Read(ErrorLine(None)).value, Read(ErrorLine(Some("-"))).value;
      a != b && Identity(a) == Identity(b) && Parsed([ErrorLine(None), ErrorLine(Some("-"))]) == [a]
  {
    var a, b := Read(ErrorLine(None)).value, Read(ErrorLine(Some("-"))).value;
    assert a == Diagnostic(Error, None, None, None, "m") && b == Diagnostic(Error, Some("-"), None, None, "m");
    var readings := [Some(a), Some(b)];
    assert Readings([ErrorLine(None), ErrorLine(Some("-"))]) == readings;
    assert readings[..1] == [Some(a)] && readings[..1][..0] == [];
    assert Listed(readings[..1]) == [] + [a] == [a];
    assert Identity([a][0]) == Identity(b);
  }

  // ---- parsing keeps each identity once ----

  ghost predicate Unique(diagnostics: seq<Diagnostic>) {
    forall i, j :: 0 <= i < j < |diagnostics| ==> Identity(diagnostics[i]) != Identity(diagnostics[j])
  }

  lemma HasExtends(diagnostics: seq<Diagnostic>, d: Diagnostic, id: string)
    ensures Has(diagnostics + [d], id) <==> Has(diagnostics, id) || Identity(d) == id
  {
    var all := diagnostics + [d];
    if i :| 0 <= i < |diagnostics| && Identity(diagnostics[i]) == id { assert Identity(all[i]) == id; }
    if Identity(d) == id { assert Identity(all[|diagnostics|]) == id; }
  }

  lemma UniqueExtends(diagnostics: seq<Diagnostic>, d: Diagnostic)
    requires Unique(diagnostics) && !Has(diagnostics, Identity(d))
    ensures Unique(diagnostics + [d])
  {}

  lemma {:induction false} ListedUnique(readings: seq<Option<Diagnostic>>)
    ensures Unique(Listed(readings))
  {
    if readings != [] {
      ListedUnique(readings[..|readings| - 1]);
      MoreUnique(Listed(readings[..|readings| - 1]), readings[|readings| - 1]);
    }
  }

  lemma MoreUnique(before: seq<Diagnostic>, d: Option<Diagnostic>)
    requires Unique(before)
    ensures Unique(if d.None? || Has(before, Identity(d.value)) then before else before + [d.value])
  {
    if d.Some? && !Has(before, Identity(d.value)) { UniqueExtends(before, d.value); }
  }

  /** A compile's diagnostics hold no identity twice. */
  lemma ParsedUnique(lines: seq<Line>)
    ensures Unique(Parsed(lines))
  {
    ListedUnique(Readings(lines));
  }

  predicate Says(d: Option<Diagnostic>, id: string) {
    d.Some? && Identity(d.value) == id
  }

  ghost predicate Any<T>(s: seq<T>, p: T -> bool) {
    exists i :: 0 <= i < |s| && p(s[i])
  }

  lemma AnyLast<T>(s: seq<T>, p: T -> bool)
    requires s != []
    ensures Any(s, p) <==> Any(s[..|s| - 1], p) || p(s[|s| - 1])
  {
    var n := |s| - 1;
    if i :| 0 <= i < n && p(s[..n][i]) { assert p(s[i]); }
    if i :| 0 <= i < |s| && p(s[i]) { assert i < n ==> p(s[..n][i]); }
  }

  ghost predicate Said(readings: seq<Option<Diagnostic>>, id: string) {
    Any(readings, (d: Option<Diagnostic>) => Says(d, id))
  }

  lemma SaidLast(readings: seq<Option<Diagnostic>>, id: string)
    requires readings != []
    ensures Said(readings, id) <==> Said(readings[..|readings| - 1], id) || Says(readings[|readings| - 1], id)
  {
    AnyLast(readings, (d: Option<Diagnostic>) => Says(d, id));
  }

  lemma ListedLast(readings: seq<Option<Diagnostic>>, id: string)
    requires readings != []
    ensures Has(Listed(readings), id) <==>
      Has(Listed(readings[..|readings| - 1]), id) || Says(readings[|readings| - 1], id)
  {
    var d := readings[|readings| - 1];
    if d.Some? { HasExtends(Listed(readings[..|readings| - 1]), d.value, id); }
  }

  lemma {:induction false} ListedSays(readings: seq<Option<Diagnostic>>, id: string)
    ensures Has(Listed(readings), id) <==> Said(readings, id)
  {
    if readings != [] {
      ListedSays(readings[..|readings| - 1], id);
      ListedLast(readings, id);
      SaidLast(readings, id);
    }
  }

  /** They hold exactly the identities some line reports. */
  lemma ParsedReports(lines: seq<Line>, id: string)
    ensures Has(Parsed(lines), id) <==> exists i :: 0 <= i < |lines| && Says(Read(lines[i]), id)
  {
    var said := (d: Option<Diagnostic>) => Says(d, id);
    ListedSays(Readings(lines), id);
    if i :| 0 <= i < |lines| && Says(Read(lines[i]), id) { assert said(Readings(lines)[i]); }
  }

  // ---- conservation ----

  lemma WithinExtends(diagnostics: seq<Diagnostic>, d: Diagnostic, ids: set<string>, keep: bool)
    ensures Within(diagnostics + [d], ids, keep) ==
      if (Identity(d) in ids) == keep then Within(diagnostics, ids, keep) + [d] else Within(diagnostics, ids, keep)
  {
    assert (diagnostics + [d])[..|diagnostics|] == diagnostics;
  }

  /** The two halves of a filter: nothing lost, nothing twice. */
  lemma {:induction false} WithinSplits(diagnostics: seq<Diagnostic>, ids: set<string>)
    ensures multiset(Within(diagnostics, ids, true)) + multiset(Within(diagnostics, ids, false)) ==
      multiset(diagnostics)
    ensures |Within(diagnostics, ids, true)| + |Within(diagnostics, ids, false)| == |diagnostics|
  {
    if diagnostics != [] {
      var n := |diagnostics| - 1;
      var before, d := diagnostics[..n], diagnostics[n];
      WithinSplits(before, ids);
      assert diagnostics == before + [d];
      WithinExtends(before, d, ids, true);
      WithinExtends(before, d, ids, false);
      OneMore(Within(before, ids, true), Within(before, ids, false), d, Identity(d) in ids);
    }
  }

  lemma OneMore(a: seq<Diagnostic>, b: seq<Diagnostic>, d: Diagnostic, left: bool)
    ensures multiset(if left then a + [d] else a) + multiset(if left then b else b + [d]) ==
      multiset(a) + multiset(b) + multiset{d}
  {}

  function Kept(ids: set<string>, within: set<string>, keep: bool): set<string> {
    if keep then ids * within else ids - within
  }

  lemma WithinIdsStep(before: seq<Diagnostic>, d: Diagnostic, ids: set<string>, keep: bool)
    requires Ids(Within(before, ids, keep)) == Kept(Ids(before), ids, keep)
    ensures Ids(Within(before + [d], ids, keep)) == Kept(Ids(before + [d]), ids, keep)
  {
    WithinExtends(before, d, ids, keep);
    IdsExtend(before, d);
    OneId(Ids(before), ids, Identity(d));
    if (Identity(d) in ids) == keep {
      IdsExtend(Within(before, ids, keep), d);
    }
  }

  lemma {:induction false} WithinIds(diagnostics: seq<Diagnostic>, ids: set<string>, keep: bool)
    ensures Ids(Within(diagnostics, ids, keep)) == Kept(Ids(diagnostics), ids, keep)
  {
    if diagnostics == [] {
      assert Ids([]) == {};
    } else {
      var n := |diagnostics| - 1;
      assert diagnostics == diagnostics[..n] + [diagnostics[n]];
      WithinIds(diagnostics[..n], ids, keep);
      WithinIdsStep(diagnostics[..n], diagnostics[n], ids, keep);
    }
  }

  lemma OneId(a: set<string>, ids: set<string>, id: string)
    ensures (a + {id}) * ids == if id in ids then a * ids + {id} else a * ids
    ensures (a + {id}) - ids == if id in ids then a - ids else (a - ids) + {id}
  {}

  lemma WithinHas(diagnostics: seq<Diagnostic>, ids: set<string>, keep: bool, id: string)
    requires !Has(diagnostics, id)
    ensures !Has(Within(diagnostics, ids, keep), id)
  {
    WithinIds(diagnostics, ids, keep);
    assert id !in Ids(diagnostics);
    assert id !in Ids(Within(diagnostics, ids, keep));
  }

  lemma UniqueFront(before: seq<Diagnostic>, d: Diagnostic)
    requires Unique(before + [d])
    ensures Unique(before) && !Has(before, Identity(d))
  {
    var all := before + [d];
    assert all[|before|] == d;
    assert forall i :: 0 <= i < |before| ==> all[i] == before[i];
  }

  lemma WithinUniqueStep(before: seq<Diagnostic>, d: Diagnostic, ids: set<string>, keep: bool)
    requires Unique(Within(before, ids, keep)) && !Has(before, Identity(d))
    ensures Unique(Within(before + [d], ids, keep))
  {
    WithinHas(before, ids, keep, Identity(d));
    UniqueExtends(Within(before, ids, keep), d);
    WithinExtends(before, d, ids, keep);
  }

  lemma {:induction false} WithinUnique(diagnostics: seq<Diagnostic>, ids: set<string>, keep: bool)
    requires Unique(diagnostics)
    ensures Unique(Within(diagnostics, ids, keep))
  {
    if diagnostics != [] {
      var n := |diagnostics| - 1;
      assert diagnostics == diagnostics[..n] + [diagnostics[n]];
      UniqueFront(diagnostics[..n], diagnostics[n]);
      WithinUnique(diagnostics[..n], ids, keep);
      WithinUniqueStep(diagnostics[..n], diagnostics[n], ids, keep);
    }
  }

  lemma IdsExtend(diagnostics: seq<Diagnostic>, d: Diagnostic)
    ensures Ids(diagnostics + [d]) == Ids(diagnostics) + {Identity(d)}
  {
    forall id ensures id in Ids(diagnostics + [d]) <==> id in Ids(diagnostics) || id == Identity(d) {
      HasExtends(diagnostics, d, id);
    }
  }

  lemma {:induction false} UniqueCount(diagnostics: seq<Diagnostic>)
    requires Unique(diagnostics)
    ensures |Ids(diagnostics)| == |diagnostics|
  {
    if diagnostics == [] {
      assert Ids([]) == {};
    } else {
      var n := |diagnostics| - 1;
      var before, d := diagnostics[..n], diagnostics[n];
      assert diagnostics == before + [d];
      UniqueFront(before, d);
      UniqueCount(before);
      IdsExtend(before, d);
      assert Identity(d) !in Ids(before);
    }
  }

  lemma CurrentSplits(previous: seq<Diagnostic>, current: seq<Diagnostic>)
    ensures var d := DeltaOf(Some(previous), current);
      && multiset(d.added) + multiset(d.remaining) == multiset(current)
      && Ids(d.added) == Ids(current) - Ids(previous) && Ids(d.remaining) == Ids(current) * Ids(previous)
  {
    WithinSplits(current, Ids(previous));
    WithinIds(current, Ids(previous), true);
    WithinIds(current, Ids(previous), false);
  }

  /** New and remaining are the current diagnostics; the identities of resolved and remaining are
      the previous ones, each in one of the two. */
  lemma DeltaPartitions(previous: seq<Diagnostic>, current: seq<Diagnostic>)
    ensures var d := DeltaOf(Some(previous), current);
      && d.current == current
      && multiset(d.added) + multiset(d.remaining) == multiset(current) && Ids(d.added) !! Ids(d.remaining)
      && Ids(d.resolved) + Ids(d.remaining) == Ids(previous) && Ids(d.resolved) !! Ids(d.remaining)
      && Ids(current) == Ids(previous) - Ids(d.resolved) + Ids(d.added)
  {
    CurrentSplits(previous, current);
    WithinIds(previous, Ids(current), false);
    assert DeltaOf(Some(previous), current).resolved == Within(previous, Ids(current), false);
  }

  /** Comparing the other way around swaps new with resolved. */
  lemma SwapSwaps(a: seq<Diagnostic>, b: seq<Diagnostic>)
    ensures DeltaOf(Some(a), b).added == DeltaOf(Some(b), a).resolved
    ensures DeltaOf(Some(a), b).resolved == DeltaOf(Some(b), a).added
    ensures Ids(DeltaOf(Some(a), b).remaining) == Ids(DeltaOf(Some(b), a).remaining)
  {
    WithinIds(b, Ids(a), true);
    WithinIds(a, Ids(b), true);
  }

  lemma {:induction false} OneStep(previous: seq<Diagnostic>, current: seq<Diagnostic>)
    requires Unique(previous) && Unique(current)
    ensures var d := DeltaOf(Some(previous), current); |current| + |d.resolved| == |previous| + |d.added|
  {
    var here, there := Within(current, Ids(previous), true), Within(previous, Ids(current), true);
    WithinSplits(current, Ids(previous));
    WithinSplits(previous, Ids(current));
    WithinIds(current, Ids(previous), true);
    WithinIds(previous, Ids(current), true);
    WithinUnique(current, Ids(previous), true);
    WithinUnique(previous, Ids(current), true);
    UniqueCount(here);
    UniqueCount(there);
    assert Ids(here) == Ids(there);
  }

  /** All new, or all resolved, diagnostics over a chain of compiles. */
  function Total(chain: seq<seq<Line>>, resolved: bool): nat {
    if |chain| <= 1 then 0
    else
      var n := |chain| - 1;
      var d := DeltaOf(Some(Parsed(chain[n - 1])), Parsed(chain[n]));
      Total(chain[..n], resolved) + if resolved then |d.resolved| else |d.added|
  }

  /** Over every chain of compiles, what is outstanding is what was, plus all new, minus all resolved. */
  lemma {:induction false} ChainConserves(chain: seq<seq<Line>>)
    requires chain != []
    ensures |Parsed(chain[|chain| - 1])| + Total(chain, true) == |Parsed(chain[0])| + Total(chain, false)
  {
    var n := |chain| - 1;
    if n > 0 {
      var added, resolved := LastCompile(chain);
      ChainConserves(chain[..n]);
      assert chain[..n][n - 1] == chain[n - 1] && chain[..n][0] == chain[0];
    }
  }

  lemma LastCompile(chain: seq<seq<Line>>) returns (added: nat, resolved: nat)
    requires |chain| > 1
    ensures var n := |chain| - 1;
      && Total(chain, true) == Total(chain[..n], true) + resolved
      && Total(chain, false) == Total(chain[..n], false) + added
      && |Parsed(chain[n])| + resolved == |Parsed(chain[n - 1])| + added
  {
    var n := |chain| - 1;
    var d := DeltaOf(Some(Parsed(chain[n - 1])), Parsed(chain[n]));
    added, resolved := |d.added|, |d.resolved|;
    OneCompile(chain[n - 1], chain[n]);
  }

  lemma OneCompile(before: seq<Line>, lines: seq<Line>)
    ensures var d := DeltaOf(Some(Parsed(before)), Parsed(lines));
      |Parsed(lines)| + |d.resolved| == |Parsed(before)| + |d.added|
  {
    ParsedUnique(before);
    ParsedUnique(lines);
    OneStep(Parsed(before), Parsed(lines));
  }
}
