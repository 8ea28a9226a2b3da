/** Compiler feedback against the compiler's own lines: which diagnostic a line reports, and in which
    order lists and deltas keep them. */
module FeedbackInput {
  import opened Options
  import opened Strings
  import opened CompilerFeedback

  /** The span a diagnostic is placed at: the first primary one, or the first if none is primary. */
  ghost predicate PlacedAt(spans: seq<RawSpan>, s: RawSpan) {
    exists i :: 0 <= i < |spans| && spans[i] == s && (forall j :: 0 <= j < i ==> !spans[j].primary)
      && (s.primary || (i == 0 && forall j :: 0 <= j < |spans| ==> !spans[j].primary))
  }

  lemma {:induction false} PrimaryIff(spans: seq<RawSpan>, s: RawSpan)
    ensures Primary(spans) == Some(s) <==> PlacedAt(spans, s)
  {
    if spans != [] && !spans[0].primary {
      var rest := spans[1..];
      var later := Primary(rest);
      if later.Some? { PrimaryIff(rest, later.value); }
      PrimaryIff(rest, s);
      if later.Some? && later.value == s && s.primary {
        var i :| 0 <= i < |rest| && rest[i] == s && (forall j :: 0 <= j < i ==> !rest[j].primary);
        forall j | 0 <= j < i + 1 ensures !spans[j].primary { if j > 0 { assert spans[j] == rest[j - 1]; } }
        assert spans[i + 1] == s;
      }
      if PlacedAt(spans, s) { LaterPlaced(spans, s); }
      if !(later.Some? && later.value.primary) { NoneLater(rest); }
    }
  }

  lemma LaterPlaced(spans: seq<RawSpan>, s: RawSpan)
    requires PlacedAt(spans, s) && spans != [] && !spans[0].primary
    ensures s.primary ==> PlacedAt(spans[1..], s)
    ensures !s.primary ==> s == spans[0] && forall j :: 0 <= j < |spans[1..]| ==> !spans[1..][j].primary
  {
    var i :| 0 <= i < |spans| && spans[i] == s && (forall j :: 0 <= j < i ==> !spans[j].primary)
      && (s.primary || (i == 0 && forall j :: 0 <= j < |spans| ==> !spans[j].primary));
    if s.primary {
      assert i > 0 && spans[1..][i - 1] == s;
      assert forall j :: 0 <= j < i - 1 ==> spans[1..][j] == spans[j + 1];
    }
  }

  lemma {:induction false} NoneLater(spans: seq<RawSpan>)
    requires Primary(spans).None? || !Primary(spans).value.primary
    ensures forall j :: 0 <= j < |spans| ==> !spans[j].primary
  {
    if spans != [] {
      NoneLater(spans[1..]);
      assert forall j :: 1 <= j < |spans| ==> spans[j] == spans[1..][j - 1];
    }
  }

  const U32 := 0x1_0000_0000

  /** The position a span gives, each number cut to 32 bits; none unless all four are there. */
  ghost predicate Positioned(s: RawSpan, span: Option<Span>) {
    if s.lineStart.Some? && s.columnStart.Some? && s.lineEnd.Some? && s.columnEnd.Some? then
      && span.Some?
      && span.value.startLine == s.lineStart.value % U32 && span.value.startColumn == s.columnStart.value % U32
      && span.value.endLine == s.lineEnd.value % U32 && span.value.endColumn == s.columnEnd.value % U32
    else span.None?
  }

  /** A text of at most 400 bytes, or the longest beginning of it that is cut at a character, marked. */
  ghost predicate Shortened(text: string, shown: string) {
    if |text| <= 400 then shown == text
    else exists cut: nat :: LastBoundary(text, cut) && shown == text[..cut] + [0xE2 as char, 0x80 as char, 0xA6 as char]
  }

  /** A compiler message reports a diagnostic if and only if it has a level of the two, a text and a
      span; and then the diagnostic has its level, code and text, and the place of its span. */
  lemma ReadIff(line: Line, d: Diagnostic)
    ensures Read(line) == Some(d) <==>
      && line.Json? && line.reason == Some("compiler-message") && line.message.Some?
      && var m := line.message.value;
         && m.level == Some(if d.level.Error? then "error" else "warning") && m.code == d.code
         && m.text.Some? && Shortened(m.text.value, d.message)
         && m.spans.Some?
         && exists s :: PlacedAt(m.spans.value, s) && d.file == s.file && Positioned(s, d.span)
  {
    if line.Json? && line.message.Some? {
      var m := line.message.value;
      if m.text.Some? { ShortenedIff(m.text.value, d.message); }
      if m.spans.Some? {
        forall s ensures Primary(m.spans.value) == Some(s) <==> PlacedAt(m.spans.value, s) {
          PrimaryIff(m.spans.value, s);
        }
      }
    }
  }

  ghost predicate LastBoundary(text: string, cut: nat) {
    cut <= 400 < |text| && Boundary(text, cut) && forall i :: cut < i <= 400 ==> !Boundary(text, i)
  }

  lemma OneLastBoundary(text: string, x: nat, y: nat)
    requires LastBoundary(text, x) && LastBoundary(text, y)
    ensures x == y
  {}

  lemma ShortenedIff(text: string, shown: string)
    ensures Shortened(text, shown) <==> shown == Truncated(text, MESSAGE_CAP)
  {
    if |text| > MESSAGE_CAP {
      var cut := Cut(text, MESSAGE_CAP);
      assert LastBoundary(text, cut);
      forall other: nat | LastBoundary(text, other) ensures other == cut { OneLastBoundary(text, other, cut); }
    }
  }

  // ---- order ----

  lemma LastBehind<T>(a: seq<T>, b: seq<T>)
    requires b != []
    ensures var n := |b| - 1; a + b == a + b[..n] + [b[n]] && b == b[..n] + [b[n]]
  {}

  lemma ListedMore(a: seq<Option<Diagnostic>>, d: Option<Diagnostic>)
    ensures Listed(a) <= Listed(a + [d])
  {
    assert (a + [d])[..|a|] == a;
  }

  lemma Longer<T>(a: seq<T>, b: seq<T>, c: seq<T>)
    requires a <= b && b <= c
    ensures a <= c
  {}

  /** What was listed stays listed, in its place: later lines only add behind. */
  lemma {:induction false} ListedPrefix(a: seq<Option<Diagnostic>>, b: seq<Option<Diagnostic>>)
    ensures Listed(a) <= Listed(a + b)
  {
    if b == [] {
      assert a + b == a;
    } else {
      var n := |b| - 1;
      ListedPrefix(a, b[..n]);
      ListedMore(a + b[..n], b[n]);
      Longer(Listed(a), Listed(a + b[..n]), Listed(a + b[..n] + [b[n]]));
      LastBehind(a, b);
    }
  }

  lemma ParsedPrefix(a: seq<Line>, b: seq<Line>)
    ensures Parsed(a) <= Parsed(a + b)
  {
    assert Readings(a + b) == Readings(a) + Readings(b);
    ListedPrefix(Readings(a), Readings(b));
  }

  lemma WithinStep(a: seq<Diagnostic>, b: seq<Diagnostic>, d: Diagnostic, ids: set<string>, keep: bool)
    requires Within(a + b, ids, keep) == Within(a, ids, keep) + Within(b, ids, keep)
    ensures Within(a + b + [d], ids, keep) == Within(a, ids, keep) + Within(b + [d], ids, keep)
  {
    WithinExtends(a + b, d, ids, keep);
    WithinExtends(b, d, ids, keep);
    Associative(Within(a, ids, keep), Within(b, ids, keep), [d]);
  }

  /** A selection keeps the order: it goes through a list from front to back. */
  lemma {:induction false} WithinConcat(a: seq<Diagnostic>, b: seq<Diagnostic>, ids: set<string>, keep: bool)
    ensures Within(a + b, ids, keep) == Within(a, ids, keep) + Within(b, ids, keep)
  {
    if b == [] {
      assert a + b == a && Within(a, ids, keep) + [] == Within(a, ids, keep);
    } else {
      var n := |b| - 1;
      WithinConcat(a, b[..n], ids, keep);
      WithinStep(a, b[..n], b[n], ids, keep);
      LastBehind(a, b);
    }
  }

  /** A part takes a diagnostic by its identity alone. */
  lemma WithinOne(d: Diagnostic, ids: set<string>, keep: bool)
    ensures Within([d], ids, keep) == if (Identity(d) in ids) == keep then [d] else []
  {
    assert [d][..0] == [];
  }

  /** Without a baseline nothing counts as new, remaining or resolved. */
  lemma NoBaseline(current: seq<Diagnostic>)
    ensures var d := DeltaOf(None, current);
      !d.baselineKnown && d.current == current && d.added == d.remaining == d.resolved == []
    ensures forall previous :: DeltaOf(Some(previous), current).baselineKnown
  {}
}
