/** What the event-stream decoder guarantees: chunk boundaries never matter, and encoded events
    come back. */
module SseLaws {
  import opened Options
  import Strings
  import opened Utf8
  import opened Sse

  function Concat(chunks: seq<Bytes>): Bytes {
    if chunks == [] then [] else chunks[0] + Concat(chunks[1..])
  }

  // ---- what may follow the terminal event ----

  /** No line of the text is a `data:` field: comments, other fields and blank lines only. */
  predicate NoData(s: Bytes)
    decreases |s|
  {
    !StartsWith(s, DATA) && (FindLf(s) == |s| || NoData(s[FindLf(s) + 1..]))
  }

  /** The terminal event is last: wherever `[DONE]` has been seen, no `data:` line follows. */
  ghost predicate TerminalLast<V>(parse: Bytes -> Option<V>, t: Text, s: Bytes) {
    forall i: nat | i <= |s| ::
      var r := Fold(parse, t, s[..i]);
      r.Reply? && r.state.done ==> NoData(r.state.line + s[i..])
  }

  lemma {:induction false} FindLfAt(a: Bytes, b: Bytes)
    requires NoLf(a)
    ensures FindLf(a + b) == |a| + FindLf(b)
  {
    if a == [] {
      assert a + b == b;
    } else {
      assert (a + b)[1..] == a[1..] + b;
      FindLfAt(a[1..], b);
    }
  }

  lemma StartsWithLonger(s: Bytes, longer: Bytes, p: Bytes)
    requires |s| <= |longer| && longer[..|s|] == s
    ensures StartsWith(s, p) ==> StartsWith(longer, p)
  {
    if StartsWith(s, p) { assert longer[..|p|] == longer[..|s|][..|p|]; }
  }

  lemma CutAndJoin(a: Bytes, b: Bytes, i: nat)
    requires i < |a|
    ensures a + b == a[..i] + (a[i..] + b) && (a[i..] + b)[0] == a[i] && (a + b)[i + 1..] == a[i + 1..] + b
  {}

  lemma FindLfSplit(a: Bytes, b: Bytes)
    ensures FindLf(a) < |a| ==> FindLf(a + b) == FindLf(a) && (a + b)[FindLf(a) + 1..] == a[FindLf(a) + 1..] + b
  {
    var i := FindLf(a);
    if i < |a| {
      CutAndJoin(a, b, i);
      FindLfAt(a[..i], a[i..] + b);
    }
  }

  lemma {:induction false} NoDataPrefix(a: Bytes, b: Bytes)
    requires NoData(a + b)
    ensures NoData(a)
    decreases |a|
  {
    StartsWithLonger(a, a + b, DATA);
    FindLfSplit(a, b);
    if FindLf(a) < |a| { NoDataPrefix(a[FindLf(a) + 1..], b); }
  }

  lemma {:induction false} TrimCrPrefix(s: Bytes)
    ensures |TrimCr(s)| <= |s| && s[..|TrimCr(s)|] == TrimCr(s)
  {
    if s != [] && s[|s| - 1] == CR { TrimCrPrefix(s[..|s| - 1]); }
  }

  lemma QuietLine<V>(parse: Bytes -> Option<V>, t: Text, line: Bytes)
    requires t.data == [] && !StartsWith(line, DATA)
    ensures HandleLine(parse, t, TrimCr(line)) == Reply(t, [])
  {
    TrimCrPrefix(line);
    StartsWithLonger(TrimCr(line), line, DATA);
  }

  ghost predicate Quiet(t: Text) {
    t.data == [] && NoLf(t.line) && !StartsWith(t.line, DATA)
  }

  /** Text without `data:` lines changes nothing but the partial line. */
  lemma {:induction false} QuietFold<V>(parse: Bytes -> Option<V>, t: Text, s: Bytes)
    requires t.data == [] && NoLf(t.line) && NoData(t.line + s)
    ensures Quiet(t)
    ensures var r := Fold(parse, t, s); r.Reply? && r.events == [] && r.state.done == t.done && Quiet(r.state)
    decreases |s|
  {
    NoDataPrefix(t.line, s);
    if s != [] {
      if s[0] == LF {
        FindLfAt(t.line, s);
        assert (t.line + s)[|t.line| + 1..] == s[1..];
        QuietLine(parse, t.(line := []), t.line);
        assert [] + s[1..] == s[1..];
        QuietFold(parse, t.(line := []), s[1..]);
      } else {
        assert t.line + [s[0]] + s[1..] == t.line + s;
        QuietFold(parse, t.(line := t.line + [s[0]]), s[1..]);
      }
    }
  }

  lemma QuietFlush<V>(parse: Bytes -> Option<V>, t: Text, events: seq<V>)
    requires Quiet(t)
    ensures Ending(parse, t, events) == Some(events)
  {
    QuietLine(parse, t.(line := []), t.line);
    assert events + ([] + []) == events;
  }

  /** The rest of a body keeps its terminal event last. */
  lemma {:induction false} TerminalLastRest<V>(parse: Bytes -> Option<V>, t: Text, a: Bytes, b: Bytes)
    requires TerminalLast(parse, t, a + b) && Fold(parse, t, a).Reply?
    ensures TerminalLast(parse, Fold(parse, t, a).state, b)
  {
    var mid := Fold(parse, t, a).state;
    forall i: nat | i <= |b|
      ensures var r := Fold(parse, mid, b[..i]); r.Reply? && r.state.done ==> NoData(r.state.line + b[i..])
    {
      assert (a + b)[..|a| + i] == a + b[..i] && (a + b)[|a| + i..] == b[i..];
      FoldConcat(parse, t, a, b[..i]);
    }
  }

  /** Right where `[DONE]` takes effect nothing is pending, and nothing becomes pending later. */
  lemma {:induction false} DoneIsQuiet<V>(parse: Bytes -> Option<V>, t: Text, a: Bytes, b: Bytes)
    requires !t.done && NoLf(t.line) && TerminalLast(parse, t, a + b)
    requires Fold(parse, t, a).Reply? && Fold(parse, t, a).state.done
    ensures var r := Fold(parse, t, a).state; Quiet(r) && NoData(r.line + b)
    decreases |a|
  {
    var step := Push(parse, t, a[0]);
    assert a == [a[0]] + a[1..] && [a[0]] + a[1..] + b == [a[0]] + (a[1..] + b);
    FoldOne(parse, t, a[0]);
    TerminalLastRest(parse, t, [a[0]], a[1..] + b);
    if step.state.done {
      assert step.state.data == [] && step.state.line == [];
      assert (a[1..] + b)[..0] == [];
      assert NoData(step.state.line + (a[1..] + b)[0..]);
      assert step.state.line + (a[1..] + b)[0..] == (step.state.line + a[1..]) + b;
      NoDataPrefix(step.state.line + a[1..], b);
      QuietFold(parse, step.state, a[1..]);
    } else {
      DoneIsQuiet(parse, step.state, a[1..], b);
    }
    assert (a + b)[..|a|] == a && (a + b)[|a|..] == b;
  }

  lemma FoldOne<V>(parse: Bytes -> Option<V>, t: Text, b: int)
    ensures Fold(parse, t, [b]) == Push(parse, t, b)
  {
    var step := Push(parse, t, b);
    assert [b][1..] == [];
    if step.Reply? { assert step.events + [] == step.events; }
  }

  lemma {:induction false} FoldKeepsLines<V>(parse: Bytes -> Option<V>, t: Text, s: Bytes)
    requires NoLf(t.line) && Fold(parse, t, s).Reply?
    ensures NoLf(Fold(parse, t, s).state.line)
    decreases |s|
  {
    if s != [] { FoldKeepsLines(parse, Push(parse, t, s[0]).state, s[1..]); }
  }

  // ---- chunk invariance ----

  /** What a round must give from a state on: one decode of everything still undecoded. */
  function Remaining<V>(parse: Bytes -> Option<V>, t: Text, s: Bytes, events: seq<V>): Option<seq<V>> {
    var all := Fold(parse, t, s);
    if all.Bad? then None else Ending(parse, all.state, events + all.events)
  }

  /** Once `[DONE]` has been seen, not reading on is the same as reading on. */
  lemma StopEarly<V>(parse: Bytes -> Option<V>, t: Text, a: Bytes, b: Bytes, events: seq<V>)
    requires !t.done && NoLf(t.line) && TerminalLast(parse, t, a + b)
    requires Fold(parse, t, a).Reply? && Fold(parse, t, a).state.done
    ensures var r := Fold(parse, t, a); Ending(parse, r.state, events) == Remaining(parse, r.state, b, events)
  {
    var r := Fold(parse, t, a).state;
    DoneIsQuiet(parse, t, a, b);
    QuietFlush(parse, r, events);
    QuietFold(parse, r, b);
    QuietFlush(parse, Fold(parse, r, b).state, events + []);
    assert events + [] == events;
  }

  lemma RemainingSplit<V>(parse: Bytes -> Option<V>, t: Text, a: Bytes, b: Bytes, events: seq<V>)
    ensures var r := Fold(parse, t, a);
      Remaining(parse, t, a + b, events) == if r.Bad? then None else Remaining(parse, r.state, b, events + r.events)
  {
    FoldConcat(parse, t, a, b);
    var r := Fold(parse, t, a);
    if r.Reply? {
      var tail := Fold(parse, r.state, b);
      if tail.Reply? { Strings.Associative(events, r.events, tail.events); }
    }
  }

  // ---- what a chunking decodes ----

  /** What the chunks decode to behind an undecoded `raw`, one decoding step a chunk. */
  function Scanned(raw: Bytes, chunks: seq<Bytes>): Bytes
    decreases |chunks|
  {
    if chunks == [] then [] else Ahead(raw + chunks[0]) + Scanned(Behind(raw + chunks[0]), chunks[1..])
  }

  /** What is still undecoded when the chunks have run out. */
  function Left(raw: Bytes, chunks: seq<Bytes>): Bytes
    decreases |chunks|
  {
    if chunks == [] then raw else Left(Behind(raw + chunks[0]), chunks[1..])
  }

  lemma ScannedStep(raw: Bytes, chunks: seq<Bytes>) returns (front: Bytes, back: Bytes)
    requires chunks != []
    ensures Scanned(raw, chunks) == front + Scanned(back, chunks[1..]) && Left(raw, chunks) == Left(back, chunks[1..])
    ensures Lossy(raw + Concat(chunks)) == front + Lossy(back + Concat(chunks[1..]))
    ensures IsSuffix(raw + chunks[0], back)
  {
    front, back := Ahead(raw + chunks[0]), Behind(raw + chunks[0]);
    Strings.Associative(raw, chunks[0], Concat(chunks[1..]));
    LossySplits(raw + chunks[0], Concat(chunks[1..]));
  }

  ghost predicate IsSuffix(s: Bytes, t: Bytes) {
    |t| <= |s| && s[|s| - |t|..] == t
  }

  lemma SuffixOfMore(s: Bytes, mid: Bytes, more: Bytes, t: Bytes)
    requires IsSuffix(s, mid) && IsSuffix(mid + more, t)
    ensures IsSuffix(s + more, t)
  {
    var k := |s| - |mid|;
    assert (s + more)[k..] == mid + more;
    assert (s + more)[|s + more| - |t|..] == (s + more)[k..][|mid + more| - |t|..];
  }

  /** Of any bytes, however cut: what is decoded are the complete characters in order, up to those
      of the undecoded end. So besides broken sequences exactly that end is lost. */
  lemma {:induction false} LostIsLeft(raw: Bytes, chunks: seq<Bytes>)
    ensures Lossy(raw + Concat(chunks)) == Scanned(raw, chunks) + Lossy(Left(raw, chunks))
    decreases |chunks|
  {
    if chunks == [] {
      assert raw + [] == raw && [] + Lossy(raw) == Lossy(raw);
    } else {
      var front, back := ScannedStep(raw, chunks);
      LostIsLeft(back, chunks[1..]);
      Strings.Associative(front, Scanned(back, chunks[1..]), Lossy(Left(raw, chunks)));
    }
  }

  /** The undecoded end is the end of what came. */
  lemma {:induction false} LeftIsTheEnd(raw: Bytes, chunks: seq<Bytes>)
    ensures IsSuffix(raw + Concat(chunks), Left(raw, chunks))
    decreases |chunks|
  {
    if chunks == [] {
      assert raw + [] == raw;
    } else {
      var front, back := ScannedStep(raw, chunks);
      Strings.Associative(raw, chunks[0], Concat(chunks[1..]));
      LeftIsTheEnd(back, chunks[1..]);
      SuffixOfMore(raw + chunks[0], back, Concat(chunks[1..]), Left(raw, chunks));
    }
  }

  /** The valid beginning is decoded by every chunking. */
  lemma {:induction false} BeginningDecoded(raw: Bytes, chunks: seq<Bytes>)
    requires Ahead(raw) == []
    ensures |Scanned(raw, chunks)| >= |Ahead(raw + Concat(chunks))|
    decreases |chunks|
  {
    if chunks == [] {
      assert raw + [] == raw;
    } else {
      var fed, rest := raw + chunks[0], Concat(chunks[1..]);
      Strings.Associative(raw, chunks[0], rest);
      AheadSplits(fed, rest);
      if Skip(fed) == 0 {
        NothingBehind(fed);
        BeginningDecoded(Behind(fed), chunks[1..]);
      }
    }
  }

  function Empties(n: nat): (chunks: seq<Bytes>)
    ensures |chunks| == n
  {
    if n == 0 then [] else [[]] + Empties(n - 1)
  }

  /** Empty chunks decode what is left, one broken sequence each. */
  lemma {:induction false} EmptiesDrain(raw: Bytes, n: nat)
    requires n >= |raw|
    ensures Concat(Empties(n)) == [] && Lossy(Left(raw, Empties(n))) == []
    decreases n
  {
    if n > 0 {
      EmptyStep(raw, n);
      EmptiesDrain([], n - 1);
      if |Behind(raw)| < n {
        EmptiesDrain(Behind(raw), n - 1);
      } else {
        NothingBehind(raw);
        StaysEmpty(Behind(raw), Empties(n - 1));
      }
    }
  }

  lemma EmptyStep(raw: Bytes, n: nat)
    requires n > 0
    ensures Concat(Empties(n)) == Concat(Empties(n - 1)) && Left(raw, Empties(n)) == Left(Behind(raw), Empties(n - 1))
  {
    assert Empties(n)[1..] == Empties(n - 1) && raw + [] == raw;
    assert [] + Concat(Empties(n - 1)) == Concat(Empties(n - 1));
  }

  lemma StaysEmpty(raw: Bytes, chunks: seq<Bytes>)
    requires Lossy(raw) == [] && Concat(chunks) == []
    ensures Lossy(Left(raw, chunks)) == []
  {
    LostIsLeft(raw, chunks);
    assert raw + [] == raw;
  }

  lemma LongPrefix(a: Bytes, b: Bytes, c: Bytes)
    requires a + b == c && |a| >= |c|
    ensures a == c
  {
    assert (a + b)[..|a|] == a;
  }

  lemma AllDecoded(body: Bytes, chunks: seq<Bytes>)
    requires Lossy(Behind(body)) == [] && Concat(chunks) == body
    ensures Scanned([], chunks) == Ahead(body)
  {
    assert [] + body == body;
    LossyParts(body);
    LostIsLeft([], chunks);
    BeginningDecoded([], chunks);
    assert Ahead(body) + [] == Ahead(body);
    LongPrefix(Scanned([], chunks), Lossy(Left([], chunks)), Ahead(body));
  }

  lemma LossyParts(body: Bytes)
    ensures Lossy(body) == Ahead(body) + Lossy(Behind(body))
  {
    LossySplits(body, []);
    assert body + [] == body && Behind(body) + [] == Behind(body);
  }

  /** Some chunking loses nothing but the broken sequences. */
  lemma {:induction false} Patient(body: Bytes) returns (chunks: seq<Bytes>)
    ensures Concat(chunks) == body && Scanned([], chunks) == Lossy(body)
  {
    chunks := [body] + Empties(|body|);
    assert chunks[1..] == Empties(|body|) && [] + body == body && body + [] == body;
    EmptiesDrain(Behind(body), |body|);
    LostIsLeft([], chunks);
    assert Scanned([], chunks) + [] == Scanned([], chunks);
  }

  /** Cutting never matters to what is decoded if and only if no complete character stands behind the
      first broken sequence; and then it is what stands before that. */
  lemma {:induction false} CutsNeverMatterIff(body: Bytes)
    ensures Lossy(Behind(body)) == [] <==>
      forall chunks :: Concat(chunks) == body ==> Scanned([], chunks) == Ahead(body)
  {
    if Lossy(Behind(body)) == [] {
      forall chunks | Concat(chunks) == body ensures Scanned([], chunks) == Ahead(body) { AllDecoded(body, chunks); }
    } else {
      LossyParts(body);
      var chunks := Patient(body);
      assert |Scanned([], chunks)| > |Ahead(body)|;
    }
  }

  /** In one chunk, everything behind the first broken sequence is lost. */
  lemma OneChunkStops(body: Bytes)
    ensures Scanned([], [body]) == Ahead(body) && Left([], [body]) == Behind(body)
  {
    assert [] + body == body && [body][1..] == [];
    assert Ahead(body) + [] == Ahead(body);
  }

  /** A stray byte in front of an event hides it in one chunk, but not when it comes in its own. */
  lemma {:induction false} StrayByteHides(event: Bytes)
    requires Valid(event)
    ensures Scanned([], [[0xFF] + event]) == [] && Scanned([], [[0xFF], event]) == event
  {
    OneChunkStops([0xFF] + event);
    StrayByte(event);
    StrayByte([]);
    ValidIffWhole(event);
    OneChunkStops(event);
    assert [0xFF] + [] == [0xFF] && [] + [0xFF] == [0xFF] && [[0xFF], event][1..] == [event];
    assert [] + Scanned([], [event]) == Scanned([], [event]);
  }

  lemma StrayByte(event: Bytes)
    ensures Ahead([0xFF] + event) == [] && Behind([0xFF] + event) == event
  {
    assert First([0xFF] + event) == Broken(1);
  }

  // ---- chunk invariance ----

  /** What one chunk does: the text it decodes to is folded, and the rest waits. */
  lemma FeedStep<V>(parse: Bytes -> Option<V>, acc: Acc, chunks: seq<Bytes>) returns (front: Bytes, back: Bytes)
    requires chunks != []
    ensures Scanned(acc.raw, chunks) == front + Scanned(back, chunks[1..])
    ensures var r := Fold(parse, acc.text, front);
      Feed(parse, acc, chunks[0]) == if r.Bad? then Bad else Reply(Acc(back, r.state), r.events)
  {
    front, back := Ahead(acc.raw + chunks[0]), Behind(acc.raw + chunks[0]);
  }

  lemma {:induction false} RoundFrom<V>(parse: Bytes -> Option<V>, acc: Acc, chunks: seq<Bytes>, events: seq<V>)
    requires !acc.text.done && NoLf(acc.text.line)
    requires TerminalLast(parse, acc.text, Scanned(acc.raw, chunks))
    ensures Round(parse, acc, chunks, events) == Remaining(parse, acc.text, Scanned(acc.raw, chunks), events)
    decreases |chunks|
  {
    if chunks == [] {
      assert events + [] == events;
    } else {
      var front, back := FeedStep(parse, acc, chunks);
      var rest := Scanned(back, chunks[1..]);
      RemainingSplit(parse, acc.text, front, rest, events);
      var fed := Fold(parse, acc.text, front);
      if fed.Reply? {
        FoldKeepsLines(parse, acc.text, front);
        if fed.state.done {
          StopEarly(parse, acc.text, front, rest, events + fed.events);
        } else {
          TerminalLastRest(parse, acc.text, front, rest);
          RoundFrom(parse, Acc(back, fed.state), chunks[1..], events + fed.events);
        }
      }
    }
  }

  /** Whatever the bytes and however they are cut, a round yields the events of one decode of the text
      its chunks decode to, where that has its terminal event last. */
  lemma {:induction false} RoundIsOfScanned<V>(parse: Bytes -> Option<V>, chunks: seq<Bytes>)
    requires TerminalLast(parse, START, Scanned([], chunks))
    ensures Round(parse, Acc([], START), chunks, []) == Whole(parse, Scanned([], chunks))
  {
    RoundFrom(parse, Acc([], START), chunks, []);
    var all := Fold(parse, START, Scanned([], chunks));
    if all.Reply? { assert [] + all.events == all.events; }
  }

  lemma ScannedValid(body: Bytes, chunks: seq<Bytes>)
    requires Valid(body) && Concat(chunks) == body
    ensures Scanned([], chunks) == body
  {
    ValidIffWhole(body);
    assert Behind(body) == [] && Ahead(body) == body;
    AllDecoded(body, chunks);
  }

  /** However a valid UTF-8 body with its terminal event last is cut into chunks, inside
      codepoints, CRLF pairs or multi-line payloads, the round yields the events of one
      whole-body decode, or fails exactly when that decode fails. */
  lemma {:induction false} ChunkInvariance<V>(parse: Bytes -> Option<V>, body: Bytes, chunks: seq<Bytes>)
    requires Valid(body) && Concat(chunks) == body
    requires TerminalLast(parse, START, body)
    ensures Round(parse, Acc([], START), chunks, []) == Whole(parse, body)
  {
    ScannedValid(body, chunks);
    RoundIsOfScanned(parse, chunks);
  }

  // ---- the wire shape ----

  datatype Mode = EventStream | CompletionJson

  predicate AsciiSpace(b: int) {
    b in {9, 10, 12, 13, 32}
  }

  /** `detect_stream_mode`, applied to the first chunk only. */
  function DetectMode(chunk: Bytes): Mode {
    if chunk == [] then EventStream
    else if AsciiSpace(chunk[0]) then DetectMode(chunk[1..])
    else if chunk[0] in {91, 123} then CompletionJson
    else EventStream
  }

  /** The text, behind ASCII white space, starts a JSON object or array. */
  ghost predicate StartsJson(s: Bytes) {
    exists i :: 0 <= i < |s| && s[i] in {91, 123} && forall j :: 0 <= j < i ==> AsciiSpace(s[j])
  }

  lemma {:induction false} DetectModeIff(s: Bytes)
    ensures DetectMode(s) == CompletionJson <==> StartsJson(s)
  {
    if s != [] && AsciiSpace(s[0]) {
      var rest := s[1..];
      DetectModeIff(rest);
      if i :| 0 <= i < |rest| && rest[i] in {91, 123} && forall j :: 0 <= j < i ==> AsciiSpace(rest[j]) {
        forall j | 0 <= j < i + 1 ensures AsciiSpace(s[j]) { if j > 0 { assert s[j] == rest[j - 1]; } }
        assert s[i + 1] in {91, 123};
      }
      if i :| 0 <= i < |s| && s[i] in {91, 123} && forall j :: 0 <= j < i ==> AsciiSpace(s[j]) {
        assert i > 0 && rest[i - 1] in {91, 123};
        assert forall j :: 0 <= j < i - 1 ==> rest[j] == s[j + 1];
      }
    } else if s != [] {
      if i :| 0 <= i < |s| && s[i] in {91, 123} && forall j :: 0 <= j < i ==> AsciiSpace(s[j]) { assert i == 0; }
    }
  }

  predicate AllSpace(chunk: Bytes) {
    forall b :: b in chunk ==> AsciiSpace(b)
  }

  /** The mode is that of the whole body exactly when the body is an event stream anyway or the
      first chunk reaches past the leading white space. */
  lemma {:induction false} ModeOfFirstChunk(first: Bytes, rest: Bytes)
    ensures DetectMode(first) == DetectMode(first + rest) <==> DetectMode(first + rest).EventStream? || !AllSpace(first)
  {
    if first == [] {
      assert first + rest == rest;
    } else {
      assert (first + rest)[1..] == first[1..] + rest;
      if AsciiSpace(first[0]) {
        ModeOfFirstChunk(first[1..], rest);
        assert AllSpace(first) <==> AllSpace(first[1..]) by {
          assert first == [first[0]] + first[1..];
        }
      } else {
        assert first[0] in first;
      }
    }
  }

  // ---- what an event stream carries ----

  /** A line as a server writes it: a payload line, with or without a space, or anything else, such as
      an `event:` field or a comment. */
  datatype Field = Data(text: Bytes, spaced: bool) | Other(text: Bytes)

  /** Either line end may be used, on every line anew. */
  datatype Line = Line(field: Field, crlf: bool)

  /** Some lines, and the blank line that closes the event. */
  datatype Event = Event(lines: seq<Line>, crlf: bool)

  predicate Writable(text: Bytes) {
    NoLf(text) && (text != [] ==> text[|text| - 1] != CR)
  }

  predicate Sendable(f: Field) {
    match f
    case Data(text, spaced) => Writable(text) && (spaced || text == [] || text[0] != 32)
    case Other(text) => Writable(text) && text != [] && !StartsWith(text, DATA)
  }

  function Shown(f: Field): Bytes {
    match f
    case Data(text, spaced) => DATA + ((if spaced then [32] else []) + text)
    case Other(text) => text
  }

  function Eol(crlf: bool): Bytes {
    if crlf then [CR, LF] else [LF]
  }

  function Encode(lines: seq<Line>): Bytes {
    if lines == [] then [] else Shown(lines[0].field) + (Eol(lines[0].crlf) + Encode(lines[1..]))
  }

  function EncodeAll(events: seq<Event>): Bytes {
    if events == [] then [] else Encode(events[0].lines) + (Eol(events[0].crlf) + EncodeAll(events[1..]))
  }

  /** How a stream breaks off: after the last line's end, before it, or inside it. */
  datatype Break = AfterLine | BeforeEnd | InsideEnd

  /** An event that was never closed. */
  function EncodeOpen(lines: seq<Line>, break_: Break): Bytes {
    if lines == [] then []
    else if |lines| == 1 then
      Shown(lines[0].field) +
        match break_ case AfterLine => Eol(lines[0].crlf) case BeforeEnd => [] case InsideEnd => [CR]
    else Shown(lines[0].field) + (Eol(lines[0].crlf) + EncodeOpen(lines[1..], break_))
  }

  /** The payload lines of an event. */
  function Payloads(lines: seq<Line>): seq<Bytes> {
    if lines == [] then []
    else (if lines[0].field.Data? then [lines[0].field.text] else []) + Payloads(lines[1..])
  }

  /** The value of a payload, of several lines joined; none without a payload and none for `[DONE]`. */
  function Valued<V>(parse: Bytes -> Option<V>, lines: seq<Bytes>): Option<seq<V>> {
    if lines == [] || IsDone(Join(lines)) then Some([])
    else
      var value := parse(Join(lines));
      if value.None? then None else Some([value.value])
  }

  /** What the events carry, or nothing at all if some payload has no value. */
  function Carried<V>(parse: Bytes -> Option<V>, events: seq<seq<Line>>): Option<seq<V>> {
    if events == [] then Some([])
    else
      var first, rest := Valued(parse, Payloads(events[0])), Carried(parse, events[1..]);
      if first.None? || rest.None? then None else Some(first.value + rest.value)
  }

  function LinesOf(events: seq<Event>): (lines: seq<seq<Line>>)
    ensures |lines| == |events| && forall i :: 0 <= i < |events| ==> lines[i] == events[i].lines
  {
    seq(|events|, i requires 0 <= i < |events| => events[i].lines)
  }

  predicate AllSendable(lines: seq<Line>) {
    forall i :: 0 <= i < |lines| ==> Sendable(lines[i].field)
  }

  function Cut(s: Bytes): (lines: seq<Bytes>) {
    var i := FindLf(s);
    if i == |s| then [s] else [s[..i]] + Cut(s[i + 1..])
  }

  lemma CutOnce(line: Bytes, behind: Bytes)
    requires NoLf(line)
    ensures Cut(line) == [line] && Cut(line + ([LF] + behind)) == [line] + Cut(behind)
  {
    var s := line + ([LF] + behind);
    FindLfAt(line, []);
    assert line + [] == line;
    FindLfAt(line, [LF] + behind);
    assert FindLf([LF] + behind) == 0;
    assert s[..|line|] == line && s[|line| + 1..] == behind;
  }

  /** The lines of a payload are joined by newlines: cut there, it gives them back. */
  lemma {:induction false} JoinedLines(lines: seq<Bytes>)
    requires lines != [] && forall i :: 0 <= i < |lines| ==> NoLf(lines[i])
    ensures Cut(Join(lines)) == lines
  {
    var behind := lines[1..];
    CutOnce(lines[0], Join(behind));
    assert lines == [lines[0]] + behind;
    if behind != [] {
      Strings.Associative(lines[0], [LF], Join(behind));
      JoinedLines(behind);
    }
  }

  // ---- and what is decoded from it ----

  function With(t: Text, f: Field): Text {
    if f.Data? then t.(data := t.data + [f.text]) else t
  }

  lemma ShownHandled<V>(parse: Bytes -> Option<V>, t: Text, f: Field)
    requires Sendable(f)
    ensures NoLf(Shown(f)) && TrimCr(Shown(f)) == Shown(f) && Shown(f) != []
    ensures HandleLine(parse, t, Shown(f)) == Reply(With(t, f), [])
  {
    var s := Shown(f);
    assert s[|s| - 1] != CR;
    if f.Data? {
      var rest := (if f.spaced then [32] else []) + f.text;
      assert s == DATA + rest && s[..|DATA|] == DATA && s[|DATA|..] == rest;
      assert f.spaced ==> rest[1..] == f.text;
      assert !f.spaced ==> rest == f.text;
    }
  }

  lemma TrimmedReturn(s: Bytes)
    requires TrimCr(s) == s
    ensures TrimCr(s + [CR]) == s
  {
    assert (s + [CR])[..|s|] == s;
  }

  lemma EndEventIs<V>(parse: Bytes -> Option<V>, t: Text)
    ensures var closed := EndEvent(parse, t); var v := Valued(parse, t.data);
      if v.None? then closed.Bad?
      else closed.Reply? && closed.events == v.value && closed.state.data == [] && closed.state.line == t.line
  {}

  lemma LineCut(shown: Bytes, crlf: bool, rest: Bytes)
    ensures var s, i := shown + (Eol(crlf) + rest), |shown| + |Eol(crlf)| - 1;
      s[i] == LF && s[i + 1..] == rest && s[..i] == if crlf then shown + [CR] else shown
  {}

  lemma LineDecodes<V>(parse: Bytes -> Option<V>, t: Text, l: Line, rest: Bytes)
    requires t.line == [] && Sendable(l.field)
    ensures Fold(parse, t, Shown(l.field) + (Eol(l.crlf) + rest)) == Fold(parse, With(t, l.field), rest)
  {
    var shown := Shown(l.field);
    ShownHandled(parse, t, l.field);
    LineCut(shown, l.crlf, rest);
    TrimmedReturn(shown);
    FoldLine(parse, t, shown + (Eol(l.crlf) + rest), |shown| + |Eol(l.crlf)| - 1);
    ThenNothing(Fold(parse, With(t, l.field), rest));
  }

  lemma MorePayloads(t: Text, lines: seq<Line>)
    requires lines != []
    ensures With(t, lines[0].field).data + Payloads(lines[1..]) == t.data + Payloads(lines)
  {
    var own := if lines[0].field.Data? then [lines[0].field.text] else [];
    assert With(t, lines[0].field).data == t.data + own;
    Strings.Associative(t.data, own, Payloads(lines[1..]));
  }

  lemma {:induction false} LinesDecode<V>(parse: Bytes -> Option<V>, t: Text, lines: seq<Line>, rest: Bytes)
    requires t.line == [] && AllSendable(lines)
    ensures Fold(parse, t, Encode(lines) + rest) == Fold(parse, t.(data := t.data + Payloads(lines)), rest)
    decreases |lines|
  {
    if lines == [] {
      assert t.data + [] == t.data && [] + rest == rest;
    } else {
      Strings.Associative(Shown(lines[0].field), Eol(lines[0].crlf) + Encode(lines[1..]), rest);
      Strings.Associative(Eol(lines[0].crlf), Encode(lines[1..]), rest);
      LineDecodes(parse, t, lines[0], Encode(lines[1..]) + rest);
      LinesDecode(parse, With(t, lines[0].field), lines[1..], rest);
      MorePayloads(t, lines);
    }
  }

  lemma BlankLineEnds<V>(parse: Bytes -> Option<V>, t: Text, crlf: bool, rest: Bytes)
    requires t.line == []
    ensures var closed := EndEvent(parse, t);
      Fold(parse, t, Eol(crlf) + rest) ==
        if closed.Bad? then Bad else Then(closed.events, Fold(parse, closed.state, rest))
  {
    var s := [] + (Eol(crlf) + rest);
    assert s == Eol(crlf) + rest;
    LineCut([], crlf, rest);
    TrimmedReturn([]);
    assert [] + [CR] == [CR];
    FoldLine(parse, t, s, |Eol(crlf)| - 1);
  }

  lemma {:induction false} EventDecodes<V>(parse: Bytes -> Option<V>, t: Text, e: Event, rest: Bytes)
    requires t.line == [] && t.data == [] && AllSendable(e.lines)
    ensures var closed := EndEvent(parse, t.(data := Payloads(e.lines)));
      Fold(parse, t, Encode(e.lines) + (Eol(e.crlf) + rest)) ==
        if closed.Bad? then Bad else Then(closed.events, Fold(parse, closed.state, rest))
  {
    LinesDecode(parse, t, e.lines, Eol(e.crlf) + rest);
    assert [] + Payloads(e.lines) == Payloads(e.lines);
    BlankLineEnds(parse, t.(data := Payloads(e.lines)), e.crlf, rest);
  }

  /** The end of the stream closes the event that is pending. */
  lemma {:induction false} OpenDecodes<V>(parse: Bytes -> Option<V>, t: Text, lines: seq<Line>, break_: Break)
    requires t.line == [] && AllSendable(lines)
    ensures var closed := EndEvent(parse, t.(data := t.data + Payloads(lines)));
      Remaining(parse, t, EncodeOpen(lines, break_), []) == if closed.Bad? then None else Some(closed.events)
    decreases |lines|
  {
    if lines == [] {
      assert t.data + [] == t.data;
      EndedAt(parse, t);
    } else if |lines| == 1 {
      assert lines[1..] == [];
      LastLine(parse, t, lines[0], break_);
      MorePayloads(t, lines);
      assert With(t, lines[0].field).data + [] == With(t, lines[0].field).data;
    } else {
      LineDecodes(parse, t, lines[0], EncodeOpen(lines[1..], break_));
      OpenDecodes(parse, With(t, lines[0].field), lines[1..], break_);
      MorePayloads(t, lines);
    }
  }

  lemma EndedAt<V>(parse: Bytes -> Option<V>, t: Text)
    requires t.line == []
    ensures var closed := EndEvent(parse, t);
      Remaining(parse, t, [], []) == if closed.Bad? then None else Some(closed.events)
  {
    var closed := EndEvent(parse, t);
    var none: seq<V> := [];
    if closed.Reply? { assert none + none + (none + closed.events) == closed.events; }
  }

  lemma {:induction false} LastLine<V>(parse: Bytes -> Option<V>, t: Text, l: Line, break_: Break)
    requires t.line == [] && Sendable(l.field)
    ensures var closed := EndEvent(parse, With(t, l.field));
      Remaining(parse, t, EncodeOpen([l], break_), []) == if closed.Bad? then None else Some(closed.events)
  {
    var shown := Shown(l.field);
    ShownHandled(parse, t, l.field);
    if break_.AfterLine? {
      LineDecodes(parse, t, l, []);
      assert Eol(l.crlf) + [] == Eol(l.crlf);
      EndedAt(parse, With(t, l.field));
    } else {
      var left := EncodeOpen([l], break_);
      TrimmedReturn(shown);
      assert shown + [] == shown;
      FoldNoLf(parse, t, left);
      assert [] + left == left;
      var closed := EndEvent(parse, With(t, l.field));
      if closed.Reply? { assert [] + [] + ([] + closed.events) == closed.events; }
    }
  }

  lemma {:induction false} StreamDecodes<V>(
    parse: Bytes -> Option<V>, t: Text, events: seq<Event>, open: seq<Line>, break_: Break)
    requires t.line == [] && t.data == []
    requires (forall i :: 0 <= i < |events| ==> AllSendable(events[i].lines)) && AllSendable(open)
    ensures Remaining(parse, t, EncodeAll(events) + EncodeOpen(open, break_), []) ==
      Carried(parse, LinesOf(events) + [open])
    decreases |events|
  {
    var tail := EncodeOpen(open, break_);
    if events == [] {
      assert [] + tail == tail && LinesOf(events) + [open] == [open];
      OpenDecodes(parse, t, open, break_);
      assert [] + Payloads(open) == Payloads(open);
      EndEventIs(parse, t.(data := Payloads(open)));
      OpenCarries(parse, open);
    } else {
      var e, later := events[0], EncodeAll(events[1..]) + tail;
      EncodeAllCut(events, tail);
      EventDecodes(parse, t, e, later);
      assert (LinesOf(events) + [open])[1..] == LinesOf(events[1..]) + [open];
      var closed := EndEvent(parse, t.(data := Payloads(e.lines)));
      EndEventIs(parse, t.(data := Payloads(e.lines)));
      if closed.Reply? {
        StreamDecodes(parse, closed.state, events[1..], open, break_);
        RemainingBehind(parse, closed.events, closed.state, later);
      }
    }
  }

  lemma EncodeAllCut(events: seq<Event>, tail: Bytes)
    requires events != []
    ensures EncodeAll(events) + tail ==
      Encode(events[0].lines) + (Eol(events[0].crlf) + (EncodeAll(events[1..]) + tail))
  {
    Strings.Associative(Encode(events[0].lines), Eol(events[0].crlf) + EncodeAll(events[1..]), tail);
    Strings.Associative(Eol(events[0].crlf), EncodeAll(events[1..]), tail);
  }

  lemma OpenCarries<V>(parse: Bytes -> Option<V>, open: seq<Line>)
    ensures Carried(parse, [open]) == Valued(parse, Payloads(open))
  {
    assert [open][1..] == [];
    var v := Valued(parse, Payloads(open));
    if v.Some? { assert v.value + [] == v.value; }
  }

  /** Events in front of the rest stay in front. */
  lemma RemainingBehind<V>(parse: Bytes -> Option<V>, first: seq<V>, t: Text, s: Bytes)
    ensures var rest := Remaining(parse, t, s, []); var all := Then(first, Fold(parse, t, s));
      (if all.Bad? then None else Ending(parse, all.state, [] + all.events)) ==
      if rest.None? then None else Some(first + rest.value)
  {
    var r := Fold(parse, t, s);
    if r.Reply? {
      assert [] + (first + r.events) == first + r.events && [] + r.events == r.events;
      var flushed := Flush(parse, r.state);
      if flushed.Reply? { Strings.Associative(first, r.events, flushed.events); }
    }
  }

  /** Whatever lines a server sends, with either line end, fields that are no payload in between and an
      event that was never closed at the end, the decoder yields what the events carry. */
  lemma {:induction false} EncodedEventsDecode<V>(
    parse: Bytes -> Option<V>, events: seq<Event>, open: seq<Line>, break_: Break)
    requires (forall i :: 0 <= i < |events| ==> AllSendable(events[i].lines)) && AllSendable(open)
    ensures Whole(parse, EncodeAll(events) + EncodeOpen(open, break_)) == Carried(parse, LinesOf(events) + [open])
  {
    StreamDecodes(parse, START, events, open, break_);
    var all := Fold(parse, START, EncodeAll(events) + EncodeOpen(open, break_));
    if all.Reply? { assert [] + all.events == all.events; }
  }

  // ---- the terminal payload ----

  lemma SpaceSame(p: Bytes, s: Bytes)
    requires SpaceAhead(p) > 0 && |s| >= SpaceAhead(p) && s[..SpaceAhead(p)] == p[..SpaceAhead(p)]
    ensures SpaceAhead(s) == SpaceAhead(p)
  {
    var n := SpaceAhead(p);
    assert forall i :: 0 <= i < n ==> s[i] == s[..n][i] && p[i] == p[..n][i];
    if n == 3 { assert s[..3] == p[..3]; }
  }

  lemma BlankMore(p: Bytes, a: Bytes)
    requires SpaceAhead(p) > 0 && Blank(a)
    ensures Blank(p[..SpaceAhead(p)] + a)
  {
    var n := SpaceAhead(p);
    var s := p[..n] + a;
    assert s[..n] == p[..n] && s[n..] == a;
    SpaceSame(p, s);
  }

  lemma {:induction false} DoneParts(p: Bytes) returns (a: Bytes, b: Bytes)
    requires IsDone(p)
    ensures p == a + (DONE + b) && Blank(a) && Blank(b)
    decreases |p|
  {
    var n := SpaceAhead(p);
    if n > 0 {
      a, b := DoneParts(p[n..]);
      BlankMore(p, a);
      Strings.Associative(p[..n], a, DONE + b);
      assert p == p[..n] + p[n..];
      a := p[..n] + a;
    } else {
      a, b := [], p[|DONE|..];
      assert p == a + (DONE + b);
    }
  }

  lemma {:induction false} PartsDone(a: Bytes, b: Bytes)
    requires Blank(a) && Blank(b)
    ensures IsDone(a + (DONE + b))
    decreases |a|
  {
    var p := a + (DONE + b);
    if a == [] {
      DoneStarts(b);
      assert p == DONE + b;
    } else {
      var n := SpaceAhead(a);
      assert p[..n] == a[..n] && p[n..] == a[n..] + (DONE + b);
      SpaceSame(a, p);
      PartsDone(a[n..], b);
    }
  }

  lemma DoneStarts(b: Bytes)
    requires Blank(b)
    ensures IsDone(DONE + b)
  {
    var p := DONE + b;
    assert p[0] == 91 && p[..|DONE|] == DONE && p[|DONE|..] == b;
  }

  ghost predicate DoneBetween(p: Bytes, a: Bytes, b: Bytes) {
    p == a + (DONE + b) && Blank(a) && Blank(b)
  }

  /** The terminal payload is `[DONE]` between white space. */
  lemma IsDoneIff(p: Bytes)
    ensures IsDone(p) <==> exists a, b :: DoneBetween(p, a, b)
  {
    if IsDone(p) {
      var a, b := DoneParts(p);
      assert DoneBetween(p, a, b);
    }
    if a, b :| DoneBetween(p, a, b) { PartsDone(a, b); }
  }
}
