/** However a Messages body is cut into chunks, the round has one outcome. */
module AnthropicRoundLaws {
  import opened Options
  import Strings
  import opened Utf8
  import opened Sse
  import opened SseLaws
  import opened AnthropicStream
  import AnthropicStreamLaws
  import opened ChatSummary
  import ToolLoop
  import RoundInput
  import opened AnthropicRequest
  import opened AnthropicRound

  type Reader<!V> = V -> AnthropicStream.Event

  // ---- handing events on ----

  lemma {:induction false} RunConcat(
    core: Core, log: seq<Canonical>, a: seq<AnthropicStream.Event>, b: seq<AnthropicStream.Event>)
    ensures var r := AnthropicStreamLaws.Run(core, log, a);
      AnthropicStreamLaws.Run(core, log, a + b) == if r.Aborted? then r else AnthropicStreamLaws.Run(r.core, r.log, b)
    decreases |a|
  {
    if a == [] {
      assert a + b == b;
    } else {
      assert (a + b)[0] == a[0] && (a + b)[1..] == a[1..] + b;
      var step := Consumed(core, a[0]);
      if step.Step? { RunConcat(step.core, log + step.emitted, a[1..], b); }
    }
  }

  lemma HandedConcat<V>(read: Reader<V>, core: Core, log: seq<Canonical>, a: seq<V>, b: seq<V>)
    ensures var r := Handed(read, core, log, a);
      Handed(read, core, log, a + b) == if r.Aborted? then r else Handed(read, r.core, r.log, b)
  {
    assert Read(read, a + b) == Read(read, a) + Read(read, b);
    RunConcat(core, log, Read(read, a), Read(read, b));
  }

  lemma HandedNone<V>(read: Reader<V>, core: Core, log: seq<Canonical>)
    ensures Handed(read, core, log, []) == AnthropicStreamLaws.Ran(core, log)
  {}

  predicate ClosedBy<V>(read: Reader<V>, core: Core, log: seq<Canonical>, values: seq<V>) {
    var r := Handed(read, core, log, values);
    r.Ran? && r.core.closed
  }

  // ---- the terminal event is last ----

  /** Wherever the decoder has been closed, no `data:` line follows. */
  ghost predicate StopLast<V>(
    parse: Bytes -> Option<V>, read: Reader<V>, t: Text, core: Core, log: seq<Canonical>, s: Bytes) {
    forall i: nat | i <= |s| ::
      var r := Fold(parse, t, s[..i]);
      r.Reply? && ClosedBy(read, core, log, r.events) ==> NoData(r.state.line + s[i..])
  }

  lemma StopLastAt<V>(
    parse: Bytes -> Option<V>, read: Reader<V>, t: Text, core: Core, log: seq<Canonical>, a: Bytes, b: Bytes)
    requires StopLast(parse, read, t, core, log, a + b)
    ensures var r := Fold(parse, t, a);
      r.Reply? && ClosedBy(read, core, log, r.events) ==> NoData(r.state.line + b)
  {
    assert (a + b)[..|a|] == a && (a + b)[|a|..] == b;
  }

  lemma {:induction false} StopLastRest<V>(
    parse: Bytes -> Option<V>, read: Reader<V>, t: Text, core: Core, log: seq<Canonical>, a: Bytes, b: Bytes)
    requires StopLast(parse, read, t, core, log, a + b)
    requires Fold(parse, t, a).Reply? && Handed(read, core, log, Fold(parse, t, a).events).Ran?
    ensures var r := Fold(parse, t, a); var h := Handed(read, core, log, r.events);
      StopLast(parse, read, r.state, h.core, h.log, b)
  {
    var r := Fold(parse, t, a);
    var h := Handed(read, core, log, r.events);
    forall i: nat | i <= |b|
      ensures var q := Fold(parse, r.state, b[..i]);
        q.Reply? && ClosedBy(read, h.core, h.log, q.events) ==> NoData(q.state.line + b[i..])
    {
      assert a + b[..i] + b[i..] == a + b;
      StopLastAt(parse, read, t, core, log, a + b[..i], b[i..]);
      FoldConcat(parse, t, a, b[..i]);
      var q := Fold(parse, r.state, b[..i]);
      if q.Reply? { HandedConcat(read, core, log, r.events, q.events); }
    }
  }

  lemma PushCloses<V>(parse: Bytes -> Option<V>, read: Reader<V>, t: Text, core: Core, log: seq<Canonical>, b: int)
    requires !core.closed && Push(parse, t, b).Reply? && ClosedBy(read, core, log, Push(parse, t, b).events)
    ensures Push(parse, t, b).state.data == [] && Push(parse, t, b).state.line == []
  {
    HandedNone(read, core, log);
  }

  /** Right where the decoder is closed nothing is pending, and nothing becomes pending later. */
  lemma {:induction false} ClosingIsQuiet<V>(
    parse: Bytes -> Option<V>, read: Reader<V>, t: Text, core: Core, log: seq<Canonical>, a: Bytes, b: Bytes)
    requires !core.closed && NoLf(t.line) && StopLast(parse, read, t, core, log, a + b)
    requires Fold(parse, t, a).Reply? && ClosedBy(read, core, log, Fold(parse, t, a).events)
    ensures var r := Fold(parse, t, a).state; Quiet(r) && NoData(r.line + b)
    decreases |a|
  {
    StopLastAt(parse, read, t, core, log, a, b);
    HandedNone(read, core, log);
    var step := Push(parse, t, a[0]);
    var rest := a[1..];
    assert a == [a[0]] + rest && [a[0]] + rest + b == [a[0]] + (rest + b);
    FoldOne(parse, t, a[0]);
    var later := Fold(parse, step.state, rest);
    HandedConcat(read, core, log, step.events, later.events);
    var h := Handed(read, core, log, step.events);
    if h.core.closed {
      PushCloses(parse, read, t, core, log, a[0]);
      StopLastAt(parse, read, t, core, log, [a[0]], rest + b);
      assert step.state.line + (rest + b) == (step.state.line + rest) + b;
      NoDataPrefix(step.state.line + rest, b);
      QuietFold(parse, step.state, rest);
    } else {
      StopLastRest(parse, read, t, core, log, [a[0]], rest + b);
      ClosingIsQuiet(parse, read, step.state, h.core, h.log, rest, b);
    }
  }

  // ---- one decode of the rest ----

  /** What a round must come to from a state on. */
  function Rest<V>(
    parse: Bytes -> Option<V>, read: Reader<V>, t: Text, core: Core, log: seq<Canonical>,
    s: Bytes): AnthropicStreamLaws.Round {
    var all := Remaining(parse, t, s, []);
    if all.None? then AnthropicStreamLaws.Aborted else Handed(read, core, log, all.value)
  }

  function Ended<V>(parse: Bytes -> Option<V>, read: Reader<V>, s: Option<State>): AnthropicStreamLaws.Round {
    if s.None? then AnthropicStreamLaws.Aborted
    else
      var rest := Ending(parse, s.value.acc.text, []);
      if rest.None? then AnthropicStreamLaws.Aborted else Handed(read, s.value.core, s.value.log, rest.value)
  }

  lemma RemainingShift<V>(parse: Bytes -> Option<V>, t: Text, s: Bytes, events: seq<V>)
    ensures var rest := Remaining(parse, t, s, []);
      Remaining(parse, t, s, events) == if rest.None? then None else Some(events + rest.value)
  {
    var all := Fold(parse, t, s);
    if all.Reply? {
      var flushed := Flush(parse, all.state);
      if flushed.Reply? {
        assert [] + all.events == all.events;
        assert events + all.events + flushed.events == events + (all.events + flushed.events);
      }
    }
  }

  /** A decode splits where the text does. */
  lemma RestSplits<V>(
    parse: Bytes -> Option<V>, read: Reader<V>, t: Text, core: Core, log: seq<Canonical>, a: Bytes, b: Bytes)
    requires Fold(parse, t, a).Reply?
    ensures var r := Fold(parse, t, a); var h := Handed(read, core, log, r.events);
      Rest(parse, read, t, core, log, a + b) == if h.Aborted? then h else Rest(parse, read, r.state, h.core, h.log, b)
  {
    var r := Fold(parse, t, a);
    RemainingSplit(parse, t, a, b, []);
    assert [] + r.events == r.events;
    RemainingShift(parse, r.state, b, r.events);
    var rest := Remaining(parse, r.state, b, []);
    if rest.Some? { HandedConcat(read, core, log, r.events, rest.value); }
  }

  lemma QuietRest<V>(parse: Bytes -> Option<V>, read: Reader<V>, t: Text, core: Core, log: seq<Canonical>, s: Bytes)
    requires Quiet(t) && NoData(t.line + s)
    ensures Rest(parse, read, t, core, log, s) == AnthropicStreamLaws.Ran(core, log)
    ensures Ending(parse, t, []) == Some([])
  {
    QuietFlush(parse, t, []);
    QuietFold(parse, t, s);
    assert [] + Fold(parse, t, s).events == [];
    QuietFlush(parse, Fold(parse, t, s).state, []);
    HandedNone(read, core, log);
  }

  /** The state is one in event-stream mode that is still reading. */
  ghost predicate Reading(s: State) {
    s.mode == Some(EventStream) && !s.core.closed && NoLf(s.acc.text.line)
  }

  lemma NothingLeft<V>(parse: Bytes -> Option<V>, read: Reader<V>, t: Text, core: Core, log: seq<Canonical>)
    ensures var rest := Ending(parse, t, []);
      Rest(parse, read, t, core, log, []) ==
      if rest.None? then AnthropicStreamLaws.Aborted else Handed(read, core, log, rest.value)
  {
    assert [] + Fold(parse, t, []).events == [];
  }

  lemma {:induction false} ReceivedFrom<V>(parse: Bytes -> Option<V>, read: Reader<V>, s: State, chunks: seq<Bytes>)
    requires Reading(s)
    requires StopLast(parse, read, s.acc.text, s.core, s.log, Scanned(s.acc.raw, chunks))
    ensures Ended(parse, read, Received(parse, read, s, chunks)) ==
      Rest(parse, read, s.acc.text, s.core, s.log, Scanned(s.acc.raw, chunks))
    ensures var t := Received(parse, read, s, chunks); t.Some? ==> t.value.mode == Some(EventStream)
    decreases |chunks|
  {
    if chunks == [] {
      NothingLeft(parse, read, s.acc.text, s.core, s.log);
    } else {
      var front, back := FeedStep(parse, s.acc, chunks);
      var fed := Fold(parse, s.acc.text, front);
      if fed.Bad? || Handed(read, s.core, s.log, fed.events).Aborted? {
        ReceivedNone(parse, read, s, chunks, front, Scanned(back, chunks[1..]));
      } else {
        RestSplits(parse, read, s.acc.text, s.core, s.log, front, Scanned(back, chunks[1..]));
        ReceivedOne(parse, read, s, chunks, front, back);
      }
    }
  }

  lemma ReceivedNone<V>(
    parse: Bytes -> Option<V>, read: Reader<V>, s: State, chunks: seq<Bytes>, front: Bytes, rest: Bytes)
    requires s.mode == Some(EventStream) && chunks != []
    requires var fed := Fold(parse, s.acc.text, front);
      && (fed.Bad? ==> Feed(parse, s.acc, chunks[0]).Bad?)
      && (fed.Reply? ==> Feed(parse, s.acc, chunks[0]).Reply? && Feed(parse, s.acc, chunks[0]).events == fed.events)
      && (fed.Bad? || Handed(read, s.core, s.log, fed.events).Aborted?)
    ensures Received(parse, read, s, chunks) == None
    ensures Rest(parse, read, s.acc.text, s.core, s.log, front + rest) == AnthropicStreamLaws.Aborted
  {
    if Fold(parse, s.acc.text, front).Bad? {
      RemainingSplit(parse, s.acc.text, front, rest, []);
    } else {
      RestSplits(parse, read, s.acc.text, s.core, s.log, front, rest);
    }
  }

  lemma {:induction false} ReceivedOne<V>(
    parse: Bytes -> Option<V>, read: Reader<V>, s: State, chunks: seq<Bytes>, front: Bytes, back: Bytes)
    requires Reading(s) && chunks != []
    requires StopLast(parse, read, s.acc.text, s.core, s.log, front + Scanned(back, chunks[1..]))
    requires var fed := Fold(parse, s.acc.text, front);
      && fed.Reply? && Feed(parse, s.acc, chunks[0]) == Reply(Acc(back, fed.state), fed.events)
      && Handed(read, s.core, s.log, fed.events).Ran?
    ensures var fed := Fold(parse, s.acc.text, front); var h := Handed(read, s.core, s.log, fed.events);
      && Ended(parse, read, Received(parse, read, s, chunks)) ==
          Rest(parse, read, fed.state, h.core, h.log, Scanned(back, chunks[1..]))
      && var t := Received(parse, read, s, chunks); t.Some? ==> t.value.mode == Some(EventStream)
    decreases |chunks|, 0
  {
    var fed := Fold(parse, s.acc.text, front);
    var h := Handed(read, s.core, s.log, fed.events);
    var t := State(s.mode, Acc(back, fed.state), h.core, h.log, s.buffer);
    assert Took(parse, read, s, chunks[0]) == Some(t);
    if h.core.closed {
      ClosedIsAll(parse, read, s, front, Scanned(back, chunks[1..]));
    } else {
      FoldKeepsLines(parse, s.acc.text, front);
      StopLastRest(parse, read, s.acc.text, s.core, s.log, front, Scanned(back, chunks[1..]));
      ReceivedFrom(parse, read, t, chunks[1..]);
    }
  }

  /** Once the decoder is closed, not reading on is the same as reading on. */
  lemma ClosedIsAll<V>(parse: Bytes -> Option<V>, read: Reader<V>, s: State, front: Bytes, rest: Bytes)
    requires Reading(s) && StopLast(parse, read, s.acc.text, s.core, s.log, front + rest)
    requires Fold(parse, s.acc.text, front).Reply?
    requires ClosedBy(read, s.core, s.log, Fold(parse, s.acc.text, front).events)
    ensures var fed := Fold(parse, s.acc.text, front); var h := Handed(read, s.core, s.log, fed.events);
      && Rest(parse, read, fed.state, h.core, h.log, rest) == AnthropicStreamLaws.Ran(h.core, h.log)
      && Ending(parse, fed.state, []) == Some([])
      && Handed(read, h.core, h.log, []) == AnthropicStreamLaws.Ran(h.core, h.log)
  {
    var fed := Fold(parse, s.acc.text, front);
    var h := Handed(read, s.core, s.log, fed.events);
    ClosingIsQuiet(parse, read, s.acc.text, s.core, s.log, front, rest);
    QuietRest(parse, read, fed.state, h.core, h.log, rest);
    HandedNone(read, h.core, h.log);
  }

  // ---- main results ----

  /** The outcome of one decode of the whole body. */
  function WholeRound<V>(
    parse: Bytes -> Option<V>, read: Reader<V>, isObject: string -> bool, body: Bytes): Option<Summary> {
    Settled(isObject, Verdict(Rest(parse, read, START, NEW, [], body)))
  }

  lemma ConcludedIs<V>(
    parse: Bytes -> Option<V>, read: Reader<V>, completion: Bytes -> Option<Summary>, isObject: string -> bool,
    s: State)
    requires s.mode == Some(EventStream)
    ensures Concluded(parse, read, completion, isObject, s) == Settled(isObject, Verdict(Ended(parse, read, Some(s))))
  {}

  /** Whatever the bytes and however they are cut, a round read as an event stream has the outcome of
      one decode of the text its chunks decode to, where that has its terminal event last. */
  lemma {:induction false} RoundIsOfScanned<V>(
    parse: Bytes -> Option<V>, read: Reader<V>, completion: Bytes -> Option<Summary>, isObject: string -> bool,
    chunks: seq<Bytes>)
    requires chunks != [] && DetectMode(chunks[0]) == EventStream
    requires StopLast(parse, read, START, NEW, [], Scanned([], chunks))
    ensures Rounded(parse, read, completion, isObject, chunks) ==
      WholeRound(parse, read, isObject, Scanned([], chunks))
  {
    var s := FRESH.(mode := Some(EventStream));
    assert Took(parse, read, FRESH, chunks[0]) == Took(parse, read, s, chunks[0]);
    assert Received(parse, read, FRESH, chunks) == Received(parse, read, s, chunks);
    ReceivedFrom(parse, read, s, chunks);
    var t := Received(parse, read, s, chunks);
    if t.Some? { ConcludedIs(parse, read, completion, isObject, t.value); }
  }

  /** For a valid UTF-8 event-stream body with its terminal event last, every cut into chunks gives
      the outcome of one whole decode: the same summary, or a failure exactly when that fails. */
  lemma {:induction false} RoundIsOneDecode<V>(
    parse: Bytes -> Option<V>, read: Reader<V>, completion: Bytes -> Option<Summary>, isObject: string -> bool,
    body: Bytes, chunks: seq<Bytes>)
    requires Valid(body) && DetectMode(body) == EventStream && StopLast(parse, read, START, NEW, [], body)
    requires chunks != [] && Concat(chunks) == body
    ensures Rounded(parse, read, completion, isObject, chunks) == WholeRound(parse, read, isObject, body)
  {
    ModeOfFirstChunk(chunks[0], Concat(chunks[1..]));
    ScannedValid(body, chunks);
    RoundIsOfScanned(parse, read, completion, isObject, chunks);
  }

  // ---- a body that is one JSON document ----

  /** Once in that mode, every chunk is kept as it is. */
  lemma {:induction false} Gathered<V>(parse: Bytes -> Option<V>, read: Reader<V>, s: State, chunks: seq<Bytes>)
    requires s.mode == Some(CompletionJson)
    ensures Received(parse, read, s, chunks) == Some(s.(buffer := s.buffer + Concat(chunks)))
    decreases |chunks|
  {
    if chunks == [] {
      assert s.buffer + [] == s.buffer;
    } else {
      Gathered(parse, read, s.(buffer := s.buffer + chunks[0]), chunks[1..]);
      Strings.Associative(s.buffer, chunks[0], Concat(chunks[1..]));
    }
  }

  /** A text without a `data:` line is not a round: its end is a failure. */
  lemma SilentRoundFails<V>(parse: Bytes -> Option<V>, read: Reader<V>, isObject: string -> bool, body: Bytes)
    requires NoData(body)
    ensures WholeRound(parse, read, isObject, body) == None
  {
    assert [] + body == body;
    QuietFold(parse, START, []);
    QuietRest(parse, read, START, NEW, [], body);
  }

  lemma {:induction false} SilentStopsNowhere<V>(parse: Bytes -> Option<V>, read: Reader<V>, body: Bytes)
    requires NoData(body)
    ensures StopLast(parse, read, START, NEW, [], body)
  {
    forall i: nat | i <= |body|
      ensures var r := Fold(parse, START, body[..i]);
        r.Reply? && ClosedBy(read, NEW, [], r.events) ==> NoData(r.state.line + body[i..])
    {
      assert body == body[..i] + body[i..] && [] + body[..i] == body[..i];
      NoDataPrefix(body[..i], body[i..]);
      QuietFold(parse, START, body[..i]);
      HandedNone(read, NEW, []);
    }
  }

  /** A JSON body, which has no line that starts with `data:`, is answered by the completion decoder if
      and only if the first chunk reaches past its leading white space; otherwise the round fails. */
  lemma {:induction false} JsonRoundIff<V>(
    parse: Bytes -> Option<V>, read: Reader<V>, completion: Bytes -> Option<Summary>, isObject: string -> bool,
    body: Bytes, chunks: seq<Bytes>)
    requires Valid(body) && DetectMode(body) == CompletionJson && NoData(body)
    requires chunks != [] && Concat(chunks) == body
    ensures Rounded(parse, read, completion, isObject, chunks) ==
      if AllSpace(chunks[0]) then None else Settled(isObject, completion(body))
  {
    ModeOfFirstChunk(chunks[0], Concat(chunks[1..]));
    if AllSpace(chunks[0]) {
      ScannedValid(body, chunks);
      SilentStopsNowhere(parse, read, body);
      RoundIsOfScanned(parse, read, completion, isObject, chunks);
      SilentRoundFails(parse, read, isObject, body);
    } else {
      var s := FRESH.(mode := Some(CompletionJson));
      assert Took(parse, read, FRESH, chunks[0]) == Took(parse, read, s, chunks[0]);
      assert Received(parse, read, FRESH, chunks) == Received(parse, read, s, chunks);
      Gathered(parse, read, s, chunks);
      assert [] + body == body;
    }
  }

  /** So, empty first chunks aside, the chunking of an acceptable JSON body never matters if and only if
      the body does not start with white space: otherwise that can come in a chunk of its own. */
  lemma {:induction false} JsonChunksNeverMatterIff<V>(
    parse: Bytes -> Option<V>, read: Reader<V>, completion: Bytes -> Option<Summary>, isObject: string -> bool,
    body: Bytes)
    requires Valid(body) && DetectMode(body) == CompletionJson && NoData(body)
    requires Settled(isObject, completion(body)).Some?
    ensures !AsciiSpace(body[0]) <==>
      forall chunks :: chunks != [] && chunks[0] != [] && Concat(chunks) == body ==>
        Rounded(parse, read, completion, isObject, chunks) == Settled(isObject, completion(body))
  {
    if AsciiSpace(body[0]) {
      var chunks := [[body[0]], body[1..]];
      assert chunks[1..] == [body[1..]] && [body[1..]][1..] == [];
      assert Concat([body[1..]]) == body[1..] + [] == body[1..];
      assert Concat(chunks) == [body[0]] + body[1..] == body;
      JsonRoundIff(parse, read, completion, isObject, body, chunks);
    } else {
      forall chunks | chunks != [] && chunks[0] != [] && Concat(chunks) == body
        ensures Rounded(parse, read, completion, isObject, chunks) == Settled(isObject, completion(body))
      {
        assert chunks[0][0] == body[0] && body[0] in chunks[0];
        JsonRoundIff(parse, read, completion, isObject, body, chunks);
      }
    }
  }

  // ---- chunk invariance of a round ----

  /** The events make a round that is accepted. */
  ghost predicate Accepts(isObject: string -> bool, events: seq<AnthropicStream.Event>) {
    var heard := RoundInput.Heard(events);
    && |RoundInput.Spelled(heard, 0)| <= U32_MAX && RoundInput.StopsWell(events, false)
    && (forall b: nat :: !RoundInput.LeavesOpen(heard, b, false))
    && ArgumentsValid(isObject, RoundInput.Spelled(heard, 0))
  }

  lemma VerdictIs(isObject: string -> bool, events: seq<AnthropicStream.Event>)
    ensures var outcome := Settled(isObject, Verdict(AnthropicStreamLaws.Run(NEW, [], events)));
      && (outcome.Some? <==> Accepts(isObject, events))
      && (outcome.Some? ==> outcome.value == SummaryOf(events))
  {
    RoundInput.RoundIsItsEvents(events);
    var r := AnthropicStreamLaws.Run(NEW, [], events);
    if r.Ran? {
      assert Folded(r.log) == SummaryOf(events);
      assert Finishes(r.core) <==>
        RoundInput.StopsWell(events, false)
        && forall b: nat :: !RoundInput.LeavesOpen(RoundInput.Heard(events), b, false);
    }
  }

  /** The summary the events spell. */
  function SummaryOf(events: seq<AnthropicStream.Event>): Summary {
    var heard := RoundInput.Heard(events);
    Summary(RoundInput.Texts(heard), RoundInput.Thoughts(heard), RoundInput.Spelled(heard, 0))
  }

  /** From bytes to summary: the outcome of an event-stream round is what the events in the decoded text
      say, read off them without the decoder, or a failure exactly when they make no acceptable round. */
  lemma {:induction false} RoundIsItsBody<V>(
    parse: Bytes -> Option<V>, read: Reader<V>, completion: Bytes -> Option<Summary>, isObject: string -> bool,
    chunks: seq<Bytes>)
    requires chunks != [] && DetectMode(chunks[0]) == EventStream
    requires StopLast(parse, read, START, NEW, [], Scanned([], chunks))
    ensures var outcome := Rounded(parse, read, completion, isObject, chunks);
      var values := Whole(parse, Scanned([], chunks));
      && (outcome.Some? <==> values.Some? && Accepts(isObject, Read(read, values.value)))
      && (outcome.Some? ==> outcome.value == SummaryOf(Read(read, values.value)))
  {
    RoundIsOfScanned(parse, read, completion, isObject, chunks);
    RestIsWhole(parse, read, Scanned([], chunks));
    var values := Whole(parse, Scanned([], chunks));
    if values.Some? { VerdictIs(isObject, Read(read, values.value)); }
  }

  /** So chunk boundaries never matter, for the outcome nor for the tool calls it holds: one call per
      start, in order, as `FinishedRoundCalls` tells them, all with arguments that are objects. */
  lemma {:induction false} ChunksNeverMatter<V>(
    parse: Bytes -> Option<V>, read: Reader<V>, completion: Bytes -> Option<Summary>, isObject: string -> bool,
    body: Bytes, chunks: seq<Bytes>, other: seq<Bytes>)
    requires Valid(body) && DetectMode(body) == EventStream && StopLast(parse, read, START, NEW, [], body)
    requires chunks != [] && Concat(chunks) == body && other != [] && Concat(other) == body
    ensures Rounded(parse, read, completion, isObject, chunks) == Rounded(parse, read, completion, isObject, other)
    ensures var outcome := Rounded(parse, read, completion, isObject, chunks);
      outcome.Some? ==>
        && Whole(parse, body).Some?
        && var r := AnthropicStreamLaws.Run(NEW, [], Read(read, Whole(parse, body).value));
           && r.Ran? && Finishes(r.core) && outcome.value == Folded(r.log)
           && |outcome.value.calls| == r.core.next && ArgumentsValid(isObject, outcome.value.calls)
           && (forall k: nat :: k < r.core.next ==>
                 outcome.value.calls[k] == ChatSummary.Tell(AnthropicStreamLaws.Story(r.log, k), k))
  {
    RoundIsOneDecode(parse, read, completion, isObject, body, chunks);
    RoundIsOneDecode(parse, read, completion, isObject, body, other);
    RestIsWhole(parse, read, body);
    if WholeRound(parse, read, isObject, body).Some? {
      FinishedRoundCalls(Read(read, Whole(parse, body).value));
    }
  }

  lemma RestIsWhole<V>(parse: Bytes -> Option<V>, read: Reader<V>, body: Bytes)
    ensures var whole := Whole(parse, body);
      Rest(parse, read, START, NEW, [], body) ==
      if whole.None? then AnthropicStreamLaws.Aborted else AnthropicStreamLaws.Run(NEW, [], Read(read, whole.value))
  {
    var all := Fold(parse, START, body);
    if all.Reply? { assert [] + all.events == all.events; }
  }

  // ---- what the tool loop gets ----

  /** The provider answered each round that has an answer with a body, however cut, that the round
      accepted, and the loop got the calls of that round. */
  ghost predicate Answered<V>(
    parse: Bytes -> Option<V>, read: Reader<V>, completion: Bytes -> Option<Summary>, isObject: string -> bool,
    world: seq<ToolLoop.World>, bodies: seq<seq<Bytes>>)
  {
    && |bodies| == |world|
    && forall n :: 0 <= n < |world| && world[n].response.Some? ==>
         var outcome := Rounded(parse, read, completion, isObject, bodies[n]);
         outcome.Some? && world[n].response.value.calls == outcome.value.calls
  }

  lemma AcceptedIsValid<V>(
    parse: Bytes -> Option<V>, read: Reader<V>, completion: Bytes -> Option<Summary>, isObject: string -> bool,
    chunks: seq<Bytes>)
    ensures var outcome := Rounded(parse, read, completion, isObject, chunks);
      outcome.Some? ==> ArgumentsValid(isObject, outcome.value.calls)
  {}

  /** From the bytes of every answer to the next request: whatever the endpoint sent and however it
      was cut, each conversation the loop sends encodes exactly when the assembled context does, so
      no tool call the model made can make a request fail. */
  lemma {:induction false} AcceptedRoundsEncode<V, J(!new)>(
    parse: Bytes -> Option<V>, read: Reader<V>, completion: Bytes -> Option<Summary>, isObject: string -> bool,
    json: string -> Option<J>, base: seq<Message>, world: seq<ToolLoop.World>, bodies: seq<seq<Bytes>>, i: nat)
    requires forall text :: isObject(text) ==> json(text).Some?
    requires ToolLoop.WorldFits(world) && Answered(parse, read, completion, isObject, world, bodies)
    requires i < |ToolLoop.Loop(base, world, 0).sent|
    ensures var sent := ToolLoop.Loop(base, world, 0).sent[i];
      Turns(json, sent).Some? <==> Turns(json, base).Some?
  {
    forall n | 0 <= n < |world| && world[n].response.Some?
      ensures ToolLoop.ArgumentsParse(json, world[n].response.value.calls)
    {
      AcceptedIsValid(parse, read, completion, isObject, bodies[n]);
    }
    ToolLoop.SentEncodesIff(json, base, world, i);
  }
}
