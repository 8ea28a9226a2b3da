/** One streamed Messages round: `AnthropicRoundState` of `src/provider_loop.rs`, which feeds the
    event-stream decoder into the block decoder and the summary. `parse` is JSON decoding of a
    payload, `read` its interpretation as an event, `completion` the decoding of a body that is not
    streamed, and `isObject` tells whether an argument text is a JSON object. */
module AnthropicRound {
  import opened Options
  import Strings
  import opened Utf8
  import opened Sse
  import opened SseLaws
  import opened AnthropicStream
  import AnthropicStreamLaws
  import opened ChatSummary

  // ---- specification ----

  datatype State = State(mode: Option<Mode>, acc: Acc, core: Core, log: seq<Canonical>, buffer: Bytes)

  const FRESH := State(None, Acc([], START), NEW, [], [])

  function Read<V>(read: V -> AnthropicStream.Event, values: seq<V>): (events: seq<AnthropicStream.Event>)
    ensures |events| == |values|
  {
    seq(|values|, i requires 0 <= i < |values| => read(values[i]))
  }

  function Handed<V>(
    read: V -> AnthropicStream.Event, core: Core, log: seq<Canonical>, values: seq<V>): AnthropicStreamLaws.Round {
    AnthropicStreamLaws.Run(core, log, Read(read, values))
  }

  /** `consume`; `None` fails the round. */
  function Took<V>(parse: Bytes -> Option<V>, read: V -> AnthropicStream.Event, s: State, chunk: Bytes): Option<State> {
    var mode := if s.mode.Some? then s.mode.value else DetectMode(chunk);
    if mode.CompletionJson? then Some(s.(mode := Some(mode), buffer := s.buffer + chunk))
    else
      var fed := Feed(parse, s.acc, chunk);
      if fed.Bad? then None
      else
        var r := Handed(read, s.core, s.log, fed.events);
        if r.Aborted? then None else Some(State(Some(mode), fed.state, r.core, r.log, s.buffer))
  }

  predicate Halted(s: State) {
    s.mode == Some(EventStream) && s.core.closed
  }

  /** Chunks are read until the decoder has seen its terminal event or they run out. */
  function Received<V>(
    parse: Bytes -> Option<V>, read: V -> AnthropicStream.Event, s: State, chunks: seq<Bytes>): Option<State>
    decreases |chunks|
  {
    if chunks == [] then Some(s)
    else
      var t := Took(parse, read, s, chunks[0]);
      if t.None? || Halted(t.value) then t else Received(parse, read, t.value, chunks[1..])
  }

  /** `validate_tool_arguments`. */
  predicate ArgumentsValid(isObject: string -> bool, calls: seq<ToolCall>) {
    forall i :: 0 <= i < |calls| ==> !Strings.Blank(calls[i].args) && isObject(calls[i].args)
  }

  function Settled(isObject: string -> bool, summary: Option<Summary>): Option<Summary> {
    if summary.Some? && ArgumentsValid(isObject, summary.value.calls) then summary else None
  }

  /** What the block decoder makes of a round that is over. */
  function Verdict(r: AnthropicStreamLaws.Round): Option<Summary> {
    if r.Ran? && AnthropicStream.Finishes(r.core) then Some(Folded(r.log)) else None
  }

  /** `finish`. */
  function Concluded<V>(
    parse: Bytes -> Option<V>, read: V -> AnthropicStream.Event, completion: Bytes -> Option<Summary>,
    isObject: string -> bool, s: State): Option<Summary>
  {
    if s.mode == Some(EventStream) then
      var rest := Ending(parse, s.acc.text, []);
      if rest.None? then None else Settled(isObject, Verdict(Handed(read, s.core, s.log, rest.value)))
    else Settled(isObject, completion(s.buffer))
  }

  /** A whole round: its chunks, then the end of the stream. */
  function Rounded<V>(
    parse: Bytes -> Option<V>, read: V -> AnthropicStream.Event, completion: Bytes -> Option<Summary>,
    isObject: string -> bool, chunks: seq<Bytes>): Option<Summary>
  {
    var s := Received(parse, read, FRESH, chunks);
    if s.None? then None else Concluded(parse, read, completion, isObject, s.value)
  }

  // ---- the implementation ----

  class AnthropicRoundState {
    const accumulator: SseAccumulator
    const decoder: AnthropicStreamState
    var summary: Summary
    var buffer: Bytes
    var mode: Option<Mode>
    ghost var log: seq<Canonical>

    ghost predicate Valid()
      reads this, accumulator
    {
      accumulator.Valid() && Summed()
    }

    ghost predicate Summed()
      reads this
    {
      summary == Folded(log)
    }

    ghost function View(): State
      reads this, accumulator, decoder
    {
      State(mode, accumulator.View(), decoder.View(), log, buffer)
    }

    constructor ()
      ensures Valid() && View() == FRESH && fresh(accumulator) && fresh(decoder)
    {
      accumulator := new SseAccumulator();
      decoder := new AnthropicStreamState();
      summary, buffer, mode, log := EMPTY, [], None, [];
    }

    /** `apply`, for the events of one chunk in turn; `None` fails the round. */
    method ApplyAll<V>(read: V -> AnthropicStream.Event, values: seq<V>) returns (emitted: Option<seq<Canonical>>)
      requires Summed()
      modifies this`summary, this`log, decoder
      ensures var r := Handed(read, old(decoder.View()), old(log), values);
        if r.Aborted? then emitted.None?
        else Summed() && decoder.View() == r.core && log == r.log && emitted.Some? && log == old(log) + emitted.value
    {
      var sofar: seq<Canonical> := [];
      assert Read(read, values)[0..] == Read(read, values);
      for i := 0 to |values|
        invariant Summed() && log == old(log) + sofar
        invariant AnthropicStreamLaws.Run(decoder.View(), log, Read(read, values)[i..]) ==
          Handed(read, old(decoder.View()), old(log), values)
      {
        Next(Read(read, values), i);
        var reading, more := decoder.Consume(read(values[i]));
        if more.None? { return None; }
        AppliedIs(log, more.value);
        Longer(old(log), sofar, more.value);
        summary := Applied(summary, more.value);
        log := log + more.value;
        sofar := sofar + more.value;
      }
      emitted := Some(sofar);
    }

    method Consume<V>(parse: Bytes -> Option<V>, read: V -> AnthropicStream.Event, chunk: Bytes)
      returns (reading: bool, emitted: Option<seq<Canonical>>)
      requires Valid()
      modifies this, accumulator, decoder
      ensures var t := Took(parse, read, old(View()), chunk);
        && (emitted.Some? <==> t.Some?)
        && (t.Some? ==>
          Valid() && View() == t.value && log == old(log) + emitted.value && reading == !Halted(t.value))
    {
      if mode.None? { mode := Some(DetectMode(chunk)); }
      if mode == Some(CompletionJson) {
        buffer := buffer + chunk;
        return true, Some([]);
      }
      var values := accumulator.Consume(parse, chunk);
      if values.None? { return false, None; }
      emitted := ApplyAll(read, values.value);
      reading := !decoder.closed;
    }

    method Finish<V>(
      parse: Bytes -> Option<V>, read: V -> AnthropicStream.Event, completion: Bytes -> Option<Summary>,
      isObject: string -> bool)
      returns (outcome: Option<Summary>)
      requires Valid()
      modifies this, accumulator, decoder
      ensures outcome == Concluded(parse, read, completion, isObject, old(View()))
    {
      if mode == Some(EventStream) {
        var values := accumulator.Finish(parse);
        if values.None? { return None; }
        var emitted := ApplyAll(read, values.value);
        if emitted.None? { return None; }
        var accepted := decoder.Finish();
        if !accepted { return None; }
      } else {
        var message := completion(buffer);
        if message.None? { return None; }
        summary := message.value;
      }
      var valid := ValidateArguments(isObject, summary.calls);
      outcome := if valid then Some(summary) else None;
    }
  }

  method ValidateArguments(isObject: string -> bool, calls: seq<ToolCall>) returns (valid: bool)
    ensures valid == ArgumentsValid(isObject, calls)
  {
    for i := 0 to |calls|
      invariant ArgumentsValid(isObject, calls[..i])
    {
      if Strings.Blank(calls[i].args) || !isObject(calls[i].args) { return false; }
      assert calls[..i + 1] == calls[..i] + [calls[i]];
    }
    assert calls[..|calls|] == calls;
    return true;
  }

  /** The round as the transport drives it: every chunk, until one says that reading is over. */
  method Drive<V>(
    parse: Bytes -> Option<V>, read: V -> AnthropicStream.Event, completion: Bytes -> Option<Summary>,
    isObject: string -> bool, chunks: seq<Bytes>) returns (outcome: Option<Summary>)
    ensures outcome == Rounded(parse, read, completion, isObject, chunks)
  {
    var state := new AnthropicRoundState();
    var i := 0;
    assert chunks[0..] == chunks;
    while i < |chunks|
      invariant 0 <= i <= |chunks| && state.Valid()
      invariant fresh(state) && fresh(state.accumulator) && fresh(state.decoder)
      invariant Received(parse, read, state.View(), chunks[i..]) == Received(parse, read, FRESH, chunks)
    {
      assert chunks[i..][1..] == chunks[i + 1..];
      var reading, emitted := state.Consume(parse, read, chunks[i]);
      if emitted.None? { return None; }
      i := i + 1;
      if !reading { break; }
    }
    outcome := state.Finish(parse, read, completion, isObject);
  }

  lemma Longer(log: seq<Canonical>, sofar: seq<Canonical>, more: seq<Canonical>)
    ensures log + sofar + more == log + (sofar + more)
  {}

  lemma Next<T>(events: seq<T>, i: nat)
    requires i < |events|
    ensures events[i..] != [] && events[i..][0] == events[i] && events[i..][1..] == events[i + 1..]
  {}

  function Applied(s: Summary, events: seq<Canonical>): Summary {
    if events == [] then s else Apply(Applied(s, events[..|events| - 1]), events[|events| - 1])
  }

  lemma {:induction false} AppliedIs(log: seq<Canonical>, more: seq<Canonical>)
    ensures Applied(Folded(log), more) == Folded(log + more)
  {
    if more == [] {
      assert log + more == log;
    } else {
      var n := |more| - 1;
      AppliedIs(log, more[..n]);
      assert (log + more)[..|log + more| - 1] == log + more[..n];
    }
  }
}
