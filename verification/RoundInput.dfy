/** A round of the Messages stream against the events that came in: the calls, texts and verdict are
    read off the event list alone, without the decoder, and the decoder is proved to give them. */
module RoundInput {
  import opened Options
  import opened Strings
  import opened AnthropicStream
  import AnthropicStreamLaws
  import opened ChatSummary

  // ---- what the events say ----

  predicate Closes(e: Event) {
    e.MessageStop? || e.ErrorEvent?
  }

  predicate Opens(e: Event) {
    e.BlockStart? && e.block.ToolUse?
  }

  /** The events before the one that closes the round. */
  function Heard(events: seq<Event>): seq<Event> {
    if events == [] || Closes(events[0]) then [] else [events[0]] + Heard(events[1..])
  }

  /** The event ends the call that is open on `index`: it stops it, or opens another there. */
  predicate Ends(e: Event, index: nat) {
    (e.BlockStop? && e.index == index) || (Opens(e) && e.index == index)
  }

  /** The argument fragments for `index` up to the end of its call. */
  function Fragments(events: seq<Event>, index: nat): string {
    if events == [] || Ends(events[0], index) then ""
    else
      var e := events[0];
      (if e.BlockDelta? && e.index == index && e.delta.InputJson? then e.delta.partial else "")
        + Fragments(events[1..], index)
  }

  /** The call that is open on `index` is stopped, before another one opens there. */
  predicate IsStopped(events: seq<Event>, index: nat) {
    events != [] && (if Ends(events[0], index) then events[0].BlockStop? else IsStopped(events[1..], index))
  }

  /** The argument text of a call with `begun` so far: what is still to come is added, and a call that is
      stopped without any gets an empty object. */
  function Arguments(begun: string, events: seq<Event>, index: nat): string {
    var all := begun + Fragments(events, index);
    if IsStopped(events, index) then OrEmpty(all) else all
  }

  /** The calls the events spell, numbered from `k`. */
  function Spelled(events: seq<Event>, k: nat): seq<ToolCall> {
    if events == [] then []
    else if Opens(events[0]) then
      var b := events[0].block;
      [ToolCall(k, b.id, b.name, Arguments(b.input, events[1..], events[0].index))] + Spelled(events[1..], k + 1)
    else Spelled(events[1..], k)
  }

  function Texts(events: seq<Event>): string {
    if events == [] then ""
    else
      var e := events[0];
      (if e.BlockDelta? && e.delta.TextPart? then e.delta.text else "") + Texts(events[1..])
  }

  function Thoughts(events: seq<Event>): string {
    if events == [] then ""
    else
      var e := events[0];
      (if e.BlockDelta? && e.delta.Thinking? then e.delta.text else "") + Thoughts(events[1..])
  }

  /** A call is open on `index` when the events are over. */
  predicate LeavesOpen(events: seq<Event>, index: nat, open: bool) {
    if events == [] then open
    else LeavesOpen(events[1..], index, if Ends(events[0], index) then Opens(events[0]) else open)
  }

  /** The round is closed by `message_stop`, and a stop reason came before it. */
  predicate StopsWell(events: seq<Event>, reason: bool) {
    if events == [] then false
    else if Closes(events[0]) then events[0].MessageStop? && reason
    else StopsWell(events[1..], reason || (events[0].MessageDelta? && events[0].stopReason.Some?))
  }

  // ---- what a state and the events to come amount to ----

  /** The events that are still of interest to a decoder. */
  function Rest(core: Core, events: seq<Event>): seq<Event> {
    if core.closed then [] else Heard(events)
  }

  /** `calls` is what a state and the events to come amount to. */
  ghost predicate Amounts(calls: seq<ToolCall>, core: Core, log: seq<Canonical>, events: seq<Event>) {
    && |calls| >= core.next
    && (forall k: nat :: k < core.next && !AnthropicStreamLaws.HasSlot(core, k) ==>
          calls[k] == Tell(AnthropicStreamLaws.Story(log, k), k))
    && (forall b :: b in core.blocks && core.blocks[b].tool < core.next ==>
          var s := core.blocks[b]; calls[s.tool] == ToolCall(s.tool, s.id, s.name, Arguments(s.args, events, b)))
    && calls[core.next..] == Spelled(events, core.next)
  }

  lemma ArgumentsPass(begun: string, events: seq<Event>, index: nat)
    requires events != [] && !Ends(events[0], index)
    requires !(events[0].BlockDelta? && events[0].index == index && events[0].delta.InputJson?)
    ensures Arguments(begun, events, index) == Arguments(begun, events[1..], index)
  {
    assert "" + Fragments(events[1..], index) == Fragments(events[1..], index);
  }

  lemma ArgumentsGrow(begun: string, events: seq<Event>, index: nat)
    requires events != [] && events[0].BlockDelta? && events[0].index == index && events[0].delta.InputJson?
    ensures Arguments(begun, events, index) == Arguments(begun + events[0].delta.partial, events[1..], index)
  {
    Associative(begun, events[0].delta.partial, Fragments(events[1..], index));
  }

  lemma ArgumentsEnd(begun: string, events: seq<Event>, index: nat)
    requires events == [] || Ends(events[0], index)
    ensures Arguments(begun, events, index) ==
      if events != [] && events[0].BlockStop? then OrEmpty(begun) else begun
  {
    assert begun + "" == begun;
  }

  // ---- one event, case by case ----

  lemma HeardStep(core: Core, events: seq<Event>)
    requires events != [] && Consumed(core, events[0]).Step?
    ensures var after := Consumed(core, events[0]).core;
      if core.closed || Closes(events[0]) then Rest(core, events) == [] && Rest(after, events[1..]) == []
      else Rest(core, events) == [events[0]] + Rest(after, events[1..])
  {}

  lemma AsideArguments(core: Core, e: Event, later: seq<Event>, b: nat)
    requires AnthropicStreamLaws.Aside(core, Consumed(core, e)) && !core.closed && b in core.blocks
    ensures var args := core.blocks[b].args; Arguments(args, [e] + later, b) == Arguments(args, later, b)
  {
    var args := core.blocks[b].args;
    assert ([e] + later)[1..] == later;
    if e.BlockDelta? && e.index == b && e.delta.InputJson? {
      ArgumentsGrow(args, [e] + later, b);
      assert args + "" == args;
    } else {
      ArgumentsPass(args, [e] + later, b);
    }
  }

  /** An event that touches no call, or comes too late. */
  lemma AsideAmounts(calls: seq<ToolCall>, core: Core, log: seq<Canonical>, events: seq<Event>)
    requires events != [] && AnthropicStreamLaws.Aside(core, Consumed(core, events[0]))
    requires var step := Consumed(core, events[0]);
      Amounts(calls, step.core, log + step.emitted, Rest(step.core, events[1..]))
    ensures Amounts(calls, core, log, Rest(core, events))
  {
    var step := Consumed(core, events[0]);
    var live, later := Rest(core, events), Rest(step.core, events[1..]);
    HeardStep(core, events);
    AnthropicStreamLaws.AsideKeeps(core, log, step);
    if !core.closed && !Closes(events[0]) {
      assert live[1..] == later;
      forall b | b in core.blocks
        ensures Arguments(core.blocks[b].args, live, b) == Arguments(core.blocks[b].args, later, b)
      {
        AsideArguments(core, events[0], later, b);
        assert live == [events[0]] + later;
      }
    }
  }

  lemma OverwrittenGone(core: Core, log: seq<Canonical>, e: Event, b: nat)
    requires AnthropicStreamLaws.Inv(core, log) && !core.closed && b in core.blocks && Opens(e) && e.index == b
    requires Consumed(core, e).Step?
    ensures !AnthropicStreamLaws.HasSlot(Consumed(core, e).core, core.blocks[b].tool)
  {}

  /** A call whose block is taken by another stays as it was told so far. */
  lemma OverwrittenTells(core: Core, log: seq<Canonical>, e: Event, b: nat)
    requires AnthropicStreamLaws.Inv(core, log) && !core.closed && b in core.blocks && Opens(e) && e.index == b
    requires Consumed(core, e).Step?
    ensures var step := Consumed(core, e); var s := core.blocks[b];
      && !AnthropicStreamLaws.HasSlot(step.core, s.tool)
      && Tell(AnthropicStreamLaws.Story(log + step.emitted, s.tool), s.tool) == ToolCall(s.tool, s.id, s.name, s.args)
  {
    var s := core.blocks[b];
    OverwrittenGone(core, log, e, b);
    AnthropicStreamLaws.StartEmission(log, core.next, e.block);
    assert AnthropicStreamLaws.Tracks(log, s);
    assert AnthropicStreamLaws.Story(log + Consumed(core, e).emitted, s.tool) == AnthropicStreamLaws.Story(log, s.tool);
    TellOpen(AnthropicStreamLaws.Story(log, s.tool), s.tool, s.id, s.name, s.args);
  }

  /** The state after a start amounts to `calls`. */
  ghost predicate Begins(calls: seq<ToolCall>, core: Core, log: seq<Canonical>, events: seq<Event>) {
    && AnthropicStreamLaws.Inv(core, log) && !core.closed
    && events != [] && Opens(events[0]) && Consumed(core, events[0]).Step?
    && var step := Consumed(core, events[0]);
       Amounts(calls, step.core, log + step.emitted, Rest(step.core, events[1..]))
  }

  lemma StartSlot(calls: seq<ToolCall>, core: Core, log: seq<Canonical>, events: seq<Event>, b: nat)
    requires Begins(calls, core, log, events) && b in core.blocks
    ensures var s := core.blocks[b];
      calls[s.tool] == ToolCall(s.tool, s.id, s.name, Arguments(s.args, Rest(core, events), b))
  {
    var e, s := events[0], core.blocks[b];
    var step := Consumed(core, e);
    HeardStep(core, events);
    assert Rest(core, events)[1..] == Rest(step.core, events[1..]);
    if b == e.index {
      ArgumentsEnd(s.args, Rest(core, events), b);
      OverwrittenTells(core, log, e, b);
    } else {
      ArgumentsPass(s.args, Rest(core, events), b);
      assert step.core.blocks[b] == s;
    }
  }

  lemma StartSpells(calls: seq<ToolCall>, core: Core, log: seq<Canonical>, events: seq<Event>)
    requires Begins(calls, core, log, events)
    ensures calls[core.next..] == Spelled(Rest(core, events), core.next)
  {
    var e := events[0];
    var step := Consumed(core, e);
    HeardStep(core, events);
    assert Rest(core, events)[1..] == Rest(step.core, events[1..]);
    assert step.core.blocks[e.index] == Slot(core.next, e.block.id, e.block.name, e.block.input);
    assert calls[core.next..] == [calls[core.next]] + calls[core.next + 1..];
  }

  lemma StartAmounts(calls: seq<ToolCall>, core: Core, log: seq<Canonical>, events: seq<Event>)
    requires Begins(calls, core, log, events)
    ensures Amounts(calls, core, log, Rest(core, events))
  {
    var e := events[0];
    forall b | b in core.blocks
      ensures var s := core.blocks[b];
        calls[s.tool] == ToolCall(s.tool, s.id, s.name, Arguments(s.args, Rest(core, events), b))
    {
      StartSlot(calls, core, log, events, b);
    }
    forall k: nat | k < core.next && !AnthropicStreamLaws.HasSlot(core, k)
      ensures calls[k] == Tell(AnthropicStreamLaws.Story(log, k), k)
    {
      AnthropicStreamLaws.StartFrame(core, log, e.index, e.block, k);
    }
    StartSpells(calls, core, log, events);
  }

  lemma DeltaAmounts(calls: seq<ToolCall>, core: Core, log: seq<Canonical>, events: seq<Event>)
    requires AnthropicStreamLaws.Inv(core, log) && !core.closed
    requires events != [] && events[0].BlockDelta? && events[0].delta.InputJson? && events[0].delta.partial != []
    requires events[0].index in core.blocks
    requires var step := Consumed(core, events[0]);
      Amounts(calls, step.core, log + step.emitted, Rest(step.core, events[1..]))
    ensures Amounts(calls, core, log, Rest(core, events))
  {
    var e := events[0];
    var step := Consumed(core, e);
    var live, later := Rest(core, events), Rest(step.core, events[1..]);
    HeardStep(core, events);
    assert live[1..] == later;
    forall b | b in core.blocks
      ensures var s := core.blocks[b]; calls[s.tool] == ToolCall(s.tool, s.id, s.name, Arguments(s.args, live, b))
    {
      var s := core.blocks[b];
      if b == e.index { ArgumentsGrow(s.args, live, b); } else { ArgumentsPass(s.args, live, b); }
      assert b in step.core.blocks && step.core.blocks[b].tool == s.tool;
    }
    forall k: nat | k < core.next && !AnthropicStreamLaws.HasSlot(core, k)
      ensures calls[k] == Tell(AnthropicStreamLaws.Story(log, k), k)
    {
      AnthropicStreamLaws.SlotFrame(core, log, e, k);
    }
  }

  lemma StopAmounts(calls: seq<ToolCall>, core: Core, log: seq<Canonical>, events: seq<Event>)
    requires AnthropicStreamLaws.Inv(core, log) && !core.closed
    requires events != [] && events[0].BlockStop? && events[0].index in core.blocks
    requires var step := Consumed(core, events[0]);
      Amounts(calls, step.core, log + step.emitted, Rest(step.core, events[1..]))
    ensures Amounts(calls, core, log, Rest(core, events))
  {
    var e := events[0];
    var step := Consumed(core, e);
    var live, later := Rest(core, events), Rest(step.core, events[1..]);
    HeardStep(core, events);
    assert live[1..] == later;
    forall b | b in core.blocks
      ensures var s := core.blocks[b]; calls[s.tool] == ToolCall(s.tool, s.id, s.name, Arguments(s.args, live, b))
    {
      var s := core.blocks[b];
      if b == e.index {
        ArgumentsEnd(s.args, live, b);
        StoppedTells(core, log, b);
        assert !AnthropicStreamLaws.HasSlot(step.core, s.tool);
      } else {
        ArgumentsPass(s.args, live, b);
        assert step.core.blocks[b] == s;
      }
    }
    forall k: nat | k < core.next && !AnthropicStreamLaws.HasSlot(core, k)
      ensures calls[k] == Tell(AnthropicStreamLaws.Story(log, k), k)
    {
      AnthropicStreamLaws.SlotFrame(core, log, e, k);
    }
  }

  /** A stopped call is told as its completion says. */
  lemma StoppedTells(core: Core, log: seq<Canonical>, index: nat)
    requires AnthropicStreamLaws.Inv(core, log) && index in core.blocks
    ensures var s := core.blocks[index];
      Tell(AnthropicStreamLaws.Story(log + Stopped(core, index).emitted, s.tool), s.tool) ==
      ToolCall(s.tool, s.id, s.name, OrEmpty(s.args))
  {
    var s := core.blocks[index];
    var e := ToolComplete(s.tool, s.id, s.name, OrEmpty(s.args));
    var story := AnthropicStreamLaws.Story(log, s.tool);
    AnthropicStreamLaws.OneMore(log, e, s.tool);
    assert AnthropicStreamLaws.Tracks(log, s);
    TellOpen(story, s.tool, s.id, s.name, s.args);
    assert (story + [e])[..|story|] == story;
  }

  lemma {:induction false} StepAmounts(calls: seq<ToolCall>, core: Core, log: seq<Canonical>, events: seq<Event>)
    requires AnthropicStreamLaws.Inv(core, log) && events != [] && Consumed(core, events[0]).Step?
    requires var step := Consumed(core, events[0]);
      Amounts(calls, step.core, log + step.emitted, Rest(step.core, events[1..]))
    ensures Amounts(calls, core, log, Rest(core, events))
  {
    AnthropicStreamLaws.StepKinds(core, events[0]);
    if AnthropicStreamLaws.Aside(core, Consumed(core, events[0])) {
      AsideAmounts(calls, core, log, events);
    } else if events[0].BlockStart? {
      StartAmounts(calls, core, log, events);
    } else if events[0].BlockDelta? {
      DeltaAmounts(calls, core, log, events);
    } else {
      StopAmounts(calls, core, log, events);
    }
  }

  /** Where the events are over, the calls told are the calls. */
  lemma {:induction false} OverAmounts(core: Core, log: seq<Canonical>)
    requires AnthropicStreamLaws.Inv(core, log)
    ensures Amounts(Folded(log).calls, core, log, [])
  {
    var calls := Folded(log).calls;
    FoldedFaithful(log);
    forall k: nat ensures Listed(calls, k) <==> k < core.next { EveryStartListed(core, log, k); }
    SortedIsDense(calls, core.next);
    forall k: nat | k < core.next ensures calls[k] == Tell(AnthropicStreamLaws.Story(log, k), k) {
      assert calls[k] in calls;
    }
    forall b | b in core.blocks
      ensures var s := core.blocks[b]; calls[s.tool] == ToolCall(s.tool, s.id, s.name, Arguments(s.args, [], b))
    {
      var s := core.blocks[b];
      ArgumentsEnd(s.args, [], b);
      assert AnthropicStreamLaws.Tracks(log, s);
      TellOpen(AnthropicStreamLaws.Story(log, s.tool), s.tool, s.id, s.name, s.args);
    }
  }

  lemma {:induction false} RunAmounts(core: Core, log: seq<Canonical>, events: seq<Event>)
    requires AnthropicStreamLaws.Inv(core, log) && AnthropicStreamLaws.Run(core, log, events).Ran?
    ensures Amounts(Folded(AnthropicStreamLaws.Run(core, log, events).log).calls, core, log, Rest(core, events))
    decreases |events|
  {
    if events == [] {
      OverAmounts(core, log);
    } else {
      var step := Consumed(core, events[0]);
      AnthropicStreamLaws.StepKeepsInv(core, log, events[0]);
      RunAmounts(step.core, log + step.emitted, events[1..]);
      StepAmounts(Folded(AnthropicStreamLaws.Run(core, log, events).log).calls, core, log, events);
    }
  }

  // ---- texts ----

  lemma FoldedSnoc(log: seq<Canonical>, e: Canonical)
    ensures Folded(log + [e]) == Apply(Folded(log), e)
  {
    assert (log + [e])[..|log|] == log;
  }

  function Spoken(e: Event): string {
    if e.BlockDelta? && e.delta.TextPart? then e.delta.text else ""
  }

  function Thought(e: Event): string {
    if e.BlockDelta? && e.delta.Thinking? then e.delta.text else ""
  }

  predicate Wordless(e: Canonical) {
    !e.TextDelta? && !e.ReasoningDelta?
  }

  lemma QuietOne(log: seq<Canonical>, e: Canonical)
    requires Wordless(e)
    ensures var more, was := Folded(log + [e]), Folded(log); more.text == was.text && more.reasoning == was.reasoning
  {
    FoldedSnoc(log, e);
  }

  lemma {:induction false} QuietEvents(log: seq<Canonical>, emitted: seq<Canonical>)
    requires forall i :: 0 <= i < |emitted| ==> Wordless(emitted[i])
    ensures var more, was := Folded(log + emitted), Folded(log);
      more.text == was.text && more.reasoning == was.reasoning
    decreases |emitted|
  {
    if emitted == [] {
      assert log + [] == log;
    } else {
      QuietOne(log, emitted[0]);
      QuietEvents(log + [emitted[0]], emitted[1..]);
      assert log + emitted == log + [emitted[0]] + emitted[1..];
    }
  }

  lemma StepTexts(core: Core, log: seq<Canonical>, e: Event)
    requires Consumed(core, e).Step?
    ensures var more := Folded(log + Consumed(core, e).emitted); var was := Folded(log);
      && more.text == was.text + (if core.closed then "" else Spoken(e))
      && more.reasoning == was.reasoning + (if core.closed then "" else Thought(e))
  {
    var emitted := Consumed(core, e).emitted;
    var was := Folded(log);
    assert was.text + "" == was.text && was.reasoning + "" == was.reasoning;
    if !core.closed && Spoken(e) != "" {
      assert emitted == [TextDelta(e.delta.text)];
      FoldedSnoc(log, TextDelta(e.delta.text));
    } else if !core.closed && Thought(e) != "" {
      assert emitted == [ReasoningDelta(e.delta.text)];
      FoldedSnoc(log, ReasoningDelta(e.delta.text));
    } else {
      SaysNothing(core, e);
      QuietEvents(log, emitted);
    }
  }

  lemma SaysNothing(core: Core, e: Event)
    requires Consumed(core, e).Step? && (core.closed || (Spoken(e) == "" && Thought(e) == ""))
    ensures var emitted := Consumed(core, e).emitted; forall i :: 0 <= i < |emitted| ==> Wordless(emitted[i])
  {}

  lemma {:induction false} RunTexts(core: Core, log: seq<Canonical>, events: seq<Event>)
    requires AnthropicStreamLaws.Run(core, log, events).Ran?
    ensures var said := Folded(AnthropicStreamLaws.Run(core, log, events).log); var was := Folded(log);
      && said.text == was.text + Texts(Rest(core, events))
      && said.reasoning == was.reasoning + Thoughts(Rest(core, events))
    decreases |events|
  {
    if events != [] {
      var step := Consumed(core, events[0]);
      StepTexts(core, log, events[0]);
      RunTexts(step.core, log + step.emitted, events[1..]);
      HeardStep(core, events);
      var later := Rest(step.core, events[1..]);
      if !core.closed && !Closes(events[0]) {
        assert ([events[0]] + later)[1..] == later;
        Associative(Folded(log).text, Spoken(events[0]), Texts(later));
        Associative(Folded(log).reasoning, Thought(events[0]), Thoughts(later));
      }
    }
  }

  // ---- everything else that is handed on ----

  /** What a round hands on besides its calls: the event is announced, in this way. */
  function Announced(e: Event): seq<Canonical> {
    match e
    case MessageStart => [Metadata]
    case ErrorEvent(failure) => [Failure(failure)]
    case BlockDelta(_, delta) =>
      if delta.TextPart? && delta.text != "" then [TextDelta(delta.text)]
      else if delta.Thinking? && delta.text != "" then [ReasoningDelta(delta.text)]
      else []
    case _ => []
  }

  /** The announcements up to the event that closes the round, and its own. */
  function AllAnnounced(events: seq<Event>): seq<Canonical> {
    if events == [] then []
    else if Closes(events[0]) then Announced(events[0])
    else Announced(events[0]) + AllAnnounced(events[1..])
  }

  predicate OfCall(e: Canonical) {
    e.ToolStart? || e.ToolArgs? || e.ToolComplete?
  }

  /** The events of a log that are about no call. */
  function Others(log: seq<Canonical>): seq<Canonical> {
    if log == [] then []
    else Others(log[..|log| - 1]) + if OfCall(log[|log| - 1]) then [] else [log[|log| - 1]]
  }

  lemma {:induction false} OthersConcat(a: seq<Canonical>, b: seq<Canonical>)
    ensures Others(a + b) == Others(a) + Others(b)
  {
    if b == [] {
      assert a + b == a && Others(a) + [] == Others(a);
    } else {
      var n := |b| - 1;
      var last := if OfCall(b[n]) then [] else [b[n]];
      OthersConcat(a, b[..n]);
      assert (a + b)[..|a| + n] == a + b[..n];
      Associative(Others(a), Others(b[..n]), last);
    }
  }

  lemma OthersOne(e: Canonical)
    ensures Others([e]) == if OfCall(e) then [] else [e]
  {
    assert [e][..0] == [];
  }

  lemma OfCallOnly(emitted: seq<Canonical>)
    requires forall i :: 0 <= i < |emitted| ==> OfCall(emitted[i])
    ensures Others(emitted) == []
  {
    if emitted != [] { OfCallOnly(emitted[..|emitted| - 1]); }
  }

  lemma StartedOfCall(core: Core, e: Event)
    requires !core.closed && (e.BlockStart? || e.BlockStop?) && Consumed(core, e).Step?
    ensures forall i :: 0 <= i < |Consumed(core, e).emitted| ==> OfCall(Consumed(core, e).emitted[i])
  {}

  lemma OneAnnounced(core: Core, e: Event)
    requires !core.closed && Consumed(core, e).Step? && !e.BlockStart? && !e.BlockStop?
    ensures var emitted := Consumed(core, e).emitted;
      || (emitted == [] && Announced(e) == [])
      || (|emitted| == 1 && Announced(e) == if OfCall(emitted[0]) then [] else emitted)
  {}

  lemma StepAnnounces(core: Core, e: Event)
    requires !core.closed && Consumed(core, e).Step?
    ensures Others(Consumed(core, e).emitted) == Announced(e)
  {
    if e.BlockStart? || e.BlockStop? {
      StartedOfCall(core, e);
      OfCallOnly(Consumed(core, e).emitted);
    } else {
      var emitted := Consumed(core, e).emitted;
      OneAnnounced(core, e);
      if emitted != [] {
        assert emitted == [emitted[0]];
        OthersOne(emitted[0]);
      }
    }
  }

  lemma {:induction false} RunAnnounces(core: Core, log: seq<Canonical>, events: seq<Event>)
    requires !core.closed && AnthropicStreamLaws.Run(core, log, events).Ran?
    ensures Others(AnthropicStreamLaws.Run(core, log, events).log) == Others(log) + AllAnnounced(events)
    decreases |events|
  {
    if events == [] {
      assert Others(log) + [] == Others(log);
    } else {
      var e, step := events[0], Consumed(core, events[0]);
      var more := log + step.emitted;
      StepAnnounces(core, e);
      OthersConcat(log, step.emitted);
      ClosesIff(core, e);
      if Closes(e) {
        ClosedRuns(step.core, more, events[1..]);
      } else {
        RunAnnounces(step.core, more, events[1..]);
        Associative(Others(log), Announced(e), AllAnnounced(events[1..]));
      }
    }
  }

  lemma ClosesIff(core: Core, e: Event)
    requires !core.closed && Consumed(core, e).Step?
    ensures Consumed(core, e).core.closed <==> Closes(e)
  {}

  /** Besides the events of its calls a round hands on exactly its announcements, in order: its texts and
      thoughts piece by piece, its start, and its failure. */
  lemma RoundAnnounces(events: seq<Event>)
    requires AnthropicStreamLaws.Run(NEW, [], events).Ran?
    ensures Others(AnthropicStreamLaws.Run(NEW, [], events).log) == AllAnnounced(events)
  {
    RunAnnounces(NEW, [], events);
    assert [] + AllAnnounced(events) == AllAnnounced(events);
  }

  // ---- verdict ----

  lemma {:induction false} ClosedRuns(core: Core, log: seq<Canonical>, events: seq<Event>)
    requires core.closed
    ensures AnthropicStreamLaws.Run(core, log, events) == AnthropicStreamLaws.Ran(core, log)
    decreases |events|
  {
    if events != [] {
      ClosedRuns(core, log, events[1..]);
      assert log + [] == log;
    }
  }

  /** A run breaks off exactly when there are more calls than numbers for them. */
  lemma {:induction false} RunsIff(core: Core, log: seq<Canonical>, events: seq<Event>)
    requires core.next <= U32_MAX
    ensures AnthropicStreamLaws.Run(core, log, events).Ran? <==>
      core.next + |Spelled(Rest(core, events), core.next)| <= U32_MAX
    decreases |events|
  {
    if events != [] {
      var step := Consumed(core, events[0]);
      if step.Step? {
        RunsIff(step.core, log + step.emitted, events[1..]);
        HeardStep(core, events);
        if !core.closed && !Closes(events[0]) {
          assert Rest(core, events)[1..] == Rest(step.core, events[1..]);
        }
      }
    }
  }

  lemma {:induction false} RunFinishesIff(core: Core, log: seq<Canonical>, events: seq<Event>)
    requires !core.closed && core.failure.None? && AnthropicStreamLaws.Run(core, log, events).Ran?
    ensures Finishes(AnthropicStreamLaws.Run(core, log, events).core) <==>
      StopsWell(events, core.stopReason.Some?) && forall b: nat :: !LeavesOpen(Heard(events), b, b in core.blocks)
    decreases |events|
  {
    if events != [] {
      var e := events[0];
      var step := Consumed(core, e);
      if Closes(e) {
        ClosedRuns(step.core, log + step.emitted, events[1..]);
        if core.blocks != map[] {
          var b :| b in core.blocks;
          assert LeavesOpen(Heard(events), b, b in core.blocks);
        }
      } else {
        RunFinishesIff(step.core, log + step.emitted, events[1..]);
        assert Heard(events)[1..] == Heard(events[1..]);
        forall b: nat
          ensures LeavesOpen(Heard(events), b, b in core.blocks) <==>
            LeavesOpen(Heard(events[1..]), b, b in step.core.blocks)
        {
          OpenStep(core, e, b);
        }
      }
    }
  }

  lemma OpenStep(core: Core, e: Event, b: nat)
    requires !core.closed && !Closes(e) && Consumed(core, e).Step?
    ensures b in Consumed(core, e).core.blocks <==> if Ends(e, b) then Opens(e) else b in core.blocks
  {}

  // ---- main result ----

  /** What a decoded round is, by its events alone. It runs unless there are more calls than numbers;
      then its summary has the texts, the thoughts and the calls the events spell, each with its own
      id, name and argument text; and it is accepted if and only if `message_stop` closes it, after a
      stop reason, and leaves no call open. */
  lemma {:induction false} RoundIsItsEvents(events: seq<Event>)
    ensures var r := AnthropicStreamLaws.Run(NEW, [], events); var heard := Heard(events);
      && (r.Ran? <==> |Spelled(heard, 0)| <= U32_MAX)
      && (r.Ran? ==>
        && Folded(r.log) == Summary(Texts(heard), Thoughts(heard), Spelled(heard, 0))
        && (Finishes(r.core) <==> StopsWell(events, false) && forall b: nat :: !LeavesOpen(heard, b, false)))
  {
    RunsIff(NEW, [], events);
    var r := AnthropicStreamLaws.Run(NEW, [], events);
    if r.Ran? {
      AnthropicStreamLaws.NewInv();
      RunAmounts(NEW, [], events);
      RunTexts(NEW, [], events);
      RunFinishesIff(NEW, [], events);
      var calls := Folded(r.log).calls;
      assert calls[0..] == calls;
      assert forall b: nat :: LeavesOpen(Heard(events), b, b in NEW.blocks) == LeavesOpen(Heard(events), b, false);
      assert "" + Texts(Heard(events)) == Texts(Heard(events));
      assert "" + Thoughts(Heard(events)) == Thoughts(Heard(events));
    }
  }
}
