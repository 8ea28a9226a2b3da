/** Reassembly of tool calls from the Messages event stream: `src/anthropic/stream.rs`, and the
    summary it is folded into in `src/openai_compatible/stream.rs`. Events are taken after JSON
    decoding; `input` is the serialized non-empty input object of a block, or the empty text. */
module AnthropicStream {
  import opened Options
  import opened Strings

  datatype Block = ToolUse(id: string, name: string, input: string) | OtherBlock

  datatype Delta = TextPart(text: string) | Thinking(text: string) | InputJson(partial: string) | OtherDelta

  datatype Event =
    | MessageStart
    | BlockStart(index: nat, block: Block)
    | BlockDelta(index: nat, delta: Delta)
    | BlockStop(index: nat)
    | MessageDelta(stopReason: Option<string>)
    | MessageStop
    | ErrorEvent(failure: string)
    | Ignored

  /** The canonical events of one round. */
  datatype Canonical =
    | Metadata
    | TextDelta(delta: string)
    | ReasoningDelta(delta: string)
    | ToolStart(index: nat, id: string, name: string)
    | ToolArgs(index: nat, id: string, delta: string)
    | ToolComplete(index: nat, id: string, name: string, args: string)
    | Failure(error: string)

  datatype Slot = Slot(tool: nat, id: string, name: string, args: string)

  datatype Core = Core(blocks: map<nat, Slot>, next: nat, stopReason: Option<string>, failure: Option<string>,
    closed: bool)

  const NEW := Core(map[], 0, None, None, false)
  const U32_MAX := 0xFFFF_FFFF

  datatype Step = Step(core: Core, emitted: seq<Canonical>) | TooManyCalls

  /** The argument text of a completed call: a blank one stands for no arguments. */
  function OrEmpty(args: string): string {
    if Blank(args) then "{}" else args
  }

  function Started(core: Core, index: nat, block: Block): Step {
    if block.OtherBlock? then Step(core, [])
    else if core.next == U32_MAX then TooManyCalls
    else
      var k := core.next;
      Step(core.(next := k + 1, blocks := core.blocks[index := Slot(k, block.id, block.name, block.input)]),
        [ToolStart(k, block.id, block.name)]
          + if block.input == [] then [] else [ToolArgs(k, block.id, block.input)])
  }

  function Extended(core: Core, index: nat, delta: Delta): Step {
    match delta
    case TextPart(text) => Step(core, if text == [] then [] else [TextDelta(text)])
    case Thinking(text) => Step(core, if text == [] then [] else [ReasoningDelta(text)])
    case InputJson(partial) =>
      if index !in core.blocks || partial == [] then Step(core, [])
      else
        var slot := core.blocks[index];
        Step(core.(blocks := core.blocks[index := slot.(args := slot.args + partial)]),
          [ToolArgs(slot.tool, slot.id, partial)])
    case OtherDelta => Step(core, [])
  }

  function Stopped(core: Core, index: nat): Step {
    if index !in core.blocks then Step(core, [])
    else
      var slot := core.blocks[index];
      Step(core.(blocks := core.blocks - {index}), [ToolComplete(slot.tool, slot.id, slot.name, OrEmpty(slot.args))])
  }

  function Consumed(core: Core, event: Event): Step {
    if core.closed then Step(core, [])
    else match event
      case MessageStart => Step(core, [Metadata])
      case BlockStart(index, block) => Started(core, index, block)
      case BlockDelta(index, delta) => Extended(core, index, delta)
      case BlockStop(index) => Stopped(core, index)
      case MessageDelta(reason) => Step(if reason.Some? then core.(stopReason := reason) else core, [])
      case MessageStop => Step(core.(closed := true), [])
      case ErrorEvent(failure) => Step(core.(failure := Some(failure), closed := true), [Failure(failure)])
      case Ignored => Step(core, [])
  }

  /** `finish` accepts the round. */
  predicate Finishes(core: Core) {
    core.failure.None? && core.closed && core.stopReason.Some? && core.blocks == map[]
  }

  /** The decoder of one round. */
  class AnthropicStreamState {
    var blocks: map<nat, Slot>
    var next: nat
    var stopReason: Option<string>
    var failure: Option<string>
    var closed: bool

    ghost function View(): Core reads this {
      Core(blocks, next, stopReason, failure, closed)
    }

    constructor ()
      ensures View() == NEW
    {
      blocks, next, stopReason, failure, closed := map[], 0, None, None, false;
    }

    method Consume(event: Event) returns (reading: bool, emitted: Option<seq<Canonical>>)
      modifies this
      ensures var step := Consumed(old(View()), event);
        && (step.TooManyCalls? ==> emitted.None? && View() == old(View()))
        && (step.Step? ==> View() == step.core && emitted == Some(step.emitted) && reading == !View().closed)
    {
      emitted := Some([]);
      if closed { return false, emitted; }
      match event {
      case MessageStart => emitted := Some([Metadata]);
      case BlockStart(index, block) => emitted := this.StartBlock(index, block);
      case BlockDelta(index, delta) =>
        var events := this.DeltaBlock(index, delta);
        emitted := Some(events);
      case BlockStop(index) =>
        var events := this.StopBlock(index);
        emitted := Some(events);
      case MessageDelta(reason) => if reason.Some? { stopReason := reason; }
      case MessageStop => closed := true;
      case ErrorEvent(error) =>
        emitted := Some([Failure(error)]);
        failure, closed := Some(error), true;
      case Ignored =>
      }
      reading := !closed;
    }

    method StartBlock(index: nat, block: Block) returns (emitted: Option<seq<Canonical>>)
      modifies this`blocks, this`next
      ensures var step := Started(old(View()), index, block);
        if step.TooManyCalls? then emitted.None? && View() == old(View())
        else View() == step.core && emitted == Some(step.emitted)
    {
      if block.OtherBlock? { return Some([]); }
      var tool := next;
      if tool == U32_MAX { return None; }
      next := tool + 1;
      blocks := blocks[index := Slot(tool, block.id, block.name, block.input)];
      var events := [ToolStart(tool, block.id, block.name)];
      assert events + [] == events;
      if block.input != [] { events := events + [ToolArgs(tool, block.id, block.input)]; }
      emitted := Some(events);
    }

    method DeltaBlock(index: nat, delta: Delta) returns (emitted: seq<Canonical>)
      modifies this`blocks
      ensures Step(View(), emitted) == Extended(old(View()), index, delta)
    {
      emitted := [];
      match delta
      case TextPart(text) => if text != [] { emitted := [TextDelta(text)]; }
      case Thinking(text) => if text != [] { emitted := [ReasoningDelta(text)]; }
      case InputJson(partial) =>
        if index in blocks && partial != [] {
          var slot := blocks[index];
          blocks := blocks[index := slot.(args := slot.args + partial)];
          emitted := [ToolArgs(slot.tool, slot.id, partial)];
        }
      case OtherDelta =>
    }

    method StopBlock(index: nat) returns (emitted: seq<Canonical>)
      modifies this`blocks
      ensures Step(View(), emitted) == Stopped(old(View()), index)
    {
      if index !in blocks { return []; }
      var slot := blocks[index];
      blocks := blocks - {index};
      emitted := [ToolComplete(slot.tool, slot.id, slot.name, OrEmpty(slot.args))];
    }

    method Finish() returns (accepted: bool)
      ensures accepted == Finishes(View())
    {
      accepted := failure.None? && closed && stopReason.Some? && blocks == map[];
    }
  }
}
