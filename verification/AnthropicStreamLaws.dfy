/** Every accepted round of the Messages decoder reassembles its tool calls. */
module AnthropicStreamLaws {
  import opened Options
  import opened AnthropicStream

  // ---- whole rounds ----

  datatype Round = Ran(core: Core, log: seq<Canonical>) | Aborted

  function Run(core: Core, log: seq<Canonical>, events: seq<Event>): Round
    decreases |events|
  {
    if events == [] then Ran(core, log)
    else
      var step := Consumed(core, events[0]);
      if step.TooManyCalls? then Aborted else Run(step.core, log + step.emitted, events[1..])
  }

  /** A `tool_use` block starts on an index that is still open. */
  predicate Reuses(core: Core, event: Event) {
    !core.closed && event.BlockStart? && event.block.ToolUse? && event.index in core.blocks
  }

  predicate NoReuse(core: Core, events: seq<Event>)
    decreases |events|
  {
    events == [] ||
    (!Reuses(core, events[0]) &&
     var step := Consumed(core, events[0]); step.Step? ==> NoReuse(step.core, events[1..]))
  }

  // ---- what was emitted about one call ----

  predicate About(e: Canonical, k: nat) {
    (e.ToolStart? || e.ToolArgs? || e.ToolComplete?) && e.index == k
  }

  function Story(log: seq<Canonical>, k: nat): seq<Canonical> {
    if log == [] then []
    else
      var n := |log| - 1;
      if About(log[n], k) then Story(log[..n], k) + [log[n]] else Story(log[..n], k)
  }

  /** The indices of the starts, in the order in which they were emitted. */
  function Starts(log: seq<Canonical>): seq<nat> {
    if log == [] then []
    else
      var n := |log| - 1;
      if log[n].ToolStart? then Starts(log[..n]) + [log[n].index] else Starts(log[..n])
  }

  /** A start followed by argument fragments of the same call; `args` is their concatenation. */
  ghost predicate Open(story: seq<Canonical>, k: nat, id: string, name: string, args: string)
    decreases |story|
  {
    && story != []
    && var last := story[|story| - 1];
       if |story| == 1 then last == ToolStart(k, id, name) && args == []
       else last.ToolArgs? && last.index == k && last.id == id && last.delta != []
            && |last.delta| <= |args| && args[|args| - |last.delta|..] == last.delta
            && Open(story[..|story| - 1], k, id, name, args[..|args| - |last.delta|])
  }

  /** An open story that ends in exactly one completion, with all the fragments before it. */
  ghost predicate Complete(story: seq<Canonical>, k: nat) {
    && |story| >= 2
    && var last := story[|story| - 1];
       && last.ToolComplete? && last.index == k
       && exists args :: Open(story[..|story| - 1], k, last.id, last.name, args) && last.args == OrEmpty(args)
  }

  ghost predicate Completed(log: seq<Canonical>, k: nat) {
    Complete(Story(log, k), k)
  }

  lemma StorySnoc(log: seq<Canonical>, e: Canonical, k: nat)
    ensures Story(log + [e], k) == if About(e, k) then Story(log, k) + [e] else Story(log, k)
    ensures Starts(log + [e]) == if e.ToolStart? then Starts(log) + [e.index] else Starts(log)
  {
    assert (log + [e])[..|log|] == log;
  }

  lemma OpenStarts(k: nat, id: string, name: string)
    ensures Open([ToolStart(k, id, name)], k, id, name, [])
  {}

  lemma OpenGrows(story: seq<Canonical>, k: nat, id: string, name: string, args: string, delta: string)
    requires Open(story, k, id, name, args) && delta != []
    ensures Open(story + [ToolArgs(k, id, delta)], k, id, name, args + delta)
  {
    var longer := story + [ToolArgs(k, id, delta)];
    assert longer[..|story|] == story;
    assert (args + delta)[|args|..] == delta && (args + delta)[..|args|] == args;
  }

  lemma OpenCompletes(story: seq<Canonical>, k: nat, id: string, name: string, args: string)
    requires Open(story, k, id, name, args)
    ensures Complete(story + [ToolComplete(k, id, name, OrEmpty(args))], k)
  {
    assert (story + [ToolComplete(k, id, name, OrEmpty(args))])[..|story|] == story;
  }

  lemma OpenNotComplete(story: seq<Canonical>, k: nat, id: string, name: string, args: string)
    requires Open(story, k, id, name, args)
    ensures !Complete(story, k)
  {}

  // ---- the invariant ----

  function Iota(n: nat): (r: seq<nat>)
    ensures |r| == n && forall i :: 0 <= i < n ==> r[i] == i
  {
    seq(n, i requires 0 <= i < n => i)
  }

  ghost predicate Tracks(log: seq<Canonical>, slot: Slot) {
    Open(Story(log, slot.tool), slot.tool, slot.id, slot.name, slot.args)
  }

  predicate HasSlot(core: Core, k: nat) {
    exists b | b in core.blocks :: core.blocks[b].tool == k
  }

  /** The numbering is dense and every open block tracks the story of its own call. */
  ghost predicate Inv(core: Core, log: seq<Canonical>) {
    && Starts(log) == Iota(core.next)
    && (forall k: nat :: k >= core.next ==> Story(log, k) == [])
    && (forall b :: b in core.blocks ==> core.blocks[b].tool < core.next && Tracks(log, core.blocks[b]))
    && (forall b, c :: b in core.blocks && c in core.blocks && b != c ==> core.blocks[b].tool != core.blocks[c].tool)
  }

  /** Every call that was started is either open in a block or complete. */
  ghost predicate AllAccounted(core: Core, log: seq<Canonical>) {
    forall k: nat :: k < core.next ==> HasSlot(core, k) || Completed(log, k)
  }

  lemma UnrelatedEmission(log: seq<Canonical>, e: Canonical)
    requires !e.ToolStart? && !e.ToolArgs? && !e.ToolComplete?
    ensures Starts(log + [e]) == Starts(log) && forall k: nat :: Story(log + [e], k) == Story(log, k)
  {
    forall k: nat ensures Story(log + [e], k) == Story(log, k) { StorySnoc(log, e, k); }
    StorySnoc(log, e, 0);
  }

  /** What a start emits: its own story, and nothing about any other call. */
  lemma StartEmission(log: seq<Canonical>, k: nat, block: Block)
    requires block.ToolUse? && Story(log, k) == []
    ensures var given := if block.input == [] then [] else [ToolArgs(k, block.id, block.input)];
      var more := log + ([ToolStart(k, block.id, block.name)] + given);
      && Starts(more) == Starts(log) + [k]
      && Open(Story(more, k), k, block.id, block.name, block.input)
      && (forall j: nat :: j != k ==> Story(more, j) == Story(log, j))
  {
    var start := ToolStart(k, block.id, block.name);
    var args := ToolArgs(k, block.id, block.input);
    forall j: nat ensures Story(log + [start], j) == if j == k then Story(log, j) + [start] else Story(log, j) {
      StorySnoc(log, start, j);
    }
    assert [] + [start] == [start];
    OpenStarts(k, block.id, block.name);
    StorySnoc(log, start, k);
    if block.input == [] {
      assert log + ([start] + []) == log + [start];
    } else {
      assert log + ([start] + [args]) == log + [start] + [args];
      forall j: nat ensures Story(log + [start] + [args], j) ==
        if j == k then Story(log + [start], j) + [args] else Story(log + [start], j) {
        StorySnoc(log + [start], args, j);
      }
      StorySnoc(log + [start], args, k);
      OpenGrows([start], k, block.id, block.name, [], block.input);
      assert [] + block.input == block.input;
    }
  }

  lemma IotaGrows(n: nat)
    ensures Iota(n) + [n] == Iota(n + 1)
  {}

  lemma SameStoryTracks(log: seq<Canonical>, more: seq<Canonical>, slot: Slot)
    requires Tracks(log, slot) && Story(more, slot.tool) == Story(log, slot.tool)
    ensures Tracks(more, slot)
  {}

  /** A new call in a block, whatever the block held. */
  lemma AddSlot(core: Core, log: seq<Canonical>, more: seq<Canonical>, index: nat, slot: Slot)
    requires Inv(core, log) && slot.tool == core.next && Tracks(more, slot)
    requires Starts(more) == Starts(log) + [core.next]
    requires forall j: nat :: j != core.next ==> Story(more, j) == Story(log, j)
    ensures Inv(core.(next := core.next + 1, blocks := core.blocks[index := slot]), more)
  {
    IotaGrows(core.next);
    forall k: nat | k >= core.next + 1 ensures Story(more, k) == [] {
      assert Story(log, k) == [];
    }
    forall b | b in core.blocks ensures core.blocks[b].tool < core.next && Tracks(more, core.blocks[b]) {
      SameStoryTracks(log, more, core.blocks[b]);
    }
  }

  lemma {:induction false} StartKeepsInv(core: Core, log: seq<Canonical>, index: nat, block: Block)
    requires Inv(core, log) && block.ToolUse? && Started(core, index, block).Step?
    ensures var step := Started(core, index, block); Inv(step.core, log + step.emitted)
  {
    StartEmission(log, core.next, block);
    AddSlot(core, log, log + Started(core, index, block).emitted, index,
      Slot(core.next, block.id, block.name, block.input));
  }

  /** What one more event about call `k` changes: the story of `k` only. */
  lemma OneMore(log: seq<Canonical>, e: Canonical, k: nat)
    requires About(e, k) && !e.ToolStart?
    ensures Starts(log + [e]) == Starts(log)
    ensures Story(log + [e], k) == Story(log, k) + [e]
    ensures forall j: nat :: j != k ==> Story(log + [e], j) == Story(log, j)
  {
    forall j: nat ensures Story(log + [e], j) == if j == k then Story(log, j) + [e] else Story(log, j) {
      StorySnoc(log, e, j);
    }
    StorySnoc(log, e, k);
  }

  /** The other blocks keep tracking their own calls. */
  lemma OthersTrack(core: Core, log: seq<Canonical>, e: Canonical, index: nat)
    requires Inv(core, log) && index in core.blocks && About(e, core.blocks[index].tool) && !e.ToolStart?
    ensures forall b :: b in core.blocks && b != index ==> Tracks(log + [e], core.blocks[b])
    ensures Starts(log + [e]) == Iota(core.next)
    ensures forall k: nat :: k >= core.next ==> Story(log + [e], k) == []
  {
    OneMore(log, e, core.blocks[index].tool);
    forall b | b in core.blocks && b != index ensures Tracks(log + [e], core.blocks[b]) {
      assert Tracks(log, core.blocks[b]);
    }
    forall k: nat | k >= core.next ensures Story(log + [e], k) == [] {
      assert Story(log, k) == [];
    }
  }

  lemma {:induction false} DeltaKeepsInv(core: Core, log: seq<Canonical>, index: nat, partial: string)
    requires Inv(core, log) && index in core.blocks && partial != []
    ensures var step := Extended(core, index, InputJson(partial)); Inv(step.core, log + step.emitted)
  {
    var slot := core.blocks[index];
    var e := ToolArgs(slot.tool, slot.id, partial);
    OthersTrack(core, log, e, index);
    OneMore(log, e, slot.tool);
    OpenGrows(Story(log, slot.tool), slot.tool, slot.id, slot.name, slot.args, partial);
    assert Tracks(log + [e], slot.(args := slot.args + partial));
  }

  lemma {:induction false} StopKeepsInv(core: Core, log: seq<Canonical>, index: nat)
    requires Inv(core, log) && index in core.blocks
    ensures var step := Stopped(core, index);
      Inv(step.core, log + step.emitted) && Completed(log + step.emitted, core.blocks[index].tool)
  {
    var slot := core.blocks[index];
    var e := ToolComplete(slot.tool, slot.id, slot.name, OrEmpty(slot.args));
    OthersTrack(core, log, e, index);
    OneMore(log, e, slot.tool);
    OpenCompletes(Story(log, slot.tool), slot.tool, slot.id, slot.name, slot.args);
  }

  /** A step that touches no call: at most one event, about none of them. */
  ghost predicate Aside(core: Core, step: Step) {
    && step.Step? && step.core.blocks == core.blocks && step.core.next == core.next
    && (step.emitted == [] || exists e :: step.emitted == [e] && !e.ToolStart? && !e.ToolArgs? && !e.ToolComplete?)
  }

  /** What a step can be. */
  lemma StepKinds(core: Core, event: Event)
    requires Consumed(core, event).Step?
    ensures var step := Consumed(core, event);
      || Aside(core, step)
      || (event.BlockStart? && event.block.ToolUse? && step == Started(core, event.index, event.block))
      || (event.BlockDelta? && event.delta.InputJson? && event.index in core.blocks && event.delta.partial != []
          && step == Extended(core, event.index, event.delta))
      || (event.BlockStop? && event.index in core.blocks && step == Stopped(core, event.index))
  {
    var step := Consumed(core, event);
    if |step.emitted| == 1 { assert step.emitted == [step.emitted[0]]; }
  }

  lemma AsideKeeps(core: Core, log: seq<Canonical>, step: Step)
    requires Aside(core, step)
    ensures Starts(log + step.emitted) == Starts(log) && forall k: nat :: Story(log + step.emitted, k) == Story(log, k)
  {
    if step.emitted == [] {
      assert log + [] == log;
    } else {
      UnrelatedEmission(log, step.emitted[0]);
    }
  }

  lemma AsideKeepsInv(core: Core, log: seq<Canonical>, step: Step)
    requires Inv(core, log) && Aside(core, step)
    ensures Inv(step.core, log + step.emitted)
  {
    AsideKeeps(core, log, step);
    forall b | b in core.blocks ensures Tracks(log + step.emitted, core.blocks[b]) {
      assert Tracks(log, core.blocks[b]);
    }
  }

  lemma {:induction false} StepKeepsInv(core: Core, log: seq<Canonical>, event: Event)
    requires Inv(core, log) && Consumed(core, event).Step?
    ensures var step := Consumed(core, event); Inv(step.core, log + step.emitted)
  {
    StepKinds(core, event);
    if Aside(core, Consumed(core, event)) {
      AsideKeepsInv(core, log, Consumed(core, event));
    } else if event.BlockStart? {
      StartKeepsInv(core, log, event.index, event.block);
    } else if event.BlockDelta? {
      DeltaKeepsInv(core, log, event.index, event.delta.partial);
    } else {
      StopKeepsInv(core, log, event.index);
    }
  }

  /** A step tells nothing new about a call that is neither new nor open. */
  lemma {:induction false} StepFrame(core: Core, log: seq<Canonical>, event: Event, k: nat)
    requires Inv(core, log) && Consumed(core, event).Step?
    requires k < core.next && !HasSlot(core, k)
    ensures var step := Consumed(core, event);
      && step.core.next >= core.next && !HasSlot(step.core, k) && Story(log + step.emitted, k) == Story(log, k)
  {
    StepKinds(core, event);
    if Aside(core, Consumed(core, event)) {
      AsideKeeps(core, log, Consumed(core, event));
    } else if event.BlockStart? {
      StartFrame(core, log, event.index, event.block, k);
    } else {
      SlotFrame(core, log, event, k);
    }
  }

  lemma StartFrame(core: Core, log: seq<Canonical>, index: nat, block: Block, k: nat)
    requires Inv(core, log) && block.ToolUse? && Started(core, index, block).Step?
    requires k < core.next && !HasSlot(core, k)
    ensures var step := Started(core, index, block);
      && step.core.next >= core.next && !HasSlot(step.core, k) && Story(log + step.emitted, k) == Story(log, k)
  {
    var step := Started(core, index, block);
    StartEmission(log, core.next, block);
    forall b | b in step.core.blocks ensures step.core.blocks[b].tool != k {}
  }

  lemma SlotFrame(core: Core, log: seq<Canonical>, event: Event, k: nat)
    requires Inv(core, log) && k < core.next && !HasSlot(core, k)
    requires || (event.BlockDelta? && event.delta.InputJson? && event.index in core.blocks && event.delta.partial != []
                 && Consumed(core, event) == Extended(core, event.index, event.delta))
             || (event.BlockStop? && event.index in core.blocks && Consumed(core, event) == Stopped(core, event.index))
    ensures var step := Consumed(core, event);
      && step.core.next >= core.next && !HasSlot(step.core, k) && Story(log + step.emitted, k) == Story(log, k)
  {
    var slot := core.blocks[event.index];
    var step := Consumed(core, event);
    assert slot.tool != k;
    OneMore(log, step.emitted[0], slot.tool);
    assert step.emitted == [step.emitted[0]];
    forall b | b in step.core.blocks ensures step.core.blocks[b].tool != k { assert b in core.blocks; }
  }

  /** Without a reused index, a call leaves its block only by completing. */
  lemma {:induction false} SlotKept(core: Core, event: Event, k: nat)
    requires HasSlot(core, k) && !Reuses(core, event) && Consumed(core, event).Step?
    ensures HasSlot(Consumed(core, event).core, k)
      || (!core.closed && event.BlockStop? && event.index in core.blocks && core.blocks[event.index].tool == k)
  {
    var b :| b in core.blocks && core.blocks[b].tool == k;
    var after := Consumed(core, event).core.blocks;
    if b in after { assert after[b].tool == k; }
  }

  lemma {:induction false} StepAccounts(core: Core, log: seq<Canonical>, event: Event)
    requires Inv(core, log) && AllAccounted(core, log) && !Reuses(core, event) && Consumed(core, event).Step?
    ensures var step := Consumed(core, event); AllAccounted(step.core, log + step.emitted)
  {
    var step := Consumed(core, event);
    forall k: nat | k < step.core.next ensures HasSlot(step.core, k) || Completed(log + step.emitted, k) {
      if k == core.next {
        assert step.core.blocks[event.index].tool == k;
      } else if HasSlot(core, k) {
        SlotKept(core, event, k);
        if !HasSlot(step.core, k) { StopKeepsInv(core, log, event.index); }
      } else {
        StepFrame(core, log, event, k);
      }
    }
  }

  /** A call whose block was overwritten: started, not complete, and nowhere open. */
  ghost predicate Orphan(core: Core, log: seq<Canonical>, k: nat) {
    k < core.next && !HasSlot(core, k) && !Completed(log, k)
  }

  lemma {:induction false} ReuseOrphans(core: Core, log: seq<Canonical>, event: Event)
    requires Inv(core, log) && Reuses(core, event) && Consumed(core, event).Step?
    ensures var step := Consumed(core, event); Orphan(step.core, log + step.emitted, core.blocks[event.index].tool)
  {
    var step := Consumed(core, event);
    var slot := core.blocks[event.index];
    StartEmission(log, core.next, event.block);
    forall b | b in step.core.blocks ensures step.core.blocks[b].tool != slot.tool {}
    assert Tracks(log, slot);
    OpenNotComplete(Story(log, slot.tool), slot.tool, slot.id, slot.name, slot.args);
  }

  lemma {:induction false} RunKeepsInv(core: Core, log: seq<Canonical>, events: seq<Event>)
    requires Inv(core, log) && Run(core, log, events).Ran?
    ensures var r := Run(core, log, events);
      && Inv(r.core, r.log)
      && (AllAccounted(core, log) && NoReuse(core, events) ==> AllAccounted(r.core, r.log))
      && (forall k: nat :: Orphan(core, log, k) ==> Orphan(r.core, r.log, k))
      && (!NoReuse(core, events) ==> exists k: nat :: Orphan(r.core, r.log, k))
    decreases |events|
  {
    if events != [] {
      var step := Consumed(core, events[0]);
      StepKeepsInv(core, log, events[0]);
      RunKeepsInv(step.core, log + step.emitted, events[1..]);
      forall k: nat | Orphan(core, log, k) ensures Orphan(step.core, log + step.emitted, k) {
        StepFrame(core, log, events[0], k);
      }
      if Reuses(core, events[0]) {
        ReuseOrphans(core, log, events[0]);
      } else if AllAccounted(core, log) {
        StepAccounts(core, log, events[0]);
      }
    }
  }

  lemma NewInv()
    ensures Inv(NEW, []) && AllAccounted(NEW, [])
  {}

  /** When a round finishes, its starts are numbered 0 to n-1 in order; and every one of them has
      exactly one later completion, with the same index, id and name and with the concatenation
      of its own fragments as arguments (or `{}` when that is blank), exactly when no `tool_use`
      block was started on an index that was still open. */
  lemma {:induction false} ToolCallsReassembled(events: seq<Event>)
    requires Run(NEW, [], events).Ran? && Finishes(Run(NEW, [], events).core)
    ensures var r := Run(NEW, [], events);
      && Starts(r.log) == Iota(r.core.next)
      && ((forall k: nat :: k < r.core.next ==> Completed(r.log, k)) <==> NoReuse(NEW, events))
  {
    NewInv();
    RunKeepsInv(NEW, [], events);
    var r := Run(NEW, [], events);
    if !NoReuse(NEW, events) {
      var k: nat :| Orphan(r.core, r.log, k);
      assert k < r.core.next && !Completed(r.log, k);
    } else {
      forall k: nat | k < r.core.next ensures Completed(r.log, k) {
        assert !HasSlot(r.core, k);
      }
    }
  }
}
