/** Encoding of a canonical conversation as Messages turns: `src/anthropic/request.rs`. JSON
    parsing of a call's argument text is the parameter `parse`. */
module AnthropicRequest {
  import opened Options

  datatype Call = Call(id: Option<string>, name: Option<string>, args: string)

  datatype Message =
    | System(parts: seq<string>)
    | User(parts: seq<string>)
    | Assistant(parts: seq<string>, calls: seq<Call>)
    | Tool(callId: Option<string>, content: string)

  datatype Role = UserRole | AssistantRole

  datatype Block<J> =
    | TextBlock(text: string)
    | ToolUse(id: string, name: string, input: J)
    | ToolResult(useId: string, content: string)

  datatype Turn<J> = Turn(role: Role, blocks: seq<Block<J>>)

  /** One encoded message: system text, a turn, nothing, or an error of the whole request. */
  datatype Encoded<J> = Lifted(system: seq<string>) | Spoken(turn: Turn<J>) | Silent | Malformed

  function TextParts(parts: seq<string>): seq<string> {
    if parts == [] then []
    else (if parts[0] == [] then [] else [parts[0]]) + TextParts(parts[1..])
  }

  function TextBlocks<J>(parts: seq<string>): (blocks: seq<Block<J>>) {
    if parts == [] then []
    else (if parts[0] == [] then [] else [TextBlock(parts[0])]) + TextBlocks(parts[1..])
  }

  /** The `tool_use` blocks of an assistant message, unless a call lacks a part or its arguments
      do not parse. */
  function UseBlocks<J>(parse: string -> Option<J>, calls: seq<Call>): Option<seq<Block<J>>> {
    if calls == [] then Some([])
    else
      var call := calls[0];
      var rest := UseBlocks(parse, calls[1..]);
      if call.id.None? || call.name.None? || parse(call.args).None? || rest.None? then None
      else Some([ToolUse(call.id.value, call.name.value, parse(call.args).value)] + rest.value)
  }

  function EncodeMessage<J>(parse: string -> Option<J>, m: Message): Encoded<J> {
    match m
    case System(parts) => Lifted(TextParts(parts))
    case Tool(callId, content) =>
      if callId.None? then Malformed else Spoken(Turn(UserRole, [ToolResult(callId.value, content)]))
    case Assistant(parts, calls) =>
      var uses := UseBlocks(parse, calls);
      if uses.None? then Malformed
      else
        var blocks := TextBlocks(parts) + uses.value;
        if blocks == [] then Silent else Spoken(Turn(AssistantRole, blocks))
    case User(parts) =>
      var blocks: seq<Block<J>> := TextBlocks(parts);
      if blocks == [] then Silent else Spoken(Turn(UserRole, blocks))
  }

  /** The turns of a conversation, before merging. */
  function Turns<J>(parse: string -> Option<J>, messages: seq<Message>): Option<seq<Turn<J>>>
    decreases |messages|
  {
    if messages == [] then Some([])
    else
      var rest := Turns(parse, messages[1..]);
      if rest.None? then None
      else match EncodeMessage(parse, messages[0])
        case Malformed => None
        case Spoken(turn) => Some([turn] + rest.value)
        case Silent => rest
        case Lifted(_) => rest
  }

  // ---- merging adjacent turns of one role ----

  function Add<J>(merged: seq<Turn<J>>, t: Turn<J>): seq<Turn<J>> {
    var n := |merged| - 1;
    if merged != [] && merged[n].role == t.role
    then merged[..n] + [Turn(t.role, merged[n].blocks + t.blocks)]
    else merged + [t]
  }

  function Merge<J>(turns: seq<Turn<J>>): seq<Turn<J>> {
    if turns == [] then [] else Add(Merge(turns[..|turns| - 1]), turns[|turns| - 1])
  }

  method MergeRoles<J>(messages: seq<Turn<J>>) returns (merged: seq<Turn<J>>)
    ensures merged == Merge(messages)
  {
    merged := [];
    assert messages[..0] == [];
    for i := 0 to |messages|
      invariant merged == Merge(messages[..i])
    {
      var message := messages[i];
      var last := |merged| - 1;
      assert messages[..i + 1][..i] == messages[..i];
      if merged != [] && merged[last].role == message.role {
        merged := merged[last := Turn(message.role, merged[last].blocks + message.blocks)];
      } else {
        merged := merged + [message];
      }
    }
    assert messages[..|messages|] == messages;
  }

  ghost predicate Alternates<J>(turns: seq<Turn<J>>) {
    forall i :: 0 <= i < |turns| - 1 ==> turns[i].role != turns[i + 1].role
  }

  /** Every block with the role that says it. */
  function Flat<J>(turns: seq<Turn<J>>): seq<(Role, Block<J>)> {
    if turns == [] then [] else Flat(turns[..|turns| - 1]) + Said(turns[|turns| - 1])
  }

  function Said<J>(t: Turn<J>): (s: seq<(Role, Block<J>)>)
    ensures |s| == |t.blocks| && forall i :: 0 <= i < |s| ==> s[i] == (t.role, t.blocks[i])
  {
    seq(|t.blocks|, i requires 0 <= i < |t.blocks| => (t.role, t.blocks[i]))
  }

  lemma FlatSnoc<J>(turns: seq<Turn<J>>, t: Turn<J>)
    ensures Flat(turns + [t]) == Flat(turns) + Said(t)
  {
    assert (turns + [t])[..|turns|] == turns;
  }

  lemma SaidBoth<J>(s: Turn<J>, t: Turn<J>)
    requires s.role == t.role
    ensures Said(Turn(t.role, s.blocks + t.blocks)) == Said(s) + Said(t)
  {}

  lemma AddLaws<J>(merged: seq<Turn<J>>, t: Turn<J>)
    requires Alternates(merged)
    ensures Alternates(Add(merged, t))
    ensures Flat(Add(merged, t)) == Flat(merged) + Said(t)
  {
    var n := |merged| - 1;
    if merged != [] && merged[n].role == t.role {
      var both := Turn(t.role, merged[n].blocks + t.blocks);
      FlatSnoc(merged[..n], both);
      SaidBoth(merged[n], t);
    } else {
      FlatSnoc(merged, t);
    }
  }

  /** Merging leaves strictly alternating roles and says the same blocks in the same order. */
  lemma {:induction false} MergeLaws<J>(turns: seq<Turn<J>>)
    ensures Alternates(Merge(turns)) && Flat(Merge(turns)) == Flat(turns)
  {
    if turns != [] {
      var n := |turns| - 1;
      MergeLaws(turns[..n]);
      AddLaws(Merge(turns[..n]), turns[n]);
    }
  }

  /** An alternating conversation is left alone; so merging twice is merging once. */
  lemma {:induction false} MergeOfAlternating<J>(turns: seq<Turn<J>>)
    requires Alternates(turns)
    ensures Merge(turns) == turns
  {
    if turns != [] {
      var n := |turns| - 1;
      MergeOfAlternating(turns[..n]);
      assert turns == turns[..n] + [turns[n]];
      if n > 0 { assert turns[n - 1].role != turns[n - 1 + 1].role; }
    }
  }

  lemma MergeIdempotent<J>(turns: seq<Turn<J>>)
    ensures Merge(Merge(turns)) == Merge(turns)
  {
    MergeLaws(turns);
    MergeOfAlternating(Merge(turns));
  }

  // ---- merging a concatenation ----

  /** Two merged conversations joined: their adjacent turns become one if they share a role. */
  function Glue<J>(a: seq<Turn<J>>, b: seq<Turn<J>>): seq<Turn<J>> {
    if b == [] then a else Add(a, b[0]) + b[1..]
  }

  lemma AddBehind<J>(p: seq<Turn<J>>, q: seq<Turn<J>>, t: Turn<J>)
    requires q != []
    ensures Add(p + q, t) == p + Add(q, t)
  {
    var n := |q| - 1;
    assert (p + q)[|p| + n] == q[n] && (p + q)[..|p| + n] == p + q[..n];
  }

  lemma AddTwice<J>(a: seq<Turn<J>>, s: Turn<J>, t: Turn<J>)
    ensures var first := Add(a, s);
      Add(first, t) == if s.role == t.role then Add(a, Turn(t.role, s.blocks + t.blocks)) else first + [t]
  {
    var n := |a| - 1;
    if a != [] && a[n].role == s.role {
      assert (a[n].blocks + s.blocks) + t.blocks == a[n].blocks + (s.blocks + t.blocks);
      assert Add(a, s)[..n] == a[..n];
    } else {
      assert (a + [s])[..|a|] == a;
    }
  }

  lemma GlueOne<J>(a: seq<Turn<J>>, s: Turn<J>, t: Turn<J>)
    ensures Add(Glue(a, [s]), t) == Glue(a, Add([s], t))
  {
    AddTwice(a, s, t);
    assert Glue(a, [s]) == Add(a, s);
    if s.role == t.role {
      assert Add([s], t) == [Turn(t.role, s.blocks + t.blocks)];
    } else {
      assert Add([s], t) == [s, t] && [s, t][1..] == [t];
    }
  }

  lemma GlueMore<J>(a: seq<Turn<J>>, s: Turn<J>, rest: seq<Turn<J>>, t: Turn<J>)
    requires rest != []
    ensures Add(Glue(a, [s] + rest), t) == Glue(a, Add([s] + rest, t))
  {
    AddBehind(Add(a, s), rest, t);
    AddBehind([s], rest, t);
    assert ([s] + rest)[1..] == rest && ([s] + Add(rest, t))[1..] == Add(rest, t);
  }

  lemma GlueAdd<J>(a: seq<Turn<J>>, b: seq<Turn<J>>, t: Turn<J>)
    ensures Add(Glue(a, b), t) == Glue(a, Add(b, t))
  {
    if b == [] {
      assert Add(b, t) == [t] && Add(a, t) + [] == Add(a, t);
    } else if |b| == 1 {
      assert b == [b[0]];
      GlueOne(a, b[0], t);
    } else {
      assert b == [b[0]] + b[1..];
      GlueMore(a, b[0], b[1..], t);
    }
  }

  lemma {:induction false} MergeConcat<J>(x: seq<Turn<J>>, y: seq<Turn<J>>)
    ensures Merge(x + y) == Glue(Merge(x), Merge(y))
  {
    if y == [] {
      assert x + y == x;
    } else {
      var n := |y| - 1;
      MergeConcat(x, y[..n]);
      GlueAdd(Merge(x), Merge(y[..n]), y[n]);
      MergeLast(x, y);
    }
  }

  lemma MergeLast<J>(x: seq<Turn<J>>, y: seq<Turn<J>>)
    requires y != []
    ensures var n := |y| - 1; Merge(x + y) == Add(Merge(x + y[..n]), y[n])
  {
    assert (x + y)[..|x + y| - 1] == x + y[..|y| - 1];
  }

  lemma {:induction false} TurnsConcat<J>(parse: string -> Option<J>, a: seq<Message>, b: seq<Message>)
    ensures var x, y := Turns(parse, a), Turns(parse, b);
      Turns(parse, a + b) == if x.None? || y.None? then None else Some(x.value + y.value)
    decreases |a|
  {
    if a == [] {
      assert a + b == b;
      var y := Turns(parse, b);
      if y.Some? { assert [] + y.value == y.value; }
    } else {
      assert (a + b)[1..] == a[1..] + b;
      TurnsConcat(parse, a[1..], b);
      var x, y := Turns(parse, a[1..]), Turns(parse, b);
      if x.Some? && y.Some? {
        match EncodeMessage(parse, a[0])
        case Spoken(turn) => assert [turn] + x.value + y.value == [turn] + (x.value + y.value);
        case _ =>
      }
    }
  }
}
