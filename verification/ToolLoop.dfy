/** The provider loop of `src/provider_loop.rs`, and what it sends: a conversation in which every
    tool call it replays is answered. The provider, recovery and the tools are parameters. */
module ToolLoop {
  import opened Options
  import opened ChatSummary
  import opened Strings
  import opened AnthropicRequest

  const MAX_PROVIDER_ROUNDS := 32

  datatype Finish = Stop | Length | ToolCalls | OtherFinish

  /** The decoded answer of one `provider.complete`. */
  datatype Response = Response(finish: Option<Finish>, text: string, reasoning: string, calls: seq<ToolCall>)

  /** One round of the world: the provider's answer, if there is one, and for each of its calls the
      text of the tool result or of the corrective observation; `None` cancels or fails. */
  datatype World = World(response: Option<Response>, results: seq<Option<string>>)

  datatype Error = ProviderFailed | TokenLimit | NothingVisible | Interrupted | RoundLimit

  datatype Final = Answer(content: string, reasoning: string, rounds: nat) | Failed(error: Error)

  /** `build_assistant_message`. */
  function AssistantMessage(r: Response): Message {
    Assistant([r.text], WireCalls(r.calls))
  }

  function WireCalls(calls: seq<ToolCall>): (wire: seq<AnthropicRequest.Call>)
    ensures |wire| == |calls|
    ensures forall i :: 0 <= i < |calls| ==>
      wire[i] == AnthropicRequest.Call(Some(calls[i].id), Some(calls[i].name), calls[i].args)
  {
    seq(|calls|,
      i requires 0 <= i < |calls| => AnthropicRequest.Call(Some(calls[i].id), Some(calls[i].name), calls[i].args))
  }

  predicate Ends(r: Response) {
    r.finish == Some(Stop) || r.calls == []
  }

  function Closing(r: Response, round: nat): Final {
    if Blank(r.text) then Failed(NothingVisible) else Answer(r.text, r.reasoning, round + 1)
  }

  /** Tool results are pushed call by call until one is interrupted. */
  function Pushed(messages: seq<Message>, calls: seq<ToolCall>, results: seq<Option<string>>): (p: (seq<Message>, bool))
    requires |results| >= |calls|
    decreases |calls|
  {
    if calls == [] then (messages, true)
    else if results[0].None? then (messages, false)
    else Pushed(messages + [Tool(Some(calls[0].id), results[0].value)], calls[1..], results[1..])
  }

  datatype Outcome = Outcome(final: Final, sent: seq<seq<Message>>)

  ghost predicate WorldFits(world: seq<World>) {
    && |world| >= MAX_PROVIDER_ROUNDS
    && forall i :: 0 <= i < |world| && world[i].response.Some? ==> |world[i].results| >= |world[i].response.value.calls|
  }

  /** The loop from a round on, with the conversation it sends at every `provider.complete`. */
  ghost function Loop(messages: seq<Message>, world: seq<World>, round: nat): Outcome
    requires WorldFits(world) && round <= MAX_PROVIDER_ROUNDS
    decreases MAX_PROVIDER_ROUNDS - round
  {
    if round == MAX_PROVIDER_ROUNDS then Outcome(Failed(RoundLimit), [])
    else
      var answered := world[round].response;
      if answered.None? then Outcome(Failed(ProviderFailed), [messages])
      else if answered.value.finish == Some(Length) then Outcome(Failed(TokenLimit), [messages])
      else if Ends(answered.value) then Outcome(Closing(answered.value, round), [messages])
      else
        var (more, whole) :=
          Pushed(messages + [AssistantMessage(answered.value)], answered.value.calls, world[round].results);
        if !whole then Outcome(Failed(Interrupted), [messages])
        else
          var rest := Loop(more, world, round + 1);
          Outcome(rest.final, [messages] + rest.sent)
  }

  class ChatRequest {
    var messages: seq<Message>
    ghost var sent: seq<seq<Message>>

    constructor (conversation: seq<Message>)
      ensures messages == conversation && sent == []
    {
      messages, sent := conversation, [];
    }

    method Complete(answer: Option<Response>) returns (response: Option<Response>)
      modifies this`sent
      ensures sent == old(sent) + [messages] && response == answer
    {
      sent := sent + [messages];
      response := answer;
    }

    method PushResults(calls: seq<ToolCall>, results: seq<Option<string>>) returns (whole: bool)
      requires |results| >= |calls|
      modifies this`messages
      ensures (messages, whole) == Pushed(old(messages), calls, results)
    {
      var i := 0;
      assert calls[0..] == calls && results[0..] == results;
      while i < |calls|
        invariant i <= |calls|
        invariant Pushed(messages, calls[i..], results[i..]) == Pushed(old(messages), calls, results)
      {
        assert calls[i..][1..] == calls[i + 1..] && results[i..][1..] == results[i + 1..];
        if results[i].None? { return false; }
        messages := messages + [Tool(Some(calls[i].id), results[i].value)];
        i := i + 1;
      }
      whole := true;
    }

    /** `execute_provider_loop`, from the first round on. */
    method Execute(world: seq<World>) returns (final: Final)
      requires WorldFits(world)
      modifies this
      ensures var out := Loop(old(messages), world, 0); final == out.final && sent == old(sent) + out.sent
      ensures |old(sent)| < |sent| <= |old(sent)| + MAX_PROVIDER_ROUNDS
    {
      LoopSends(messages, world, 0);
      var round := 0;
      ghost var whole := Loop(messages, world, 0);
      ghost var done: seq<seq<Message>> := [];
      while round < MAX_PROVIDER_ROUNDS
        invariant round <= MAX_PROVIDER_ROUNDS
        invariant sent == old(sent) + done
        invariant Continues(whole, done, Loop(messages, world, round))
      {
        LoopStep(messages, world, round, whole, done);
        SentStep(old(sent), done, messages);
        done := done + [messages];
        var response := Complete(world[round].response);
        if response.None? { return Failed(ProviderFailed); }
        if response.value.finish == Some(Length) { return Failed(TokenLimit); }
        if Ends(response.value) {
          if Blank(response.value.text) { return Failed(NothingVisible); }
          return Answer(response.value.text, response.value.reasoning, round + 1);
        }
        messages := messages + [AssistantMessage(response.value)];
        var pushed := PushResults(response.value.calls, world[round].results);
        if !pushed { return Failed(Interrupted); }
        round := round + 1;
      }
      final := Failed(RoundLimit);
      assert done + [] == done;
    }
  }

  lemma {:induction false} LoopSends(messages: seq<Message>, world: seq<World>, round: nat)
    requires WorldFits(world) && round <= MAX_PROVIDER_ROUNDS
    ensures |Loop(messages, world, round).sent| <= MAX_PROVIDER_ROUNDS - round
    ensures round < MAX_PROVIDER_ROUNDS ==> Loop(messages, world, round).sent != []
    decreases MAX_PROVIDER_ROUNDS - round
  {
    if round < MAX_PROVIDER_ROUNDS {
      var answered := world[round].response;
      if answered.Some? && answered.value.finish != Some(Length) && !Ends(answered.value) {
        var before := messages + [AssistantMessage(answered.value)];
        LoopSends(Pushed(before, answered.value.calls, world[round].results).0, world, round + 1);
      }
    }
  }

  ghost predicate Continues(whole: Outcome, done: seq<seq<Message>>, rest: Outcome) {
    whole.final == rest.final && whole.sent == done + rest.sent
  }

  lemma SentStep(a: seq<seq<Message>>, done: seq<seq<Message>>, messages: seq<Message>)
    ensures a + done + [messages] == a + (done + [messages])
  {}

  lemma LoopStep(messages: seq<Message>, world: seq<World>, round: nat, whole: Outcome, done: seq<seq<Message>>)
    requires WorldFits(world) && round < MAX_PROVIDER_ROUNDS
    requires Continues(whole, done, Loop(messages, world, round))
    ensures var answered := world[round].response; var sent := done + [messages];
      if answered.None? then whole == Outcome(Failed(ProviderFailed), sent)
      else if answered.value.finish == Some(Length) then whole == Outcome(Failed(TokenLimit), sent)
      else if Ends(answered.value) then whole == Outcome(Closing(answered.value, round), sent)
      else
        var (more, all) :=
          Pushed(messages + [AssistantMessage(answered.value)], answered.value.calls, world[round].results);
        if !all then whole == Outcome(Failed(Interrupted), sent)
          else Continues(whole, sent, Loop(more, world, round + 1))
  {
    var answered := world[round].response;
    if answered.Some? && answered.value.finish != Some(Length) && !Ends(answered.value) {
      var (more, all) :=
        Pushed(messages + [AssistantMessage(answered.value)], answered.value.calls, world[round].results);
      if all {
        var rest := Loop(more, world, round + 1);
        assert done + ([messages] + rest.sent) == done + [messages] + rest.sent;
      }
    }
  }

  // ---- every sent conversation is paired ----

  /** Assistant messages with calls, each followed by exactly one tool message per call, with the
      same ids in the same order, and nothing else. */
  ghost predicate Paired(ms: seq<Message>)
    decreases |ms|
  {
    ms != [] ==> Group(ms) && Paired(ms[|ms[0].calls| + 1..])
  }

  /** The conversation begins with one assistant message and the answers to all its calls. */
  ghost predicate Group(ms: seq<Message>)
    requires ms != []
  {
    && ms[0].Assistant? && ms[0].calls != [] && |ms| > |ms[0].calls|
    && forall j :: 1 <= j <= |ms[0].calls| ==>
         ms[j].Tool? && ms[j].callId.Some? && ms[j].callId == ms[0].calls[j - 1].id
  }

  lemma GroupIsPaired(ms: seq<Message>)
    requires ms != [] && Group(ms) && |ms| == |ms[0].calls| + 1
    ensures Paired(ms)
  {
    assert ms[|ms|..] == [];
  }

  lemma GroupPrefix(ms: seq<Message>)
    requires ms != [] && Group(ms)
    ensures var n := |ms[0].calls| + 1; Group(ms[..n]) && Paired(ms[..n])
  {
    var n := |ms[0].calls| + 1;
    forall j | 1 <= j < n ensures ms[..n][j] == ms[j] {}
    GroupIsPaired(ms[..n]);
  }

  lemma {:induction false} PairedConcat(a: seq<Message>, b: seq<Message>)
    requires Paired(a) && Paired(b)
    ensures Paired(a + b)
    decreases |a|
  {
    if a == [] {
      assert a + b == b;
    } else {
      var n := |a[0].calls| + 1;
      assert (a + b)[n..] == a[n..] + b;
      forall j | 1 <= j < n ensures (a + b)[j] == a[j] {}
      PairedConcat(a[n..], b);
    }
  }

  lemma {:induction false} PushedShape(messages: seq<Message>, calls: seq<ToolCall>, results: seq<Option<string>>)
    requires |results| >= |calls| && Pushed(messages, calls, results).1
    ensures var more := Pushed(messages, calls, results).0;
      && |more| == |messages| + |calls| && more[..|messages|] == messages
      && forall j :: |messages| <= j < |more| ==> more[j].Tool? && more[j].callId == Some(calls[j - |messages|].id)
    decreases |calls|
  {
    if calls != [] {
      var next := messages + [Tool(Some(calls[0].id), results[0].value)];
      PushedShape(next, calls[1..], results[1..]);
      var more := Pushed(messages, calls, results).0;
      assert more[..|messages|] == more[..|next|][..|messages|];
      assert more[|messages|] == more[..|next|][|messages|];
      forall j | |messages| <= j < |more| ensures more[j].Tool? && more[j].callId == Some(calls[j - |messages|].id) {
        if j > |messages| { assert calls[1..][j - |next|] == calls[j - |messages|]; }
      }
    }
  }

  /** One round extends a paired conversation by one assistant message and its answers. */
  lemma {:induction false} RoundPairs(
    base: seq<Message>, suffix: seq<Message>, r: Response, results: seq<Option<string>>)
    requires Paired(suffix) && r.calls != [] && |results| >= |r.calls|
    requires Pushed(base + suffix + [AssistantMessage(r)], r.calls, results).1
    ensures var more := Pushed(base + suffix + [AssistantMessage(r)], r.calls, results).0;
      |more| >= |base| && more[..|base|] == base && Paired(more[|base|..])
  {
    var before := base + suffix + [AssistantMessage(r)];
    PushedShape(before, r.calls, results);
    var more := Pushed(before, r.calls, results).0;
    var block := more[|base| + |suffix|..];
    assert block[0] == more[..|before|][|base| + |suffix|] == AssistantMessage(r);
    forall j | 1 <= j <= |r.calls|
      ensures block[j].Tool? && block[j].callId.Some? && block[j].callId == block[0].calls[j - 1].id
    {
      var at := |base| + |suffix| + j;
      assert block[j] == more[at] && |before| <= at < |more|;
    }
    GroupIsPaired(block);
    PairedConcat(suffix, block);
    ThreeParts(base, suffix, AssistantMessage(r), more);
  }

  lemma ThreeParts(base: seq<Message>, suffix: seq<Message>, m: Message, more: seq<Message>)
    requires |more| > |base| + |suffix| && more[..|base| + |suffix| + 1] == base + suffix + [m]
    ensures more[..|base|] == base && more[|base|..] == suffix + more[|base| + |suffix|..]
  {
    assert more[..|base| + |suffix| + 1][..|base|] == base;
    assert more[..|base| + |suffix| + 1][|base|..|base| + |suffix|] == suffix;
  }

  /** At every `provider.complete`, what follows the assembled context is paired. */
  lemma {:induction false} SentIsPaired(base: seq<Message>, suffix: seq<Message>, world: seq<World>, round: nat)
    requires WorldFits(world) && round <= MAX_PROVIDER_ROUNDS && Paired(suffix)
    ensures forall i :: 0 <= i < |Loop(base + suffix, world, round).sent| ==>
      var ms := Loop(base + suffix, world, round).sent[i];
      |ms| >= |base| && ms[..|base|] == base && Paired(ms[|base|..])
    decreases MAX_PROVIDER_ROUNDS - round
  {
    assert (base + suffix)[..|base|] == base && (base + suffix)[|base|..] == suffix;
    if round < MAX_PROVIDER_ROUNDS {
      var answered := world[round].response;
      if answered.Some? && answered.value.finish != Some(Length) && !Ends(answered.value) {
        var (more, whole) :=
          Pushed(base + suffix + [AssistantMessage(answered.value)], answered.value.calls, world[round].results);
        if whole {
          RoundPairs(base, suffix, answered.value, world[round].results);
          assert more == base + more[|base|..];
          SentIsPaired(base, more[|base|..], world, round + 1);
        }
      }
    }
  }

  lemma EverySentRequestPaired(base: seq<Message>, world: seq<World>)
    requires WorldFits(world)
    ensures forall i :: 0 <= i < |Loop(base, world, 0).sent| ==>
      var ms := Loop(base, world, 0).sent[i];
      |ms| >= |base| && ms[..|base|] == base && Paired(ms[|base|..])
  {
    assert base + [] == base;
    SentIsPaired(base, [], world, 0);
  }

  // ---- and on the wire ----

  function UseIds<J>(blocks: seq<Block<J>>): seq<string> {
    if blocks == [] then []
    else (if blocks[0].ToolUse? then [blocks[0].id] else []) + UseIds(blocks[1..])
  }

  function ResultIds<J>(blocks: seq<Block<J>>): seq<string> {
    if blocks == [] then []
    else (if blocks[0].ToolResult? then [blocks[0].useId] else []) + ResultIds(blocks[1..])
  }

  /** Assistant and user turns in strict alternation, each user turn being exactly the results of
      the uses in the assistant turn before it, in order. */
  ghost predicate AnsweredTurns<J>(turns: seq<Turn<J>>)
    decreases |turns|
  {
    turns != [] ==>
    && |turns| >= 2
    && turns[0].role == AssistantRole && turns[1].role == UserRole
    && UseIds(turns[0].blocks) != [] && ResultIds(turns[1].blocks) == UseIds(turns[0].blocks)
    && |turns[1].blocks| == |ResultIds(turns[1].blocks)|
    && AnsweredTurns(turns[2..])
  }

  lemma {:induction false} UseIdsConcat<J>(a: seq<Block<J>>, b: seq<Block<J>>)
    ensures UseIds(a + b) == UseIds(a) + UseIds(b)
  {
    if a == [] {
      assert a + b == b;
    } else {
      assert (a + b)[0] == a[0] && (a + b)[1..] == a[1..] + b;
      UseIdsConcat(a[1..], b);
      var own := if a[0].ToolUse? then [a[0].id] else [];
      assert own + (UseIds(a[1..]) + UseIds(b)) == own + UseIds(a[1..]) + UseIds(b);
    }
  }

  lemma {:induction false} TextHasNoUses<J>(parts: seq<string>)
    ensures UseIds<J>(TextBlocks(parts)) == []
  {
    if parts != [] {
      TextHasNoUses<J>(parts[1..]);
      if parts[0] != [] {
        assert ([TextBlock(parts[0])] + TextBlocks<J>(parts[1..]))[1..] == TextBlocks<J>(parts[1..]);
      } else {
        assert [] + TextBlocks<J>(parts[1..]) == TextBlocks<J>(parts[1..]);
      }
    }
  }

  lemma {:induction false} UsesOfCalls<J>(parse: string -> Option<J>, calls: seq<AnthropicRequest.Call>)
    requires UseBlocks(parse, calls).Some?
    ensures var ids := UseIds(UseBlocks(parse, calls).value);
      |ids| == |calls| && forall i :: 0 <= i < |calls| ==> calls[i].id == Some(ids[i])
  {
    if calls != [] {
      UsesOfCalls(parse, calls[1..]);
      var rest := UseBlocks(parse, calls[1..]).value;
      var all := UseBlocks(parse, calls).value;
      assert all[1..] == rest;
      assert UseIds(all) == [calls[0].id.value] + UseIds(rest);
    }
  }

  /** Consecutive tool messages merge into one user turn of results. */
  lemma {:induction false} ResultsMerge<J>(parse: string -> Option<J>, tools: seq<Message>)
    requires tools != [] && forall i :: 0 <= i < |tools| ==> tools[i].Tool? && tools[i].callId.Some?
    ensures Turns(parse, tools).Some?
    ensures var merged := Merge(Turns(parse, tools).value);
      && |merged| == 1 && merged[0].role == UserRole
      && |merged[0].blocks| == |ResultIds(merged[0].blocks)| == |tools|
      && forall i :: 0 <= i < |tools| ==> tools[i].callId == Some(ResultIds(merged[0].blocks)[i])
    decreases |tools|
  {
    var first: Turn<J> := Turn(UserRole, [ToolResult(tools[0].callId.value, tools[0].content)]);
    OneResult(first);
    if |tools| == 1 {
      assert Turns(parse, tools[1..]) == Some([]);
      assert [first] + [] == [first];
    } else {
      ResultsMerge(parse, tools[1..]);
      var rest := Turns(parse, tools[1..]).value;
      MergeConcat([first], rest);
      MoreResults(first, Merge(rest)[0], Merge(rest));
    }
  }

  lemma OneResult<J>(first: Turn<J>)
    requires first.role == UserRole && |first.blocks| == 1 && first.blocks[0].ToolResult?
    ensures Merge([first]) == [first] && ResultIds(first.blocks) == [first.blocks[0].useId]
  {
    MergeOfAlternating([first]);
    assert first.blocks[1..] == [];
  }

  lemma MoreResults<J>(first: Turn<J>, tail: Turn<J>, merged: seq<Turn<J>>)
    requires first.role == UserRole && |first.blocks| == 1 && first.blocks[0].ToolResult?
    requires merged == [tail] && tail.role == UserRole
    ensures Glue([first], merged) == [Turn(UserRole, first.blocks + tail.blocks)]
    ensures ResultIds(first.blocks + tail.blocks) == [first.blocks[0].useId] + ResultIds(tail.blocks)
  {
    assert (first.blocks + tail.blocks)[1..] == tail.blocks;
  }

  lemma ResultsOf<J>(turn: Turn<J>, calls: seq<AnthropicRequest.Call>, uses: seq<string>)
    requires |uses| == |calls| == |ResultIds(turn.blocks)|
    requires forall i :: 0 <= i < |calls| ==>
      calls[i].id == Some(uses[i]) && calls[i].id == Some(ResultIds(turn.blocks)[i])
    ensures ResultIds(turn.blocks) == uses
  {}

  /** An assistant message with calls is one turn whose uses are its calls. */
  lemma {:induction false} AssistantEncodes<J>(parse: string -> Option<J>, m: Message) returns (turn: Turn<J>)
    requires m.Assistant? && m.calls != [] && UseBlocks(parse, m.calls).Some?
    ensures Turns(parse, [m]) == Some([turn]) && turn.role == AssistantRole
    ensures var ids := UseIds(turn.blocks);
      |ids| == |m.calls| && forall i :: 0 <= i < |m.calls| ==> m.calls[i].id == Some(ids[i])
  {
    var uses := UseBlocks(parse, m.calls).value;
    UsesOfCalls(parse, m.calls);
    var texts: seq<Block<J>> := TextBlocks(m.parts);
    TextHasNoUses<J>(m.parts);
    UseIdsConcat(texts, uses);
    assert [] + UseIds(uses) == UseIds(uses);
    turn := Turn(AssistantRole, texts + uses);
    SpokenAlone(parse, m, turn);
  }

  lemma SpokenAlone<J>(parse: string -> Option<J>, m: Message, turn: Turn<J>)
    requires EncodeMessage(parse, m) == Spoken(turn)
    ensures Turns(parse, [m]) == Some([turn])
  {
    assert [m][1..] == [] && [turn] + [] == [turn];
  }

  lemma FirstEncodes<J>(parse: string -> Option<J>, ms: seq<Message>)
    requires ms != [] && Turns(parse, ms).Some?
    ensures EncodeMessage(parse, ms[0]) != Malformed
  {}

  lemma AlternatingPair<J>(a: Turn<J>, b: Turn<J>)
    requires a.role == AssistantRole && b.role == UserRole
    requires UseIds(a.blocks) != [] && ResultIds(b.blocks) == UseIds(a.blocks) && |b.blocks| == |ResultIds(b.blocks)|
    ensures AnsweredTurns([a, b])
  {
    assert [a, b][2..] == [];
  }

  /** One assistant message and its answers become one pair of turns. */
  lemma {:induction false} PairEncodes<J>(parse: string -> Option<J>, ms: seq<Message>)
    requires ms != [] && Group(ms) && |ms| == |ms[0].calls| + 1 && Turns(parse, ms).Some?
    ensures var merged := Merge(Turns(parse, ms).value); |merged| == 2 && AnsweredTurns(merged)
  {
    FirstEncodes(parse, ms);
    var turn := AssistantEncodes(parse, ms[0]);
    forall i | 0 <= i < |ms[1..]| ensures ms[1..][i] == ms[i + 1] {}
    ResultsMerge(parse, ms[1..]);
    var tools := Turns(parse, ms[1..]).value;
    var answer := Merge(tools)[0];
    ResultsOf(answer, ms[0].calls, UseIds(turn.blocks));
    AlternatingPair(turn, answer);
    assert ms == [ms[0]] + ms[1..];
    TurnsConcat(parse, [ms[0]], ms[1..]);
    MergeConcat([turn], tools);
    MergeOfAlternating([turn]);
    assert Merge(tools) == [answer];
    GluePair(turn, answer);
  }

  lemma GluePair<J>(a: Turn<J>, b: Turn<J>)
    requires a.role != b.role
    ensures Glue([a], [b]) == [a, b]
  {
    assert [b][1..] == [] && Add([a], b) == [a, b] && [a, b] + [] == [a, b];
  }

  lemma {:induction false} AnsweredConcat<J>(a: seq<Turn<J>>, b: seq<Turn<J>>)
    requires AnsweredTurns(a) && AnsweredTurns(b) && |a| == 2
    ensures AnsweredTurns(a + b) && Glue(a, b) == a + b
  {
    assert (a + b)[2..] == b;
    if b != [] {
      assert Add(a, b[0]) == a + [b[0]];
      assert a + [b[0]] + b[1..] == a + b;
    } else {
      assert a + b == a;
    }
  }

  // ---- what encodes ----

  ghost predicate Encodes<J>(parse: string -> Option<J>, m: Message) {
    !EncodeMessage(parse, m).Malformed?
  }

  ghost predicate AllEncode<J(!new)>(parse: string -> Option<J>, ms: seq<Message>) {
    forall m :: m in ms ==> Encodes(parse, m)
  }

  /** A conversation encodes exactly when each of its messages does. */
  lemma {:induction false} EncodesIff<J(!new)>(parse: string -> Option<J>, ms: seq<Message>)
    ensures Turns(parse, ms).Some? <==> AllEncode(parse, ms)
    decreases |ms|
  {
    if ms != [] {
      EncodesIff(parse, ms[1..]);
      assert ms == [ms[0]] + ms[1..];
      assert AllEncode(parse, ms) <==> Encodes(parse, ms[0]) && AllEncode(parse, ms[1..]);
    }
  }

  lemma AllEncodeConcat<J(!new)>(parse: string -> Option<J>, a: seq<Message>, b: seq<Message>)
    ensures AllEncode(parse, a + b) <==> AllEncode(parse, a) && AllEncode(parse, b)
  {
    assert forall m :: m in a + b <==> m in a || m in b;
  }

  /** The argument text of every call parses: what the round's own validation leaves through. */
  predicate ArgumentsParse<J>(parse: string -> Option<J>, calls: seq<ToolCall>) {
    forall i :: 0 <= i < |calls| ==> parse(calls[i].args).Some?
  }

  ghost predicate WorldParses<J(!new)>(parse: string -> Option<J>, world: seq<World>) {
    forall i :: 0 <= i < |world| && world[i].response.Some? ==> ArgumentsParse(parse, world[i].response.value.calls)
  }

  lemma {:induction false} UsesEncode<J>(parse: string -> Option<J>, calls: seq<AnthropicRequest.Call>)
    requires forall i :: 0 <= i < |calls| ==> calls[i].id.Some? && calls[i].name.Some? && parse(calls[i].args).Some?
    ensures UseBlocks(parse, calls).Some?
    decreases |calls|
  {
    if calls != [] { UsesEncode(parse, calls[1..]); }
  }

  lemma AnswerEncodes<J>(parse: string -> Option<J>, r: Response)
    requires ArgumentsParse(parse, r.calls)
    ensures Encodes(parse, AssistantMessage(r))
  {
    UsesEncode(parse, WireCalls(r.calls));
  }

  lemma {:induction false} PushedEncode<J(!new)>(
    parse: string -> Option<J>, messages: seq<Message>, calls: seq<ToolCall>, results: seq<Option<string>>)
    requires |results| >= |calls| && AllEncode(parse, messages)
    ensures AllEncode(parse, Pushed(messages, calls, results).0)
    decreases |calls|
  {
    if calls != [] && results[0].Some? {
      PushedEncode(parse, messages + [Tool(Some(calls[0].id), results[0].value)], calls[1..], results[1..]);
    }
  }

  lemma {:induction false} SentEncode<J(!new)>(
    parse: string -> Option<J>, messages: seq<Message>, world: seq<World>, round: nat, i: nat)
    requires WorldFits(world) && round <= MAX_PROVIDER_ROUNDS && WorldParses(parse, world)
    requires AllEncode(parse, messages) && i < |Loop(messages, world, round).sent|
    ensures AllEncode(parse, Loop(messages, world, round).sent[i])
    decreases MAX_PROVIDER_ROUNDS - round
  {
    if i > 0 {
      var r := world[round].response.value;
      AnswerEncodes(parse, r);
      AllEncodeConcat(parse, messages, [AssistantMessage(r)]);
      PushedEncode(parse, messages + [AssistantMessage(r)], r.calls, world[round].results);
      SentEncode(parse, Pushed(messages + [AssistantMessage(r)], r.calls, world[round].results).0, world, round + 1,
        i - 1);
    }
  }

  /** Every conversation the loop sends encodes exactly when the assembled context does. */
  lemma {:induction false} SentEncodesIff<J(!new)>(
    parse: string -> Option<J>, base: seq<Message>, world: seq<World>, i: nat)
    requires WorldFits(world) && WorldParses(parse, world) && i < |Loop(base, world, 0).sent|
    ensures Turns(parse, Loop(base, world, 0).sent[i]).Some? <==> Turns(parse, base).Some?
  {
    var ms := Loop(base, world, 0).sent[i];
    EverySentRequestPaired(base, world);
    assert ms == base + ms[|base|..];
    AllEncodeConcat(parse, base, ms[|base|..]);
    EncodesIff(parse, ms);
    EncodesIff(parse, base);
    if AllEncode(parse, base) { SentEncode(parse, base, world, 0, i); }
  }

  // ---- the encoded request ----

  lemma {:induction false} PairedTurns<J>(parse: string -> Option<J>, ms: seq<Message>)
    requires Paired(ms) && Turns(parse, ms).Some?
    ensures AnsweredTurns(Merge(Turns(parse, ms).value))
    ensures |ms| > 0 ==> |Merge(Turns(parse, ms).value)| >= 2
    decreases |ms|
  {
    if ms != [] {
      var n := |ms[0].calls| + 1;
      assert ms == ms[..n] + ms[n..];
      TurnsConcat(parse, ms[..n], ms[n..]);
      GroupPrefix(ms);
      PairEncodes(parse, ms[..n]);
      PairedTurns(parse, ms[n..]);
      var x, y := Turns(parse, ms[..n]).value, Turns(parse, ms[n..]).value;
      MergeConcat(x, y);
      AnsweredConcat(Merge(x), Merge(y));
    }
  }

  /** Every call of the conversation is whole and its arguments parse. */
  predicate CallsWhole<J>(parse: string -> Option<J>, ms: seq<Message>) {
    forall i :: 0 <= i < |ms| && ms[i].Assistant? ==>
      forall c :: c in ms[i].calls ==> c.id.Some? && c.name.Some? && parse(c.args).Some?
  }

  lemma {:induction false} WholePairedEncodes<J(!new)>(parse: string -> Option<J>, ms: seq<Message>)
    requires Paired(ms) && CallsWhole(parse, ms)
    ensures AllEncode(parse, ms)
    decreases |ms|
  {
    if ms != [] {
      var n := |ms[0].calls| + 1;
      WholePairedEncodes(parse, ms[n..]);
      GroupEncodes(parse, ms);
      assert ms == ms[..n] + ms[n..];
      AllEncodeConcat(parse, ms[..n], ms[n..]);
    }
  }

  lemma GroupEncodes<J(!new)>(parse: string -> Option<J>, ms: seq<Message>)
    requires ms != [] && Group(ms) && CallsWhole(parse, ms)
    ensures AllEncode(parse, ms[..|ms[0].calls| + 1])
  {
    var n := |ms[0].calls| + 1;
    UsesEncode(parse, ms[0].calls);
    forall m | m in ms[..n] ensures Encodes(parse, m) {
      var j :| 0 <= j < n && ms[..n][j] == m;
      assert ms[j] == m;
    }
  }

  /** A paired conversation whose calls are whole becomes strictly alternating turns in which every
      use is answered in the very next user turn. */
  lemma {:induction false} PairedEncodesAnswered<J(!new)>(parse: string -> Option<J>, ms: seq<Message>)
    requires Paired(ms) && CallsWhole(parse, ms)
    ensures Turns(parse, ms).Some? && AnsweredTurns(Merge(Turns(parse, ms).value))
  {
    WholePairedEncodes(parse, ms);
    EncodesIff(parse, ms);
    PairedTurns(parse, ms);
  }

  /** What the Messages endpoint gets at every round, whenever the assembled context encodes:
      strictly alternating roles; and behind the context exactly the answered turns of the loop, of
      which only the first may be continued from a last assistant turn of the context. */
  lemma {:induction false} EncodedRequestAnswered<J(!new)>(
    parse: string -> Option<J>, base: seq<Message>, world: seq<World>, i: nat)
    requires WorldFits(world) && WorldParses(parse, world) && i < |Loop(base, world, 0).sent|
    requires Turns(parse, base).Some?
    ensures Turns(parse, Loop(base, world, 0).sent[i]).Some?
    ensures var turns := Turns(parse, Loop(base, world, 0).sent[i]).value;
      && Alternates(Merge(turns)) && Flat(Merge(turns)) == Flat(turns)
      && exists tail :: AnsweredTurns(tail) && Merge(turns) == Glue(Merge(Turns(parse, base).value), tail)
  {
    SentEncodesIff(parse, base, world, i);
    EverySentRequestPaired(base, world);
    var ms := Loop(base, world, 0).sent[i];
    assert ms == base + ms[|base|..];
    TurnsConcat(parse, base, ms[|base|..]);
    var x, y := Turns(parse, base).value, Turns(parse, ms[|base|..]).value;
    MergeLaws(x + y);
    MergeConcat(x, y);
    PairedTurns(parse, ms[|base|..]);
    assert AnsweredTurns(Merge(y));
  }
}
