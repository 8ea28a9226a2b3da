/** What the provider loop sends, word for word: every request and the final outcome, read off the
    provider's answers and the tools' results alone. */
module RequestContent {
  import opened Options
  import opened Strings
  import opened ChatSummary
  import opened AnthropicRequest
  import opened ToolLoop

  // ---- the rounds of a world ----

  /** The round calls tools and gets a result for every call. */
  predicate Goes(w: World) {
    && w.response.Some?
    && var r := w.response.value;
       && r.finish != Some(Length) && r.finish != Some(Stop) && r.calls != [] && |w.results| >= |r.calls|
       && forall j :: 0 <= j < |r.calls| ==> w.results[j].Some?
  }

  /** What a round adds: the answer with its calls, then the result of each call, in order. */
  function RoundMessages(w: World): seq<Message>
    requires Goes(w)
  {
    var r := w.response.value;
    [Assistant([r.text], seq(|r.calls|, j requires 0 <= j < |r.calls| =>
       AnthropicRequest.Call(Some(r.calls[j].id), Some(r.calls[j].name), r.calls[j].args)))]
      + seq(|r.calls|, j requires 0 <= j < |r.calls| => Tool(Some(r.calls[j].id), w.results[j].value))
  }

  ghost predicate AllGo(world: seq<World>, a: nat, b: nat) {
    b <= |world| && forall r :: a <= r < b ==> Goes(world[r])
  }

  function Rounds(world: seq<World>, a: nat, b: nat): seq<Message>
    requires AllGo(world, a, b)
    decreases b - a
  {
    if a >= b then [] else RoundMessages(world[a]) + Rounds(world, a + 1, b)
  }

  /** How the loop ends in round `r`. */
  function EndOf(w: World, r: nat): Final {
    if w.response.None? then Failed(ProviderFailed)
    else
      var answer := w.response.value;
      if answer.finish == Some(Length) then Failed(TokenLimit)
      else if answer.finish == Some(Stop) || answer.calls == [] then
        if Blank(answer.text) then Failed(NothingVisible) else Answer(answer.text, answer.reasoning, r + 1)
      else if Goes(w) then Failed(RoundLimit)
      else Failed(Interrupted)
  }

  // ---- the loop ----

  lemma {:induction false} PushedIs(messages: seq<Message>, calls: seq<ToolCall>, results: seq<Option<string>>)
    requires |results| >= |calls|
    ensures Pushed(messages, calls, results).1 <==> forall j :: 0 <= j < |calls| ==> results[j].Some?
    ensures Pushed(messages, calls, results).1 ==>
      Pushed(messages, calls, results).0 ==
      messages + seq(|calls|,
        j requires 0 <= j < |calls| && results[j].Some? => Tool(Some(calls[j].id), results[j].value))
    decreases |calls|
  {
    if calls != [] && results[0].Some? {
      PushedIs(messages + [Tool(Some(calls[0].id), results[0].value)], calls[1..], results[1..]);
      assert forall j :: 1 <= j < |calls| ==> results[j] == results[1..][j - 1] && calls[j] == calls[1..][j - 1];
    }
  }

  /** A round that goes on pushes exactly its own messages. */
  lemma RoundPushes(messages: seq<Message>, w: World)
    requires w.response.Some? && |w.results| >= |w.response.value.calls|
    requires w.response.value.finish != Some(Length) && !ToolLoop.Ends(w.response.value)
    ensures var r := w.response.value; var p := Pushed(messages + [AssistantMessage(r)], r.calls, w.results);
      && (p.1 <==> Goes(w))
      && (p.1 ==> p.0 == messages + RoundMessages(w))
  {
    var r := w.response.value;
    PushedIs(messages + [AssistantMessage(r)], r.calls, w.results);
    if Goes(w) {
      assert AssistantMessage(r) == RoundMessages(w)[0];
      assert RoundMessages(w) == [RoundMessages(w)[0]] + RoundMessages(w)[1..];
      Associative(messages, [RoundMessages(w)[0]], RoundMessages(w)[1..]);
    }
  }

  lemma RoundsFirst(world: seq<World>, a: nat, b: nat, messages: seq<Message>)
    requires a < b && AllGo(world, a, b)
    ensures messages + RoundMessages(world[a]) + Rounds(world, a + 1, b) == messages + Rounds(world, a, b)
  {
    Associative(messages, RoundMessages(world[a]), Rounds(world, a + 1, b));
  }

  /** The loop that starts in `round` goes on as long as rounds do, and ends as its last one says. */
  ghost predicate EndsRight(out: Outcome, world: seq<World>, round: nat) {
    var end := round + |out.sent|;
    && out.sent != [] && end <= MAX_PROVIDER_ROUNDS && AllGo(world, round, end - 1)
    && end <= |world| && out.final == EndOf(world[end - 1], end - 1)
    && (end == MAX_PROVIDER_ROUNDS || !Goes(world[end - 1]))
  }

  /** It sends what it started with and the messages of the rounds since. */
  ghost predicate SendsRight(out: Outcome, messages: seq<Message>, world: seq<World>, round: nat) {
    forall i :: 0 <= i < |out.sent| ==> IsSent(out.sent[i], messages, world, round, i)
  }

  ghost predicate IsSent(sent: seq<Message>, messages: seq<Message>, world: seq<World>, round: nat, i: nat) {
    AllGo(world, round, round + i) && sent == messages + Rounds(world, round, round + i)
  }

  lemma {:induction false} LoopFrom(messages: seq<Message>, world: seq<World>, round: nat)
    requires WorldFits(world) && round < MAX_PROVIDER_ROUNDS
    ensures EndsRight(Loop(messages, world, round), world, round)
    ensures SendsRight(Loop(messages, world, round), messages, world, round)
    decreases MAX_PROVIDER_ROUNDS - round
  {
    var w := world[round];
    assert messages + [] == messages;
    if w.response.Some? && w.response.value.finish != Some(Length) && !ToolLoop.Ends(w.response.value) {
      RoundPushes(messages, w);
    }
    if Goes(w) {
      if round + 1 < MAX_PROVIDER_ROUNDS {
        var rest := Loop(messages + RoundMessages(w), world, round + 1);
        LoopFrom(messages + RoundMessages(w), world, round + 1);
        MoreSent(Loop(messages, world, round), rest, messages, world, round);
        LaterEnd(Loop(messages, world, round), rest, messages, world, round);
      } else {
        assert Loop(messages + RoundMessages(w), world, round + 1) == Outcome(Failed(RoundLimit), []);
        assert [messages] + [] == [messages];
        OneSent(Loop(messages, world, round), messages, world, round);
      }
    } else {
      OneSent(Loop(messages, world, round), messages, world, round);
    }
  }

  lemma OneSent(out: Outcome, messages: seq<Message>, world: seq<World>, round: nat)
    requires round < |world| && round < MAX_PROVIDER_ROUNDS
    requires out.sent == [messages] && out.final == EndOf(world[round], round)
    requires round + 1 == MAX_PROVIDER_ROUNDS || !Goes(world[round])
    ensures EndsRight(out, world, round) && SendsRight(out, messages, world, round)
  {
    assert messages + [] == messages && Rounds(world, round, round) == [];
  }

  lemma LaterEnd(out: Outcome, rest: Outcome, messages: seq<Message>, world: seq<World>, round: nat)
    requires round < |world| && Goes(world[round])
    requires out.sent == [messages] + rest.sent && out.final == rest.final && EndsRight(rest, world, round + 1)
    ensures EndsRight(out, world, round)
  {
    var n, end := |rest.sent|, round + |out.sent|;
    assert n > 0 && |out.sent| == 1 + n && end == (round + 1) + n;
    var before := (round + 1) + n - 1;
    assert AllGo(world, round + 1, before);
    AllGoFirst(world, round, before);
    assert end - 1 == before && out.final == EndOf(world[before], before);
    assert AllGo(world, round, end - 1);
  }

  lemma MoreSent(out: Outcome, rest: Outcome, messages: seq<Message>, world: seq<World>, round: nat)
    requires round < |world| && Goes(world[round]) && out.sent == [messages] + rest.sent
    requires SendsRight(rest, messages + RoundMessages(world[round]), world, round + 1)
    ensures SendsRight(out, messages, world, round)
  {
    forall i | 0 <= i < |out.sent| ensures IsSent(out.sent[i], messages, world, round, i) {
      if i == 0 {
        assert messages + [] == messages;
      } else {
        var k := i - 1;
        assert out.sent[i] == rest.sent[k];
        assert IsSent(rest.sent[k], messages + RoundMessages(world[round]), world, round + 1, k);
        FirstInFront(messages, world, round, round + 1 + k, rest.sent[k]);
      }
    }
  }

  lemma FirstInFront(messages: seq<Message>, world: seq<World>, a: nat, b: nat, sent: seq<Message>)
    requires a < b && a < |world| && Goes(world[a]) && AllGo(world, a + 1, b)
    requires sent == messages + RoundMessages(world[a]) + Rounds(world, a + 1, b)
    ensures AllGo(world, a, b) && sent == messages + Rounds(world, a, b)
  {
    AllGoFirst(world, a, b);
    RoundsFirst(world, a, b, messages);
  }

  lemma AllGoFirst(world: seq<World>, a: nat, b: nat)
    requires a < |world| && Goes(world[a]) && AllGo(world, a + 1, b)
    ensures AllGo(world, a, b)
  {}

  lemma SentAre(out: Outcome, base: seq<Message>, world: seq<World>)
    requires SendsRight(out, base, world, 0)
    ensures forall i :: 0 <= i < |out.sent| ==> AllGo(world, 0, i) && out.sent[i] == base + Rounds(world, 0, i)
  {
    forall i | 0 <= i < |out.sent| ensures AllGo(world, 0, i) && out.sent[i] == base + Rounds(world, 0, i) {
      assert IsSent(out.sent[i], base, world, 0, i);
    }
  }

  /** The `i`-th request is the context and the messages of the first `i` rounds, all of which called
      tools and got every result; the loop goes on exactly as long as rounds do, up to 32, and ends as
      its last round says. */
  lemma {:induction false} RequestsAre(base: seq<Message>, world: seq<World>)
    requires WorldFits(world)
    ensures var out := Loop(base, world, 0); var n := |out.sent|;
      && 1 <= n <= MAX_PROVIDER_ROUNDS && AllGo(world, 0, n - 1)
      && (n == MAX_PROVIDER_ROUNDS || !Goes(world[n - 1])) && out.final == EndOf(world[n - 1], n - 1)
      && (forall i :: 0 <= i < n ==> AllGo(world, 0, i) && out.sent[i] == base + Rounds(world, 0, i))
  {
    LoopFrom(base, world, 0);
    SentAre(Loop(base, world, 0), base, world);
  }

  // ---- on the wire ----

  /** The answer of a round: its text, if there is any, and a use block per call. */
  function AnswerBlocks<J>(parse: string -> Option<J>, r: Response): seq<Block<J>>
    requires ArgumentsParse(parse, r.calls)
  {
    (if r.text == "" then [] else [TextBlock(r.text)])
      + seq(|r.calls|, j requires 0 <= j < |r.calls| =>
          ToolUse(r.calls[j].id, r.calls[j].name, parse(r.calls[j].args).value))
  }

  /** Its results: a block per call, with the very text of the result. */
  function ResultBlocks<J>(w: World): seq<Block<J>>
    requires Goes(w)
  {
    var r := w.response.value;
    seq(|r.calls|, j requires 0 <= j < |r.calls| => ToolResult(r.calls[j].id, w.results[j].value))
  }

  function RoundTurns<J>(parse: string -> Option<J>, w: World): seq<Turn<J>>
    requires Goes(w) && ArgumentsParse(parse, w.response.value.calls)
  {
    [Turn(AssistantRole, AnswerBlocks(parse, w.response.value)), Turn(UserRole, ResultBlocks(w))]
  }

  function AllTurns<J>(parse: string -> Option<J>, world: seq<World>, a: nat, b: nat): seq<Turn<J>>
    requires AllGo(world, a, b)
    requires forall r :: a <= r < b ==> ArgumentsParse(parse, world[r].response.value.calls)
    decreases b - a
  {
    if a >= b then [] else RoundTurns(parse, world[a]) + AllTurns(parse, world, a + 1, b)
  }

  lemma {:induction false} UsesAre<J>(parse: string -> Option<J>, calls: seq<AnthropicRequest.Call>)
    requires forall j :: 0 <= j < |calls| ==>
      calls[j].id.Some? && calls[j].name.Some? && parse(calls[j].args).Some?
    ensures var uses := UseBlocks(parse, calls);
      && uses.Some? && |uses.value| == |calls|
      && forall j :: 0 <= j < |calls| ==>
           uses.value[j] == ToolUse(calls[j].id.value, calls[j].name.value, parse(calls[j].args).value)
  {
    if calls != [] { UsesAre(parse, calls[1..]); }
  }

  lemma AnswerEncoded<J>(parse: string -> Option<J>, w: World)
    requires Goes(w) && ArgumentsParse(parse, w.response.value.calls)
    ensures EncodeMessage(parse, RoundMessages(w)[0]) ==
      Spoken(Turn(AssistantRole, AnswerBlocks(parse, w.response.value)))
  {
    var r := w.response.value;
    var m := RoundMessages(w)[0];
    UsesAre(parse, m.calls);
    assert [r.text][1..] == [];
    var text: seq<Block<J>> := if r.text == "" then [] else [TextBlock(r.text)];
    assert TextBlocks([r.text]) == text + [];
    assert UseBlocks(parse, m.calls).value == AnswerBlocks(parse, r)[|text|..];
  }

  /** The results one by one are single turns that merge into one. */
  lemma {:induction false} ResultsEncoded<J>(
    parse: string -> Option<J>, calls: seq<ToolCall>, contents: seq<string>, ms: seq<Message>)
    requires |contents| == |ms| == |calls|
    requires forall j :: 0 <= j < |ms| ==> ms[j] == Tool(Some(calls[j].id), contents[j])
    ensures Turns(parse, ms).Some?
    ensures var turns := Turns(parse, ms).value;
      |turns| == |ms|
      && forall j :: 0 <= j < |ms| ==> turns[j] == Turn(UserRole, [ToolResult(calls[j].id, contents[j])])
  {
    if ms != [] { ResultsEncoded(parse, calls[1..], contents[1..], ms[1..]); }
  }

  lemma {:induction false} UserTurnsMerge<J>(turns: seq<Turn<J>>, blocks: seq<Block<J>>)
    requires turns != [] && |blocks| == |turns|
    requires forall j :: 0 <= j < |turns| ==> turns[j] == Turn(UserRole, [blocks[j]])
    ensures Merge(turns) == [Turn(UserRole, blocks)]
  {
    var n := |turns| - 1;
    assert turns[..n] + [turns[n]] == turns && blocks == blocks[..n] + [blocks[n]];
    if n > 0 {
      UserTurnsMerge(turns[..n], blocks[..n]);
    } else {
      assert turns[..0] == [] && blocks == [blocks[0]];
    }
  }

  lemma RoundTurned<J>(parse: string -> Option<J>, w: World)
    requires Goes(w) && ArgumentsParse(parse, w.response.value.calls)
    ensures var results := Turns(parse, RoundMessages(w)[1..]);
      && results.Some? && results.value != [] && Merge(results.value) == [Turn(UserRole, ResultBlocks<J>(w))]
      && Turns(parse, RoundMessages(w)) ==
           Some([Turn(AssistantRole, AnswerBlocks(parse, w.response.value))] + results.value)
  {
    var ms, calls := RoundMessages(w), w.response.value.calls;
    var contents := seq(|calls|, j requires 0 <= j < |calls| => w.results[j].value);
    AnswerEncoded(parse, w);
    ResultsEncoded(parse, calls, contents, ms[1..]);
    UserTurnsMerge(Turns(parse, ms[1..]).value, ResultBlocks(w));
  }

  lemma AnswerThenResults<J>(answer: Turn<J>, results: seq<Turn<J>>, merged: Turn<J>)
    requires answer.role != merged.role && Merge(results) == [merged]
    ensures Merge([answer] + results) == [answer, merged]
  {
    MergeConcat([answer], results);
    assert [answer][..0] == [] && [merged][1..] == [];
    assert Merge([answer]) == [answer];
  }

  lemma {:induction false} RoundEncoded<J>(parse: string -> Option<J>, w: World)
    requires Goes(w) && ArgumentsParse(parse, w.response.value.calls)
    ensures EncodesTo(parse, RoundMessages(w), RoundTurns(parse, w))
  {
    RoundTurned(parse, w);
    var answer := Turn(AssistantRole, AnswerBlocks(parse, w.response.value));
    AnswerThenResults(answer, Turns(parse, RoundMessages(w)[1..]).value, Turn(UserRole, ResultBlocks(w)));
  }

  /** The conversation encodes, to these merged turns. */
  ghost predicate EncodesTo<J>(parse: string -> Option<J>, ms: seq<Message>, turns: seq<Turn<J>>) {
    Turns(parse, ms).Some? && Merge(Turns(parse, ms).value) == turns
  }

  lemma {:induction false} RoundsEncoded<J>(parse: string -> Option<J>, world: seq<World>, a: nat, b: nat)
    requires AllGo(world, a, b)
    requires forall r :: a <= r < b ==> ArgumentsParse(parse, world[r].response.value.calls)
    ensures EncodesTo(parse, Rounds(world, a, b), AllTurns(parse, world, a, b))
    decreases b - a
  {
    if a < b {
      RoundEncoded(parse, world[a]);
      RoundsEncoded(parse, world, a + 1, b);
      MoreEncoded(parse, world, a, b);
    }
  }

  lemma MoreEncoded<J>(parse: string -> Option<J>, world: seq<World>, a: nat, b: nat)
    requires a < b && AllGo(world, a, b)
    requires forall r :: a <= r < b ==> ArgumentsParse(parse, world[r].response.value.calls)
    requires EncodesTo(parse, RoundMessages(world[a]), RoundTurns(parse, world[a]))
    requires EncodesTo(parse, Rounds(world, a + 1, b), AllTurns(parse, world, a + 1, b))
    ensures EncodesTo(parse, Rounds(world, a, b), AllTurns(parse, world, a, b))
  {
    BothEncoded(parse, RoundMessages(world[a]), Rounds(world, a + 1, b), RoundTurns(parse, world[a]),
      AllTurns(parse, world, a + 1, b));
    FirstRound(parse, world, a, b);
  }

  lemma BothEncoded<J>(
    parse: string -> Option<J>, x: seq<Message>, y: seq<Message>, a: seq<Turn<J>>, b: seq<Turn<J>>)
    requires EncodesTo(parse, x, a) && EncodesTo(parse, y, b)
    ensures EncodesTo(parse, x + y, Glue(a, b))
  {
    TurnsConcat(parse, x, y);
    MergeConcat(Turns(parse, x).value, Turns(parse, y).value);
  }

  /** Rounds never share a turn: one ends with the user's, and the next begins with an answer. */
  lemma FirstRound<J>(parse: string -> Option<J>, world: seq<World>, a: nat, b: nat)
    requires a < b && AllGo(world, a, b)
    requires forall r :: a <= r < b ==> ArgumentsParse(parse, world[r].response.value.calls)
    ensures Glue(RoundTurns(parse, world[a]), AllTurns(parse, world, a + 1, b)) == AllTurns(parse, world, a, b)
  {
    if a + 1 < b {
      assert AllTurns(parse, world, a + 1, b)[0] == RoundTurns(parse, world[a + 1])[0];
    }
    GlueApart(RoundTurns(parse, world[a]), AllTurns(parse, world, a + 1, b));
  }

  lemma GlueApart<J>(a: seq<Turn<J>>, b: seq<Turn<J>>)
    requires a != [] && (b != [] ==> a[|a| - 1].role != b[0].role)
    ensures Glue(a, b) == a + b
  {
    if b != [] { assert b == [b[0]] + b[1..]; }
  }

  /** On the wire, behind the merged turns of the context stand exactly the answers and results of the
      rounds so far, block by block. */
  lemma {:induction false} RequestSays<J(!new)>(
    parse: string -> Option<J>, base: seq<Message>, world: seq<World>, i: nat)
    requires WorldFits(world) && WorldParses(parse, world) && i < |Loop(base, world, 0).sent|
    requires Turns(parse, base).Some?
    ensures AllGo(world, 0, i) && Turns(parse, Loop(base, world, 0).sent[i]).Some?
    ensures Merge(Turns(parse, Loop(base, world, 0).sent[i]).value) ==
      Glue(Merge(Turns(parse, base).value), AllTurns(parse, world, 0, i))
  {
    RequestsAre(base, world);
    RoundsEncoded(parse, world, 0, i);
    BothEncoded(parse, base, Rounds(world, 0, i), Merge(Turns(parse, base).value), AllTurns(parse, world, 0, i));
  }

  // ---- what a context says ----

  function NotEmpty(parts: seq<string>): seq<string> {
    if parts == [] then [] else (if parts[0] == "" then [] else [parts[0]]) + NotEmpty(parts[1..])
  }

  function Texts<J>(role: Role, parts: seq<string>): (said: seq<(Role, Block<J>)>)
    ensures |said| == |parts| && forall j :: 0 <= j < |parts| ==> said[j] == (role, TextBlock(parts[j]))
  {
    seq(|parts|, j requires 0 <= j < |parts| => (role, TextBlock(parts[j])))
  }

  /** What a message says: its non-empty texts, then its calls; or a tool's result; a system message
      says nothing in the conversation. */
  ghost predicate Says<J(!new)>(parse: string -> Option<J>, m: Message, said: seq<(Role, Block<J>)>) {
    match m
    case System(_) => said == []
    case User(parts) => said == Texts(UserRole, NotEmpty(parts))
    case Tool(callId, content) => callId.Some? && said == [(UserRole, ToolResult(callId.value, content))]
    case Assistant(parts, calls) =>
      && |said| == |NotEmpty(parts)| + |calls|
      && said[..|NotEmpty(parts)|] == Texts(AssistantRole, NotEmpty(parts))
      && forall j :: 0 <= j < |calls| ==>
           && calls[j].id.Some? && calls[j].name.Some? && parse(calls[j].args).Some?
           && said[|NotEmpty(parts)| + j] ==
                (AssistantRole, ToolUse(calls[j].id.value, calls[j].name.value, parse(calls[j].args).value))
  }

  /** A system message is lifted out with its non-empty texts. */
  lemma {:induction false} SystemLifted<J>(parse: string -> Option<J>, parts: seq<string>)
    ensures EncodeMessage(parse, System(parts)) == Lifted(NotEmpty(parts))
  {
    if parts != [] { SystemLifted(parse, parts[1..]); }
  }

  function Concat<T>(parts: seq<seq<T>>): seq<T> {
    if parts == [] then [] else parts[0] + Concat(parts[1..])
  }

  lemma {:induction false} BlocksAre<J>(parts: seq<string>)
    ensures |TextBlocks<J>(parts)| == |NotEmpty(parts)|
    ensures forall j :: 0 <= j < |NotEmpty(parts)| ==> TextBlocks<J>(parts)[j] == TextBlock(NotEmpty(parts)[j])
  {
    if parts != [] { BlocksAre<J>(parts[1..]); }
  }

  lemma {:induction false} UsesExact<J>(parse: string -> Option<J>, calls: seq<AnthropicRequest.Call>)
    requires UseBlocks(parse, calls).Some?
    ensures var uses := UseBlocks(parse, calls).value;
      && |uses| == |calls|
      && forall j :: 0 <= j < |calls| ==>
           && calls[j].id.Some? && calls[j].name.Some? && parse(calls[j].args).Some?
           && uses[j] == ToolUse(calls[j].id.value, calls[j].name.value, parse(calls[j].args).value)
  {
    if calls != [] { UsesExact(parse, calls[1..]); }
  }

  lemma AnswerSays<J(!new)>(parse: string -> Option<J>, parts: seq<string>, calls: seq<AnthropicRequest.Call>)
    requires UseBlocks(parse, calls).Some?
    ensures var blocks := TextBlocks(parts) + UseBlocks(parse, calls).value;
      Says(parse, Assistant(parts, calls), Said(Turn(AssistantRole, blocks)))
  {
    BlocksAre<J>(parts);
    UsesExact(parse, calls);
  }

  lemma UserSays<J(!new)>(parse: string -> Option<J>, parts: seq<string>)
    ensures Says(parse, User(parts), Said(Turn(UserRole, TextBlocks(parts))))
  {
    BlocksAre<J>(parts);
  }

  /** What a message adds to the conversation. */
  function Added<J>(parse: string -> Option<J>, m: Message): seq<(Role, Block<J>)> {
    var e := EncodeMessage(parse, m);
    if e.Spoken? then Said(e.turn) else []
  }

  lemma MessageSays<J(!new)>(parse: string -> Option<J>, m: Message)
    requires !EncodeMessage(parse, m).Malformed?
    ensures Says(parse, m, Added(parse, m))
  {
    match m
    case System(_) =>
    case Tool(_, _) =>
    case User(parts) => UserSays(parse, parts);
    case Assistant(parts, calls) => AnswerSays(parse, parts, calls);
  }

  lemma {:induction false} FlatFront<J>(t: Turn<J>, turns: seq<Turn<J>>)
    ensures Flat([t] + turns) == Said(t) + Flat(turns)
  {
    if turns == [] {
      FlatSnoc([], t);
      assert [t] + turns == [] + [t] && Said(t) + [] == Said(t);
    } else {
      var n := |turns| - 1;
      FlatFront(t, turns[..n]);
      FlatLast(t, turns);
      Associative(Said(t), Flat(turns[..n]), Said(turns[n]));
    }
  }

  lemma FlatLast<J>(t: Turn<J>, turns: seq<Turn<J>>)
    requires turns != []
    ensures var n := |turns| - 1;
      && Flat([t] + turns) == Flat([t] + turns[..n]) + Said(turns[n])
      && Flat(turns) == Flat(turns[..n]) + Said(turns[n])
  {
    var n := |turns| - 1;
    FrontLast(t, turns);
    FlatSnoc([t] + turns[..n], turns[n]);
    FlatSnoc(turns[..n], turns[n]);
  }

  lemma FrontLast<T>(t: T, s: seq<T>)
    requires s != []
    ensures var n := |s| - 1; [t] + s == [t] + s[..n] + [s[n]] && s == s[..n] + [s[n]]
  {}

  lemma TurnsStep<J(!new)>(parse: string -> Option<J>, ms: seq<Message>)
    requires ms != [] && Turns(parse, ms).Some?
    ensures Turns(parse, ms[1..]).Some? && !EncodeMessage(parse, ms[0]).Malformed?
    ensures Flat(Turns(parse, ms).value) == Added(parse, ms[0]) + Flat(Turns(parse, ms[1..]).value)
  {
    var e, rest := EncodeMessage(parse, ms[0]), Turns(parse, ms[1..]).value;
    if e.Spoken? { FlatFront(e.turn, rest); } else { assert [] + Flat(rest) == Flat(rest); }
  }

  lemma {:induction false} TurnsSay<J(!new)>(parse: string -> Option<J>, ms: seq<Message>)
    returns (said: seq<seq<(Role, Block<J>)>>)
    requires Turns(parse, ms).Some?
    ensures |said| == |ms| && forall i :: 0 <= i < |ms| ==> Says(parse, ms[i], said[i])
    ensures Flat(Turns(parse, ms).value) == Concat(said)
    decreases |ms|
  {
    if ms == [] {
      said := [];
    } else {
      TurnsStep(parse, ms);
      MessageSays(parse, ms[0]);
      var rest := TurnsSay(parse, ms[1..]);
      said := [Added(parse, ms[0])] + rest;
      assert said[1..] == rest;
    }
  }

  /** A conversation that encodes says on the wire what its messages say, one after the other. */
  lemma {:induction false} ConversationSays<J(!new)>(parse: string -> Option<J>, ms: seq<Message>)
    returns (said: seq<seq<(Role, Block<J>)>>)
    requires Turns(parse, ms).Some?
    ensures |said| == |ms| && forall i :: 0 <= i < |ms| ==> Says(parse, ms[i], said[i])
    ensures Flat(Merge(Turns(parse, ms).value)) == Concat(said)
  {
    said := TurnsSay(parse, ms);
    MergeLaws(Turns(parse, ms).value);
  }
}
