/** What the chat tail owes its clients: a cut client can come back as long as the turn is kept, and then
    gets the rest; and every frame can be told back into its event. */
module ChatResume {
  import opened Options
  import opened Strings
  import opened ChatTail

  // ---- how long a turn is kept ----

  /** The step takes the chat out of the registry: removal from outside, the deadline, or a handler that
      leaves without having lost its socket. */
  predicate Unregisters(s: State, l: Step)
    requires Enabled(s, l)
  {
    l.Forget? || l.Expire? || (l.Leave? && !s.conns[l.conn].disconnected)
  }

  lemma {:induction false} RegisteredIff(trace: seq<State>, steps: seq<Step>, n: nat)
    requires Run(trace, steps) && n < |trace|
    ensures trace[n].registered <==> forall m :: 0 <= m < n ==> !Unregisters(trace[m], steps[m])
  {
    if n > 0 { RegisteredIff(trace, steps, n - 1); }
  }

  /** A turn is over with its first failure or finish: nothing comes behind it, and before it the turn
      goes on. */
  lemma OverWithFirstEnd(trace: seq<State>, steps: seq<Step>, n: nat)
    requires Run(trace, steps) && n < |trace|
    ensures var buffer := trace[n].buffer;
      && (forall j :: 0 <= j < |buffer| - 1 ==> !buffer[j].Failed? && !buffer[j].Finished?)
      && (trace[n].terminal <==> buffer != [] && (buffer[|buffer| - 1].Failed? || buffer[|buffer| - 1].Finished?))
      && (!trace[n].terminal ==> forall e :: Enabled(trace[n], Append(e)))
  {
    RunKeepsInv(trace, steps, n);
    assert forall j :: 0 <= j < |trace[n].buffer| ==>
      (Terminal(trace[n].buffer[j]) <==> trace[n].terminal && j == |trace[n].buffer| - 1);
  }

  // ---- a cut client that comes back ----

  /** The steps of a connection that nothing disturbs. */
  predicate Smooth(l: Step) {
    l.Attach? || l.Take? || (l.Write? && l.ok) || l.Deliver?
  }

  /** `longer` goes on from `trace` with such steps only. */
  ghost predicate GoesOn(trace: seq<State>, steps: seq<Step>, longer: seq<State>, more: seq<Step>) {
    && Run(longer, more) && |steps| <= |more| && |trace| <= |longer|
    && more[..|steps|] == steps && longer[..|trace|] == trace
    && forall i :: |steps| <= i < |more| ==> Smooth(more[i])
  }

  lemma OneStep(trace: seq<State>, steps: seq<Step>, l: Step) returns (longer: seq<State>, more: seq<Step>)
    requires Run(trace, steps) && Enabled(trace[|trace| - 1], l) && Smooth(l)
    ensures GoesOn(trace, steps, longer, more)
    ensures longer[|longer| - 1] == Apply(trace[|trace| - 1], l)
  {
    longer, more := ExtendRun(trace, steps, l);
    longer, more := trace + [Apply(trace[|trace| - 1], l)], steps + [l];
  }

  lemma GoesOnTwice(
    a: seq<State>, x: seq<Step>, b: seq<State>, y: seq<Step>, c: seq<State>, z: seq<Step>)
    requires Run(a, x) && GoesOn(a, x, b, y) && GoesOn(b, y, c, z)
    ensures GoesOn(a, x, c, z)
  {
    assert z[..|x|] == z[..|y|][..|x|] && c[..|a|] == c[..|b|][..|a|];
    forall i | |x| <= i < |z| ensures Smooth(z[i]) {
      if i < |y| { assert z[i] == z[..|y|][i]; }
    }
  }

  lemma {:induction false} FreshKey(conns: map<nat, Conn>) returns (k: nat)
    ensures k !in conns
  {
    k := Above(conns.Keys);
  }

  lemma {:induction false} Above(keys: set<nat>) returns (k: nat)
    ensures forall x :: x in keys ==> x < k
  {
    if keys == {} {
      k := 0;
    } else {
      var x :| x in keys;
      k := Above(keys - {x});
      if x >= k { k := x + 1; }
      assert keys == (keys - {x}) + {x};
    }
  }

  /** The handler of the client has taken the whole buffer, is unfinished, and nothing before the last
      event will stop it. */
  ghost predicate Sending(s: State, k: nat) {
    && s.client.current == Some(k) && k in s.conns
    && var c := s.conns[k];
       && c.at <= |s.buffer| && c.pending == s.buffer[c.at..] && !c.expired && !c.disconnected
       && (c.pending != [] ==> !c.finished)
       && forall j :: c.at <= j < |s.buffer| - 1 ==> !Stops(s.buffer[j])
  }

  /** Every pending event is written. */
  lemma {:induction false} WritesAll(trace: seq<State>, steps: seq<Step>, k: nat)
    returns (longer: seq<State>, more: seq<Step>)
    requires Run(trace, steps) && Sending(trace[|trace| - 1], k)
    ensures GoesOn(trace, steps, longer, more)
    ensures var s, t := trace[|trace| - 1], longer[|longer| - 1];
      && t.buffer == s.buffer && t.client == s.client
      && k in t.conns && t.conns[k].at == |t.buffer|
    decreases |trace[|trace| - 1].conns[k].pending|
  {
    var s := trace[|trace| - 1];
    var c := s.conns[k];
    longer, more := trace, steps;
    if c.pending != [] {
      longer, more := OneStep(trace, steps, Write(k, true));
      WriteSends(s, k);
      var mid, after := WritesAll(longer, more, k);
      GoesOnTwice(trace, steps, longer, more, mid, after);
      longer, more := mid, after;
    }
  }

  lemma WriteSends(s: State, k: nat)
    requires Sending(s, k) && s.conns[k].pending != []
    ensures Enabled(s, Write(k, true)) && Sending(Apply(s, Write(k, true)), k)
    ensures var t := Apply(s, Write(k, true));
      t.buffer == s.buffer && t.client == s.client && |t.conns[k].pending| < |s.conns[k].pending|
  {
    var c := s.conns[k];
    assert c.pending[0] == s.buffer[c.at] && c.pending[1..] == s.buffer[c.at + 1..];
  }

  /** Everything on the wire is delivered. */
  lemma {:induction false} DeliversAll(trace: seq<State>, steps: seq<Step>, k: nat)
    returns (longer: seq<State>, more: seq<Step>)
    requires Run(trace, steps)
    requires var s := trace[|trace| - 1]; s.client.current == Some(k) && k in s.conns
    ensures GoesOn(trace, steps, longer, more)
    ensures var s, t := trace[|trace| - 1], longer[|longer| - 1];
      && t.buffer == s.buffer && t.client.current == Some(k) && k in t.conns
      && t.conns[k].at == s.conns[k].at && t.conns[k].wire == []
    decreases |trace[|trace| - 1].conns[k].wire|
  {
    var s := trace[|trace| - 1];
    longer, more := trace, steps;
    if s.conns[k].wire != [] {
      longer, more := OneStep(trace, steps, Deliver);
      var mid, after := DeliversAll(longer, more, k);
      GoesOnTwice(trace, steps, longer, more, mid, after);
      longer, more := mid, after;
    }
  }

  lemma {:induction false} AttachSends(trace: seq<State>, steps: seq<Step>)
    returns (longer: seq<State>, more: seq<Step>, k: nat)
    requires Run(trace, steps)
    requires var s := trace[|trace| - 1];
      && s.registered && s.client.current.None?
      && forall j :: s.client.lastId <= j < |s.buffer| - 1 ==> !EndsTail(s.buffer[j])
    ensures GoesOn(trace, steps, longer, more)
    ensures var s, t := trace[|trace| - 1], longer[|longer| - 1]; t.buffer == s.buffer && Sending(t, k)
  {
    var s := trace[|trace| - 1];
    RunKeepsInv(trace, steps, |trace| - 1);
    k := FreshKey(s.conns);
    var mid, after := OneStep(trace, steps, Attach(k));
    longer, more := OneStep(mid, after, Take(k));
    GoesOnTwice(trace, steps, mid, after, longer, more);
    forall j | s.client.lastId <= j < |s.buffer| - 1 ensures !Stops(s.buffer[j]) { StopsIff(s.buffer[j]); }
  }

  /** While a turn is registered, a cut client that comes back gets the whole turn so far from one more
      undisturbed connection, if nothing between its resume point and the last event ends a tail. */
  lemma {:induction false} CutClientCompletes(trace: seq<State>, steps: seq<Step>)
    returns (longer: seq<State>, more: seq<Step>)
    requires Run(trace, steps)
    requires var s := trace[|trace| - 1];
      && s.registered && s.client.current.None?
      && forall j :: s.client.lastId <= j < |s.buffer| - 1 ==> !EndsTail(s.buffer[j])
    ensures GoesOn(trace, steps, longer, more)
    ensures var s, t := trace[|trace| - 1], longer[|longer| - 1];
      t.buffer == s.buffer && t.client.received == Visible(s.buffer, 0, |s.buffer|)
  {
    var a, x, k := AttachSends(trace, steps);
    var b, y := WritesAll(a, x, k);
    longer, more := DeliversAll(b, y, k);
    GoesOnTwice(trace, steps, a, x, b, y);
    GoesOnTwice(trace, steps, b, y, longer, more);
    RunKeepsInv(longer, more, |longer| - 1);
    var t := longer[|longer| - 1];
    VisibleSplit(t.buffer, 0, t.client.lastId, |t.buffer|);
  }

  /** At the deadline the client is told so, without an id that it could resume behind. */
  lemma ExpiryTells(s: State, k: nat)
    requires Enabled(s, Expire(k))
    ensures var wire := Apply(s, Expire(k)).conns[k].wire;
      && |wire| == |s.conns[k].wire| + 1 && wire[..|wire| - 1] == s.conns[k].wire
      && wire[|wire| - 1].Notice?
      && Member(wire[|wire| - 1].payload) == Some(("error", "chat stream timed out"))
    ensures !Live(Apply(s, Expire(k)), k) && !Apply(s, Expire(k)).registered
  {
    MemberOfJson("error", "chat stream timed out");
  }

  // ---- what a frame says ----

  function HexValue(c: char): int {
    if '0' <= c <= '9' then c as int - '0' as int else c as int - 'a' as int + 10
  }

  /** The characters of a JSON string body. */
  function Unescape(s: string): string {
    if s == "" then ""
    else if s[0] != '\\' || |s| == 1 then [s[0]] + Unescape(s[1..])
    else if s[1] == 'u' && |s| >= 6 && '0' <= s[4] <= '1' && IsHexDigit(s[5]) && s[5] !in "ABCDEF" then
      [(HexValue(s[4]) * 16 + HexValue(s[5])) as char] + Unescape(s[6..])
    else
      var c := match s[1]
        case 'n' => '\n'
        case 'r' => '\r'
        case 't' => '\t'
        case 'b' => 8 as char
        case 'f' => 12 as char
        case other => other;
      [c] + Unescape(s[2..])
  }

  lemma {:induction false} EscapeFront(s: string)
    requires s != ""
    ensures Escape(s) == EscapeChar(s[0]) + Escape(s[1..])
  {
    var n := |s| - 1;
    if n == 0 {
      assert s[..0] == "" && s[1..] == "" && "" + EscapeChar(s[0]) == EscapeChar(s[0]) + "";
    } else {
      EscapeFront(s[..n]);
      assert s[..n][1..] == s[1..][..n - 1];
      Associative(EscapeChar(s[0]), Escape(s[1..][..n - 1]), EscapeChar(s[n]));
    }
  }

  lemma HexBack(c: char)
    requires |EscapeChar(c)| == 6
    ensures var e := EscapeChar(c);
      && e[0] == '\\' && e[1] == 'u' && '0' <= e[4] <= '1' && IsHexDigit(e[5]) && e[5] !in "ABCDEF"
      && HexValue(e[4]) * 16 + HexValue(e[5]) == c as int
  {}

  lemma UnescapeChar(c: char, rest: string)
    ensures Unescape(EscapeChar(c) + rest) == [c] + Unescape(rest)
  {
    var e := EscapeChar(c);
    var s := e + rest;
    assert s[|e|..] == rest && forall i :: 0 <= i < |e| ==> s[i] == e[i];
    if |e| == 6 {
      HexBack(c);
    } else if |e| == 2 {
      assert s[0] == '\\' && s[1] == e[1] != 'u';
    }
  }

  lemma {:induction false} UnescapeEscape(s: string)
    ensures Unescape(Escape(s)) == s
  {
    if s != "" {
      EscapeFront(s);
      UnescapeChar(s[0], Escape(s[1..]));
      UnescapeEscape(s[1..]);
    }
  }

  /** The key and the text of an object with one string member. */
  function Member(payload: string): Option<(string, string)> {
    if |payload| < 4 then None
    else
      var body := payload[2..|payload| - 2];
      var k := KeyEnd(body);
      if |body| < k + 3 then None else Some((body[..k], Unescape(body[k + 3..])))
  }

  function KeyEnd(s: string): (k: nat)
    ensures k <= |s| && '"' !in s[..k] && (k < |s| ==> s[k] == '"')
  {
    if s == "" || s[0] == '"' then 0 else 1 + KeyEnd(s[1..])
  }

  lemma {:induction false} KeyEndIs(key: string, rest: string)
    requires '"' !in key && rest != "" && rest[0] == '"'
    ensures KeyEnd(key + rest) == |key|
  {
    if key == "" {
      assert key + rest == rest;
    } else {
      assert (key + rest)[1..] == key[1..] + rest;
      KeyEndIs(key[1..], rest);
    }
  }

  lemma MemberOfJson(key: string, text: string)
    requires '"' !in key
    ensures Member(Json(key, text)) == Some((key, text))
  {
    var p := Json(key, text);
    var body := key + ("\":\"" + Escape(text));
    assert p == "{\"" + body + "\"}";
    assert p[2..|p| - 2] == body;
    KeyEndIs(key, "\":\"" + Escape(text));
    assert body[..|key|] == key && body[|key| + 3..] == Escape(text);
    UnescapeEscape(text);
  }

  /** Every frame says which kind of event it is and what that says. */
  lemma FrameTells(e: Event)
    ensures match e
      case Started | Quiet => Payload(e) == None
      case Text(delta) => Payload(e).Some? && Member(Payload(e).value) == Some(("delta", delta))
      case Reasoning(text) => Payload(e).Some? && Member(Payload(e).value) == Some(("reasoning", text))
      case ProviderError(error) => Payload(e).Some? && Member(Payload(e).value) == Some(("error", error))
      case Failed(message) => Payload(e).Some? && Member(Payload(e).value) == Some(("error", message))
      case Finished => Payload(e) == Some("{\"done\":true}")
  {
    match e
    case Text(delta) => MemberOfJson("delta", delta);
    case Reasoning(text) => MemberOfJson("reasoning", text);
    case ProviderError(error) => MemberOfJson("error", error);
    case Failed(message) => MemberOfJson("error", message);
    case _ =>
  }

  /** Events of one frame are of one kind and one text, the two kinds of failures aside. */
  ghost predicate SaysTheSame(e: Event, f: Event) {
    || e == f
    || (e.ProviderError? && f.Failed? && e.error == f.message)
    || (e.Failed? && f.ProviderError? && e.message == f.error)
  }

  lemma FramesTellApart(e: Event, f: Event)
    requires Payload(e).Some?
    ensures Payload(e) == Payload(f) <==> SaysTheSame(e, f)
  {
    FrameTells(e);
    FrameTells(f);
    DoneIsNoMember();
  }

  lemma DoneIsNoMember()
    ensures forall key, text :: key in {"delta", "reasoning", "error"} ==>
      Member("{\"done\":true}") != Some((key, text))
  {
    var p := "{\"done\":true}";
    assert p[2..|p| - 2] == "done\":tru";
    KeyEndIs("done", "\":tru");
    assert "done" + "\":tru" == "done\":tru";
    assert "done\":tru"[..4] == "done";
  }
}
