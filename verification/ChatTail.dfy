/** The resumable chat tail of `src/control_server.rs`: a producer appends provider events
    to a buffer, server threads replay it to event-stream connections, connections are cut at
    any frame, and a client comes back with the last id it received. */
module ChatTail {
  import opened Options
  import opened Strings

  // ---- events and the JSON payloads they are sent as ----

  /** An entry of the retained buffer. `Quiet` stands for the provider events that are kept but
      never forwarded: tool-call fragments, metadata and the finish marker. */
  datatype Event =
    | Started
    | Text(delta: string)
    | Reasoning(text: string)
    | Quiet
    | ProviderError(error: string)
    | Failed(message: string)
    | Finished

  predicate Terminal(e: Event) {
    e.Failed? || e.Finished?
  }

  /** One character of a JSON string body, as `serde_json` renders it. */
  function EscapeChar(c: char): (r: string)
    ensures r != []
    ensures |r| == 1 ==> r == [c] && c != '"'
    ensures |r| == 2 ==> r[0] == '\\'
    ensures |r| > 2 ==> |r| == 6 && r[4] in "01" && r[5] != '"'
  {
    if c == '"' then "\\\""
    else if c == '\\' then "\\\\"
    else if c == '\n' then "\\n"
    else if c == '\r' then "\\r"
    else if c == '\t' then "\\t"
    else if c as int == 8 then "\\b"
    else if c as int == 12 then "\\f"
    else if c as int < 0x20 then "\\u00" + [Strings.LowerHex(c as int / 16), Strings.LowerHex(c as int % 16)]
    else [c]
  }

  function FlatMap(f: char -> string, s: string): string {
    if s == [] then [] else FlatMap(f, s[..|s| - 1]) + f(s[|s| - 1])
  }

  function Escape(s: string): string {
    FlatMap(EscapeChar, s)
  }

  /** `{"<key>":"<text>"}`. */
  function Json(key: string, text: string): string {
    "{\"" + key + "\":\"" + Escape(text) + "\"}"
  }

  /** What a buffered event is forwarded as; `None` for the ones that are not forwarded. */
  function Payload(e: Event): Option<string> {
    match e
    case Started | Quiet => None
    case Text(delta) => Some(Json("delta", delta))
    case Reasoning(text) => Some(Json("reasoning", text))
    case ProviderError(error) => Some(Json("error", error))
    case Failed(message) => Some(Json("error", message))
    case Finished => Some("{\"done\":true}")
  }

  const ERROR_MARK := "\"error\""

  predicate EndsWith(text: string, tail: string) {
    |tail| <= |text| && text[|text| - |tail|..] == tail
  }

  /** The test after a forwarded provider event: the payload mentions `"error"` anywhere. */
  predicate MarksError(payload: string) {
    Contains(payload, ERROR_MARK)
  }

  // ---- one connection ----

  /** An SSE frame: an id-carrying one, or the id-less notice of an expired deadline. */
  datatype Frame = Frame(id: nat, payload: string) | Notice(payload: string)

  /** A connection as its server thread sees it: `index` of the drain loop, the batch taken
      from the buffer and the position of its first event, and what was written so far. */
  datatype Conn = Conn(index: nat, at: nat, pending: seq<Event>, finished: bool, disconnected: bool, expired: bool,
    wire: seq<Frame>)

  /** One turn of the inner loop; `ok` is the outcome of the socket write. */
  function WriteOne(c: Conn, ok: bool): Conn
    requires c.pending != []
  {
    var e := c.pending[0];
    var past := c.(at := c.at + 1, pending := c.pending[1..]);
    match Payload(e)
    case None => past
    case Some(payload) =>
      if !ok then c.(disconnected := true, finished := true)
      else past.(wire := c.wire + [Frame(c.at + 1, payload)],
                 finished := c.finished || Terminal(e) || MarksError(payload))
  }

  function WriteRun(c: Conn, oks: seq<bool>): (r: Conn)
    requires c.finished || |oks| >= |c.pending|
    decreases |c.pending|, !c.finished
  {
    if c.finished || c.pending == [] then c else WriteRun(WriteOne(c, oks[0]), oks[1..])
  }

  /** The shared buffer, filled by the forwarder thread of one chat turn. */
  class ChatBuffer {
    var events: seq<Event>
    var terminal: bool

    ghost predicate Valid() reads this {
      Sealed(events, terminal)
    }

    constructor ()
      ensures Valid() && events == [] && !terminal
    {
      events, terminal := [], false;
    }

    /** The forwarder: append, and stop after a terminal event. */
    method Forward(e: Event) returns (more: bool)
      requires Valid() && !terminal
      modifies this
      ensures Valid()
      ensures events == old(events) + [e] && terminal == Terminal(e) && more == !terminal
    {
      events := events + [e];
      if Terminal(e) { terminal := true; }
      more := !terminal;
    }
  }

  /** The event-stream handler of one connection. */
  class TailHandler {
    var index: nat
    var finished: bool
    var disconnected: bool
    var expired: bool
    var wire: seq<Frame>

    ghost function View(at: nat, pending: seq<Event>): Conn reads this {
      Conn(index, at, pending, finished, disconnected, expired, wire)
    }

    /** Attach: resume after the id of the request header, clamped to the buffer. */
    constructor (buffer: ChatBuffer, lastEventId: Option<nat>)
      ensures View(index, []) == Opened(buffer.events, lastEventId)
    {
      var resume := if lastEventId.Some? then lastEventId.value else 0;
      index := if resume > |buffer.events| then |buffer.events| else resume;
      finished, disconnected, expired, wire := false, false, false, [];
    }

    /** Take everything that arrived since the last batch. */
    method Drain(buffer: ChatBuffer) returns (at: nat, pending: seq<Event>)
      requires index <= |buffer.events|
      modifies this`index
      ensures View(at, pending) == Taken(old(View(index, [])), buffer.events)
    {
      at, pending := index, buffer.events[index..];
      index := |buffer.events|;
    }

    method Expire(at: nat, pending: seq<Event>)
      modifies this`expired, this`wire
      ensures View(at, pending) == Expired(old(View(at, pending)))
    {
      wire := wire + [Notice(Json("error", "chat stream timed out"))];
      expired := true;
    }

    /** A heartbeat; a failed write ends the loop. */
    method Ping(at: nat, pending: seq<Event>, written: bool)
      modifies this`finished, this`disconnected
      ensures View(at, pending) == Pinged(old(View(at, pending)), written)
    {
      if !written { disconnected, finished := true, true; }
    }

    /** Forward one event; `written` is the outcome of the socket write. */
    method Forward(at: nat, pending: seq<Event>, written: bool) returns (rest: seq<Event>, next: nat)
      requires pending != []
      modifies this`finished, this`disconnected, this`wire
      ensures View(next, rest) == WriteOne(old(View(at, pending)), written)
    {
      rest, next := pending[1..], at + 1;
      match Payload(pending[0])
      case None =>
      case Some(payload) =>
        if !written {
          disconnected, finished := true, true;
          rest, next := pending, at;
        } else {
          wire := wire + [Frame(at + 1, payload)];
          if Terminal(pending[0]) || MarksError(payload) { finished := true; }
        }
    }

    /** Forward one batch, until it is empty or the tail is finished. */
    method Send(at: nat, pending: seq<Event>, oks: seq<bool>) returns (rest: seq<Event>, next: nat)
      requires |oks| >= |pending| && !finished
      modifies this`finished, this`disconnected, this`wire
      ensures View(next, rest) == WriteRun(old(View(at, pending)), oks)
    {
      rest, next := pending, at;
      var i := 0;
      assert oks[0..] == oks;
      while rest != [] && !finished
        invariant i <= |oks| && (finished || |oks| - i >= |rest|)
        invariant WriteRun(View(next, rest), oks[i..]) == WriteRun(old(View(at, pending)), oks)
        decreases |rest|, !finished
      {
        ghost var before := View(next, rest);
        assert oks[i..][1..] == oks[i + 1..];
        rest, next := Forward(next, rest, oks[i]);
        i := i + 1;
      }
    }
  }

  /** Only the last event of a buffer can be terminal, and then the buffer is closed. */
  ghost predicate Sealed(events: seq<Event>, terminal: bool) {
    && (terminal ==> events != [])
    && forall i :: 0 <= i < |events| ==> (Terminal(events[i]) <==> terminal && i == |events| - 1)
  }

  function Opened(events: seq<Event>, lastEventId: Option<nat>): Conn {
    var resume := if lastEventId.Some? then lastEventId.value else 0;
    var index := if resume > |events| then |events| else resume;
    Conn(index, index, [], false, false, false, [])
  }

  function Taken(c: Conn, events: seq<Event>): Conn
    requires c.index <= |events|
  {
    c.(at := c.index, pending := events[c.index..], index := |events|)
  }

  /** A heartbeat, a comment without an event, while there is nothing to send. */
  function Pinged(c: Conn, ok: bool): Conn {
    if ok then c else c.(disconnected := true, finished := true)
  }

  /** The turn's deadline: an id-less notice and no further frames. */
  function Expired(c: Conn): Conn {
    c.(wire := c.wire + [Notice(Json("error", "chat stream timed out"))], expired := true)
  }

  // ---- the whole protocol ----

  /** The client keeps the last id it dispatched and everything it received; frames that are
      still in flight on a connection it lost are gone. */
  datatype Client = Client(current: Option<nat>, lastId: nat, received: seq<Frame>)

  datatype State = State(
    buffer: seq<Event>, terminal: bool, registered: bool, conns: map<nat, Conn>, client: Client)

  datatype Step =
    | Append(event: Event)
    | Attach(conn: nat)
    | AttachOther(conn: nat, header: Option<nat>)
    | Take(conn: nat)
    | Write(conn: nat, ok: bool)
    | Ping(conn: nat, ok: bool)
    | Leave(conn: nat)
    | Expire(conn: nat)
    | Deliver
    | Cut
    | Forget

  predicate Init(s: State) {
    s == State([], false, true, map[], Client(None, 0, []))
  }

  predicate Live(s: State, k: nat) {
    k in s.conns && !s.conns[k].finished && !s.conns[k].expired
  }

  /** The header a client sends: nothing before the first id, the last id afterwards. */
  function Header(client: Client): Option<nat> {
    if client.lastId == 0 then None else Some(client.lastId)
  }

  predicate Enabled(s: State, l: Step) {
    match l
    case Append(e) => !s.terminal
    case Attach(k) => s.registered && s.client.current.None? && k !in s.conns
    case AttachOther(k, header) => s.registered && k !in s.conns
    case Take(k) => Live(s, k) && s.conns[k].pending == [] && s.conns[k].index <= |s.buffer|
    case Write(k, ok) => Live(s, k) && s.conns[k].pending != []
    case Ping(k, ok) => Live(s, k) && s.conns[k].pending == [] && s.conns[k].index >= |s.buffer| && !s.terminal
    case Leave(k) => k in s.conns && (s.conns[k].finished || s.conns[k].expired
                     || (s.conns[k].pending == [] && s.conns[k].index >= |s.buffer| && s.terminal))
    case Expire(k) => Live(s, k) && s.conns[k].pending == []
    case Deliver => s.client.current.Some? && s.client.current.value in s.conns
                    && s.conns[s.client.current.value].wire != []
    case Cut => s.client.current.Some?
    case Forget => true
  }

  /** `Leave` ends a handler: an undisturbed one unregisters the chat. `Expire` is the
      deadline: an id-less notice, then cancellation. `Forget` is removal from outside. */
  function Apply(s: State, l: Step): State
    requires Enabled(s, l)
  {
    match l
    case Append(e) => s.(buffer := s.buffer + [e], terminal := Terminal(e))
    case Attach(k) =>
      s.(conns := s.conns[k := Opened(s.buffer, Header(s.client))], client := s.client.(current := Some(k)))
    case AttachOther(k, header) => s.(conns := s.conns[k := Opened(s.buffer, header)])
    case Take(k) => s.(conns := s.conns[k := Taken(s.conns[k], s.buffer)])
    case Write(k, ok) => s.(conns := s.conns[k := WriteOne(s.conns[k], ok)])
    case Ping(k, ok) => s.(conns := s.conns[k := Pinged(s.conns[k], ok)])
    case Leave(k) => s.(registered := s.registered && s.conns[k].disconnected)
    case Expire(k) =>
      var c := s.conns[k];
      s.(registered := false,
         conns := s.conns[k := Expired(c)])
    case Deliver =>
      var k := s.client.current.value;
      var c := s.conns[k];
      var client := if c.wire[0].Notice? then s.client
                    else s.client.(lastId := c.wire[0].id, received := s.client.received + [c.wire[0]]);
      s.(conns := s.conns[k := c.(wire := c.wire[1..])], client := client)
    case Cut => s.(client := s.client.(current := None))
    case Forget => s.(registered := false)
  }

  ghost predicate Run(trace: seq<State>, steps: seq<Step>) {
    && |trace| == |steps| + 1
    && Init(trace[0])
    && forall i :: 0 <= i < |steps| ==> Enabled(trace[i], steps[i]) && trace[i + 1] == Apply(trace[i], steps[i])
  }

  /** The visible projection of `buffer[i..j]`: the forwarded events with their stable ids. */
  function Visible(buffer: seq<Event>, i: nat, j: nat): seq<Frame>
    requires j <= |buffer|
  {
    if i >= j then []
    else
      var before := Visible(buffer, i, j - 1);
      match Payload(buffer[j - 1])
      case None => before
      case Some(payload) => before + [Frame(j, payload)]
  }

  function Numbered(wire: seq<Frame>): seq<Frame> {
    if wire == [] then []
    else if wire[|wire| - 1].Notice? then Numbered(wire[..|wire| - 1])
    else Numbered(wire[..|wire| - 1]) + [wire[|wire| - 1]]
  }

  // ---- lemmas on projections ----

  lemma {:induction false} VisibleAppend(buffer: seq<Event>, more: seq<Event>, i: nat, j: nat)
    requires j <= |buffer|
    ensures Visible(buffer + more, i, j) == Visible(buffer, i, j)
  {
    if i < j {
      VisibleAppend(buffer, more, i, j - 1);
      assert (buffer + more)[j - 1] == buffer[j - 1];
    }
  }

  lemma {:induction false} VisibleSplit(buffer: seq<Event>, i: nat, m: nat, j: nat)
    requires i <= m <= j <= |buffer|
    ensures Visible(buffer, i, j) == Visible(buffer, i, m) + Visible(buffer, m, j)
  {
    if m < j { VisibleSplit(buffer, i, m, j - 1); }
  }

  /** Ids in a projection lie in its range and strictly increase. */
  lemma {:induction false} VisibleIds(buffer: seq<Event>, i: nat, j: nat)
    requires j <= |buffer|
    ensures forall k :: 0 <= k < |Visible(buffer, i, j)| ==>
      var f := Visible(buffer, i, j)[k];
      f.Frame? && i < f.id <= j && Payload(buffer[f.id - 1]) == Some(f.payload)
    ensures forall k, l :: 0 <= k < l < |Visible(buffer, i, j)| ==>
      Visible(buffer, i, j)[k].id < Visible(buffer, i, j)[l].id
  {
    if i < j { VisibleIds(buffer, i, j - 1); }
  }

  /** The first frame of a projection cuts it at its own id. */
  lemma {:induction false} VisibleFirst(buffer: seq<Event>, i: nat, j: nat)
    requires j <= |buffer| && Visible(buffer, i, j) != []
    ensures var f := Visible(buffer, i, j)[0];
      f.Frame? && i < f.id <= j && Visible(buffer, i, f.id) == [f]
        && Visible(buffer, f.id, j) == Visible(buffer, i, j)[1..]
  {
    if Visible(buffer, i, j - 1) == [] {
      assert Visible(buffer, j, j) == [];
    } else {
      VisibleFirst(buffer, i, j - 1);
      var f := Visible(buffer, i, j)[0];
      assert f == Visible(buffer, i, j - 1)[0];
      VisibleSplit(buffer, i, f.id, j);
    }
  }

  lemma {:induction false} NumberedAppend(a: seq<Frame>, f: Frame)
    ensures Numbered(a + [f]) == if f.Notice? then Numbered(a) else Numbered(a) + [f]
  {
    assert (a + [f])[..|a|] == a;
  }

  lemma {:induction false} NumberedRest(wire: seq<Frame>)
    requires wire != []
    ensures Numbered(wire) == if wire[0].Notice? then Numbered(wire[1..]) else [wire[0]] + Numbered(wire[1..])
  {
    if |wire| > 1 {
      NumberedRest(wire[..|wire| - 1]);
      assert wire[..|wire| - 1][1..] == wire[1..][..|wire| - 2];
    }
  }

  // ---- the invariant ----

  ghost predicate ConnInv(buffer: seq<Event>, c: Conn) {
    && c.at <= c.index <= |buffer|
    && c.pending == buffer[c.at..c.index]
    && (c.finished && !c.disconnected ==> c.at > 0 && Stops(buffer[c.at - 1]))
  }

  /** The events a handler stops after: terminal ones, and any whose payload mentions `"error"`. */
  predicate Stops(e: Event) {
    Terminal(e) || (Payload(e).Some? && MarksError(Payload(e).value))
  }

  ghost predicate ClientInv(s: State) {
    && s.client.lastId <= |s.buffer|
    && s.client.received == Visible(s.buffer, 0, s.client.lastId)
    && (s.client.current.Some? ==>
          var k := s.client.current.value;
          k in s.conns && Carries(s.buffer, s.client.lastId, s.conns[k]))
  }

  ghost predicate Inv(s: State) {
    && Sealed(s.buffer, s.terminal)
    && (forall k :: k in s.conns ==> ConnInv(s.buffer, s.conns[k]))
    && ClientInv(s)
  }

  lemma {:induction false} AppendKeepsInv(s: State, e: Event)
    requires Inv(s) && Enabled(s, Append(e))
    ensures Inv(Apply(s, Append(e)))
  {
    var t := Apply(s, Append(e));
    forall k | k in t.conns ensures ConnInv(t.buffer, t.conns[k]) {
      var c := s.conns[k];
      assert t.buffer[c.at..c.index] == s.buffer[c.at..c.index];
      if c.at > 0 { assert t.buffer[c.at - 1] == s.buffer[c.at - 1]; }
    }
    VisibleAppend(s.buffer, [e], 0, s.client.lastId);
    if s.client.current.Some? {
      VisibleAppend(s.buffer, [e], s.client.lastId, s.conns[s.client.current.value].at);
    }
  }

  /** A connection still carries, in order, exactly what its client is owed. */
  ghost predicate Carries(buffer: seq<Event>, lastId: nat, c: Conn) {
    && lastId <= c.at <= |buffer|
    && Numbered(c.wire) == Visible(buffer, lastId, c.at)
  }

  lemma {:induction false} WriteOneKeeps(buffer: seq<Event>, lastId: nat, c: Conn, ok: bool)
    requires ConnInv(buffer, c) && c.pending != [] && !c.finished
    ensures ConnInv(buffer, WriteOne(c, ok))
    ensures Carries(buffer, lastId, c) ==> Carries(buffer, lastId, WriteOne(c, ok))
  {
    assert c.pending[0] == buffer[c.at];
    assert c.pending[1..] == buffer[c.at + 1..c.index];
    if Payload(c.pending[0]).Some? {
      NumberedAppend(c.wire, Frame(c.at + 1, Payload(c.pending[0]).value));
    }
  }

  lemma {:induction false} DeliverOneKeeps(buffer: seq<Event>, lastId: nat, c: Conn)
    requires Carries(buffer, lastId, c) && c.wire != []
    ensures var f := c.wire[0]; var rest := c.(wire := c.wire[1..]);
      if f.Notice? then Carries(buffer, lastId, rest)
      else lastId < f.id <= |buffer| && Carries(buffer, f.id, rest)
           && Visible(buffer, 0, f.id) == Visible(buffer, 0, lastId) + [f]
  {
    NumberedRest(c.wire);
    if c.wire[0].Frame? {
      VisibleFirst(buffer, lastId, c.at);
      VisibleSplit(buffer, 0, lastId, c.wire[0].id);
    }
  }

  lemma ReplaceKeepsInv(s: State, k: nat, c: Conn)
    requires Inv(s) && ConnInv(s.buffer, c)
    requires s.client.current == Some(k) ==> Carries(s.buffer, s.client.lastId, c)
    ensures Inv(s.(conns := s.conns[k := c]))
  {}

  lemma OpenedConn(buffer: seq<Event>, header: Option<nat>)
    ensures ConnInv(buffer, Opened(buffer, header))
    ensures header.Some? && header.value <= |buffer| ==> Carries(buffer, header.value, Opened(buffer, header))
    ensures header.None? ==> Carries(buffer, 0, Opened(buffer, header))
  {}

  lemma TakenConn(buffer: seq<Event>, lastId: nat, c: Conn)
    requires ConnInv(buffer, c) && c.pending == []
    ensures ConnInv(buffer, Taken(c, buffer))
    ensures Carries(buffer, lastId, c) ==> Carries(buffer, lastId, Taken(c, buffer))
  {
    assert |c.pending| == c.index - c.at;
  }

  lemma ExpiredConn(buffer: seq<Event>, lastId: nat, c: Conn)
    requires ConnInv(buffer, c)
    ensures ConnInv(buffer, Expired(c)) && (Carries(buffer, lastId, c) ==> Carries(buffer, lastId, Expired(c)))
  {
    NumberedAppend(c.wire, Notice(Json("error", "chat stream timed out")));
  }

  lemma {:induction false} StepKeepsInv(s: State, l: Step)
    requires Inv(s) && Enabled(s, l)
    ensures Inv(Apply(s, l))
  {
    var buffer, lastId := s.buffer, s.client.lastId;
    match l
    case Append(e) => AppendKeepsInv(s, e);
    case Attach(k) =>
      OpenedConn(buffer, Header(s.client));
      ReplaceKeepsInv(s, k, Opened(buffer, Header(s.client)));
    case AttachOther(k, header) =>
      OpenedConn(buffer, header);
      ReplaceKeepsInv(s, k, Opened(buffer, header));
    case Take(k) =>
      TakenConn(buffer, lastId, s.conns[k]);
      ReplaceKeepsInv(s, k, Taken(s.conns[k], buffer));
    case Write(k, ok) =>
      WriteOneKeeps(buffer, lastId, s.conns[k], ok);
      ReplaceKeepsInv(s, k, WriteOne(s.conns[k], ok));
    case Ping(k, ok) => ReplaceKeepsInv(s, k, Pinged(s.conns[k], ok));
    case Expire(k) => ExpireKeepsInv(s, k);
    case Deliver => DeliverKeepsInv(s);
    case Leave(k) =>
    case Cut =>
    case Forget =>
  }

  lemma ExpireKeepsInv(s: State, k: nat)
    requires Inv(s) && Enabled(s, Expire(k))
    ensures Inv(Apply(s, Expire(k)))
  {
    ExpiredConn(s.buffer, s.client.lastId, s.conns[k]);
    ReplaceKeepsInv(s, k, Expired(s.conns[k]));
  }

  lemma DeliverKeepsInv(s: State)
    requires Inv(s) && Enabled(s, Deliver)
    ensures Inv(Apply(s, Deliver))
  {
    var k := s.client.current.value;
    var c := s.conns[k];
    DeliverOneKeeps(s.buffer, s.client.lastId, c);
    var t := Apply(s, Deliver);
    assert t.conns == s.conns[k := c.(wire := c.wire[1..])] && t.buffer == s.buffer && t.terminal == s.terminal;
    assert t.client.current == Some(k);
  }

  lemma {:induction false} RunKeepsInv(trace: seq<State>, steps: seq<Step>, n: nat)
    requires Run(trace, steps) && n < |trace|
    ensures Inv(trace[n])
  {
    if n > 0 {
      RunKeepsInv(trace, steps, n - 1);
      StepKeepsInv(trace[n - 1], steps[n - 1]);
    }
  }

  /** Over every interleaving of appends, batches, writes, cuts and reattachments: the
      id-carrying frames a client has received are exactly the visible projection of the buffer
      up to its last id, each once and with strictly increasing ids. */
  lemma {:induction false} ReceivedExactly(trace: seq<State>, steps: seq<Step>, n: nat)
    requires Run(trace, steps) && n < |trace|
    ensures var s := trace[n];
      && s.client.lastId <= |s.buffer|
      && s.client.received == Visible(s.buffer, 0, s.client.lastId)
      && (forall f :: f in s.client.received ==>
          f.Frame? && 0 < f.id <= |s.buffer| && Payload(s.buffer[f.id - 1]) == Some(f.payload))
      && (forall i, j :: 0 <= i < j < |s.client.received| ==> s.client.received[i].id < s.client.received[j].id)
  {
    RunKeepsInv(trace, steps, n);
    VisibleIds(trace[n].buffer, 0, trace[n].client.lastId);
  }

  /** A client that has seen the terminal frame has seen every visible event of the turn. */
  lemma {:induction false} TerminalMeansComplete(trace: seq<State>, steps: seq<Step>, n: nat)
    requires Run(trace, steps) && n < |trace|
    requires 0 < trace[n].client.lastId <= |trace[n].buffer|
    requires Terminal(trace[n].buffer[trace[n].client.lastId - 1])
    ensures trace[n].terminal
    ensures trace[n].client.received == Visible(trace[n].buffer, 0, |trace[n].buffer|)
  {
    RunKeepsInv(trace, steps, n);
  }

  /** A handler that finishes without a disconnect stopped at a stopping event, which is the last
      of a finished turn exactly when it is terminal. */
  lemma {:induction false} FinishedAtStop(trace: seq<State>, steps: seq<Step>, n: nat, k: nat)
    requires Run(trace, steps) && n < |trace|
    requires k in trace[n].conns && trace[n].conns[k].finished && !trace[n].conns[k].disconnected
    ensures var c := trace[n].conns[k];
      && 0 < c.at <= |trace[n].buffer| && Stops(trace[n].buffer[c.at - 1])
      && (c.at == |trace[n].buffer| && trace[n].terminal <==> Terminal(trace[n].buffer[c.at - 1]))
  {
    RunKeepsInv(trace, steps, n);
  }

  // ---- when a tail is complete ----

  /** What a connection attached at `from` has passed by: nothing that stops a tail, except the
      event at which it did stop. */
  ghost predicate Passed(buffer: seq<Event>, from: nat, c: Conn) {
    && from <= c.at <= |buffer|
    && (c.disconnected ==> c.finished)
    && (c.finished && !c.disconnected ==> from < c.at)
    && (forall j :: from <= j < c.at && (j < c.at - 1 || !c.finished || c.disconnected) ==> !Stops(buffer[j]))
  }

  lemma WriteOnePasses(buffer: seq<Event>, from: nat, c: Conn, ok: bool)
    requires ConnInv(buffer, c) && Passed(buffer, from, c) && c.pending != [] && !c.finished
    ensures Passed(buffer, from, WriteOne(c, ok))
  {
    var e := c.pending[0];
    assert e == buffer[c.at];
    assert Payload(e).None? ==> !Stops(e);
  }

  lemma PassedLater(buffer: seq<Event>, more: seq<Event>, from: nat, c: Conn)
    requires Passed(buffer, from, c)
    ensures Passed(buffer + more, from, c)
  {
    assert forall j :: 0 <= j < |buffer| ==> (buffer + more)[j] == buffer[j];
  }

  lemma {:induction false} StepPasses(s: State, l: Step, from: nat, k: nat)
    requires Inv(s) && Enabled(s, l) && k in s.conns && Passed(s.buffer, from, s.conns[k])
    ensures k in Apply(s, l).conns && Passed(Apply(s, l).buffer, from, Apply(s, l).conns[k])
  {
    match l
    case Append(e) => PassedLater(s.buffer, [e], from, s.conns[k]);
    case Write(w, ok) => if w == k { WriteOnePasses(s.buffer, from, s.conns[k], ok); }
    case Ping(w, ok) =>
    case _ => QuietStep(s, l, k);
  }

  /** Any other step leaves alone where the handler is and how it ended. */
  lemma QuietStep(s: State, l: Step, k: nat)
    requires Inv(s) && Enabled(s, l) && k in s.conns && !l.Append? && !l.Write? && !l.Ping?
    ensures var t := Apply(s, l);
      && t.buffer == s.buffer && k in t.conns && t.conns[k].at == s.conns[k].at
      && t.conns[k].disconnected == s.conns[k].disconnected && t.conns[k].finished == s.conns[k].finished
  {}

  predicate Attaches(l: Step, k: nat) {
    (l.Attach? || l.AttachOther?) && l.conn == k
  }

  lemma AttachPasses(s: State, l: Step, k: nat)
    requires Enabled(s, l) && Attaches(l, k)
    ensures var t := Apply(s, l); k in t.conns && Passed(t.buffer, t.conns[k].at, t.conns[k])
  {}

  lemma {:induction false} RunPasses(trace: seq<State>, steps: seq<Step>, n: nat, m: nat, k: nat)
    requires Run(trace, steps) && m < n < |trace| && Attaches(steps[m], k)
    ensures k in trace[m + 1].conns && k in trace[n].conns
    ensures Passed(trace[n].buffer, trace[m + 1].conns[k].at, trace[n].conns[k])
  {
    if n > m + 1 {
      RunPasses(trace, steps, n - 1, m, k);
      RunKeepsInv(trace, steps, n - 1);
      StepPasses(trace[n - 1], steps[n - 1], trace[m + 1].conns[k].at, k);
    } else {
      AttachPasses(trace[m], steps[m], k);
    }
  }

  /** A handler that attached at step `m` and is done, undisturbed, has forwarded everything there is
      if and only if no event between its resume point and the last one stops a tail. */
  lemma {:induction false} CompleteIffUnmarked(trace: seq<State>, steps: seq<Step>, n: nat, m: nat, k: nat)
    requires Run(trace, steps) && m < n < |trace| && Attaches(steps[m], k)
    requires Enabled(trace[n], Leave(k)) && !trace[n].conns[k].disconnected && !trace[n].conns[k].expired
    ensures k in trace[m + 1].conns
    ensures var from, buffer := trace[m + 1].conns[k].at, trace[n].buffer;
      trace[n].conns[k].at == |buffer| <==> forall j :: from <= j < |buffer| - 1 ==> !Stops(buffer[j])
  {
    RunPasses(trace, steps, n, m, k);
    RunKeepsInv(trace, steps, n);
    var c := trace[n].conns[k];
    if !c.finished { assert |c.pending| == c.index - c.at; }
  }

  // ---- the terminal test ----

  lemma {:induction false} EscapeQuotes(s: string, j: int)
    ensures 0 <= j < |Escape(s)| && Escape(s)[j] == '"' ==> j > 0 && Escape(s)[j - 1] == '\\'
  {
    if s != [] {
      EscapeQuotes(s[..|s| - 1], j);
      QuoteEscaped(s[|s| - 1]);
    }
  }

  lemma QuoteEscaped(c: char)
    ensures '"' in EscapeChar(c) ==> EscapeChar(c) == "\\\""
  {}

  /** Letters that JSON leaves alone and that cannot end an escape sequence. */
  predicate Plain(w: string) {
    forall i :: 0 <= i < |w| ==> 'f' < w[i] <= 'z' || w[i] == 'e'
  }

  lemma {:induction false} FlatMapPlain(f: char -> string, t: string, w: string)
    requires forall c :: c in w ==> f(c) == [c]
    ensures FlatMap(f, t + w) == FlatMap(f, t) + w
  {
    if w == [] {
      assert t + w == t;
    } else {
      var n := |w| - 1;
      assert (t + w)[..|t| + n] == t + w[..n];
      FlatMapPlain(f, t, w[..n]);
      assert w == w[..n] + [w[n]];
    }
  }

  /** An escape function: no character disappears, ordinary ones stay, and the last but one
      character of a longer replacement is never ordinary. */
  ghost predicate Escaping(f: char -> string) {
    forall c :: f(c) != [] && (|f(c)| == 1 ==> f(c) == [c]) && (|f(c)| >= 2 ==> f(c)[|f(c)| - 2] in "\\01")
  }

  lemma LastButOne(a: string, b: string)
    ensures |b| >= 2 ==> (a + b)[|a + b| - 2] == b[|b| - 2]
    ensures b != [] ==> (a + b)[|a + b| - 1] == b[|b| - 1]
  {}

  /** A text whose escaped form ends in plain characters behind one that cannot be inside an
      escape sequence ends in those characters itself. */
  lemma {:induction false} FlatMapPeel(f: char -> string, s: string, x: string, p: char, w: string)
    requires Escaping(f) && FlatMap(f, s) == x + [p] + w
    requires p !in "\\01" && forall c :: c in w ==> c !in "\\01"
    ensures EndsWith(s, w) && FlatMap(f, s[..|s| - |w|]) == x + [p]
    decreases |w|
  {
    if w == [] {
      assert s[..|s| - |w|] == s && x + [p] + w == x + [p];
    } else {
      var n := |w| - 1;
      var t, u := s[..|s| - 1], x + [p] + w[..n];
      assert x + [p] + w == u + [w[n]];
      assert u[|u| - 1] == if n == 0 then p else w[n - 1];
      PeelOne(f, FlatMap(f, t), s[|s| - 1], u, w[n]);
      FlatMapPeel(f, t, x, p, w[..n]);
      PeeledTail(s, w);
    }
  }

  lemma PeelOne(f: char -> string, a: string, c: char, u: string, z: char)
    requires Escaping(f) && a + f(c) == u + [z] && u != [] && u[|u| - 1] !in "\\01"
    ensures c == z && a == u
  {
    var b := f(c);
    LastButOne(a, b);
    LastButOne(u, [z]);
    BeforeLast(u, z);
    assert |b| == 1;
    SnocInjective(a, u, z);
  }

  lemma BeforeLast(u: string, z: char)
    requires u != []
    ensures (u + [z])[|u + [z]| - 2] == u[|u| - 1]
  {}

  lemma PeeledTail(s: string, w: string)
    requires s != [] && w != [] && s[|s| - 1] == w[|w| - 1] && EndsWith(s[..|s| - 1], w[..|w| - 1])
    ensures EndsWith(s, w) && s[..|s| - 1][..|s| - |w|] == s[..|s| - |w|]
  {
    var t, n := s[..|s| - 1], |w| - 1;
    assert s[|s| - |w|..] == t[|t| - n..] + [w[n]];
    assert w == w[..n] + [w[n]];
  }

  lemma SnocInjective(a: string, b: string, c: char)
    requires a + [c] == b + [c]
    ensures a == b
  {
    assert (a + [c])[..|a|] == a && (b + [c])[..|b|] == b;
  }

  lemma EscapeIsEscaping()
    ensures Escaping(EscapeChar)
  {}

  lemma EscapePlain(t: string, w: string)
    requires Plain(w)
    ensures Escape(t + w) == Escape(t) + w
  {
    FlatMapPlain(EscapeChar, t, w);
  }

  lemma {:induction false} EscapeLastQuote(s: string)
    requires Escape(s) != [] && Escape(s)[|Escape(s)| - 1] == '"'
    ensures s != [] && s[|s| - 1] == '"'
  {
    var a, b := Escape(s[..|s| - 1]), EscapeChar(s[|s| - 1]);
    assert (a + b)[|a + b| - 1] == b[|b| - 1];
  }

  /** The escaped text ends in `"error` exactly when the text does. */
  lemma EscapeEndsInError(s: string)
    ensures EndsWith(Escape(s), "\"error") <==> EndsWith(s, "\"error")
  {
    if EndsWith(Escape(s), "\"error") { EndsInErrorOnly(s); }
    if EndsWith(s, "\"error") { EndsInErrorAlso(s); }
  }

  lemma {:induction false} EndsInErrorOnly(s: string)
    requires EndsWith(Escape(s), "\"error")
    ensures EndsWith(s, "\"error")
  {
    var e := Escape(s);
    var x := e[..|e| - 6];
    CutEnd(e);
    EscapeIsEscaping();
    FlatMapPeel(EscapeChar, s, x, '"', "error");
    var t := s[..|s| - 5];
    EscapeLastQuote(t);
    JoinEnd(s);
  }

  lemma CutEnd(e: string)
    requires EndsWith(e, "\"error")
    ensures e == e[..|e| - 6] + ['"'] + "error"
  {
    assert e == e[..|e| - 6] + e[|e| - 6..];
  }

  lemma JoinEnd(s: string)
    requires EndsWith(s, "error") && |s| >= 6 && s[|s| - 6] == '"'
    ensures EndsWith(s, "\"error")
  {
    assert s[|s| - 6..] == [s[|s| - 6]] + s[|s| - 5..];
  }

  lemma {:induction false} EndsInErrorAlso(s: string)
    requires EndsWith(s, "\"error")
    ensures EndsWith(Escape(s), "\"error")
  {
    var t, e := s[..|s| - 5], Escape(s);
    assert s == t + "error" && t[|t| - 1] == '"' by {
      assert s[|s| - 6..][1..] == s[|s| - 5..] && s[|s| - 6..][0] == t[|t| - 1];
    }
    EscapePlain(t, "error");
    var u := Escape(t);
    LastButOne(FlatMap(EscapeChar, t[..|t| - 1]), EscapeChar('"'));
    assert e[|e| - 6..] == [u[|u| - 1]] + "error";
  }

  lemma {:induction false} EscapeIsError(s: string)
    ensures Escape(s) == "error" <==> s == "error"
  {
    if Escape(s) == "error" {
      assert Escape(s) == [] + ['e'] + "rror";
      EscapeIsEscaping();
      FlatMapPeel(EscapeChar, s, [], 'e', "rror");
      var t := s[..|s| - 4];
      var a, b := Escape(t[..|t| - 1]), EscapeChar(t[|t| - 1]);
      assert a + b == "e";
      assert |b| == 1;
      assert t[..|t| - 1] == [];
      assert s == t + s[|s| - 4..];
    }
    if s == "error" {
      EscapePlain([], "error");
      assert [] + "error" == "error";
    }
  }

  /** The terminal test fires on a forwarded delta exactly when the delta is `error` or ends in `"error`. */
  lemma {:induction false} MarksErrorOnText(key: string, text: string)
    requires key in {"delta", "reasoning"}
    ensures MarksError(Json(key, text)) <==> text == "error" || EndsWith(text, "\"error")
  {
    EscapeEndsInError(text);
    EscapeIsError(text);
    MarkInPayload(key, Escape(text), text);
  }

  /** What ends a tail: a terminal event, a provider error, and the deltas `MarksErrorOnText` names. */
  predicate EndsTail(e: Event) {
    match e
    case Text(delta) => delta == "error" || EndsWith(delta, "\"error")
    case Reasoning(text) => text == "error" || EndsWith(text, "\"error")
    case Started | Quiet => false
    case ProviderError(_) | Failed(_) | Finished => true
  }

  /** On the other frames the test fires exactly on the `error` ones. */
  lemma {:induction false} MarksErrorOnOthers(message: string)
    ensures MarksError(Payload(ProviderError(message)).value)
    ensures MarksError(Payload(Failed(message)).value)
    ensures !MarksError(Payload(Finished).value)
  {
    ErrorKeyMarks(message);
    DoneUnmarked();
  }

  lemma ErrorKeyMarks(message: string)
    ensures MarksError(Json("error", message))
  {
    var p := Json("error", message);
    var head := "{\"error\":\"";
    assert "{\"" + "error" + "\":\"" == head;
    assert p == head + (Escape(message) + "\"}");
    assert p[1..8] == head[1..8] && head[1..8] == ERROR_MARK;
    assert OccursAt(p, ERROR_MARK, 1);
  }

  lemma DoneUnmarked()
    ensures !MarksError("{\"done\":true}")
  {
    var p := "{\"done\":true}";
    forall i | 0 <= i <= |p| ensures !OccursAt(p, ERROR_MARK, i) {
      if OccursAt(p, ERROR_MARK, i) {
        MarkChars(p, i);
        assert false;
      }
    }
  }

  lemma {:induction false} StopsIff(e: Event)
    ensures Stops(e) <==> EndsTail(e)
  {
    match e
    case Text(delta) => MarksErrorOnText("delta", delta);
    case Reasoning(text) => MarksErrorOnText("reasoning", text);
    case ProviderError(message) => MarksErrorOnOthers(message);
    case _ =>
  }

  lemma {:induction false} MarkInPayload(key: string, e: string, text: string)
    requires key in {"delta", "reasoning"} && e == Escape(text)
    ensures MarksError(Json(key, text)) <==> e == "error" || EndsWith(e, "\"error")
  {
    var p, h := Json(key, text), |key| + 5;
    JsonParts(key, text);
    if e == "error" || EndsWith(e, "\"error") { MarkBuilt(p, e, h); }
    if MarksError(p) {
      var i :| 0 <= i <= |p| && OccursAt(p, ERROR_MARK, i);
      MarkPosition(key, e, text, i);
    }
  }

  lemma MarkBuilt(p: string, e: string, h: nat)
    requires h > 0 && |p| > h + |e| && p[h - 1] == '"' && p[h..h + |e|] == e && p[h + |e|] == '"'
    requires e == "error" || EndsWith(e, "\"error")
    ensures MarksError(p)
  {
    var i := h + |e| - 6;
    if e == "error" {
      assert i == h - 1 && |e| == 5;
      assert p[i..h + |e|] == [p[i]] + p[h..h + |e|];
      assert p[i..i + 7] == p[i..h + |e|] + [p[h + |e|]];
    } else {
      assert p[i..i + 6] == e[|e| - 6..];
      assert p[i..i + 7] == p[i..i + 6] + [p[h + |e|]];
    }
    assert "\"error" + ['"'] == ERROR_MARK && ['"'] + "error" + ['"'] == ERROR_MARK;
    assert OccursAt(p, ERROR_MARK, i);
  }

  lemma JsonParts(key: string, text: string)
    ensures var p, h, e := Json(key, text), |key| + 5, Escape(text);
      && |p| == h + |e| + 2 && p[h - 1] == '"' && p[h..h + |e|] == e && p[h + |e|] == '"' && p[h + |e| + 1] == '}'
      && (forall j :: 0 <= j < |e| ==> p[h + j] == e[j])
  {}

  lemma {:induction false} MarkPosition(key: string, e: string, text: string, i: nat)
    requires key in {"delta", "reasoning"} && e == Escape(text)
    requires OccursAt(Json(key, text), ERROR_MARK, i)
    ensures e == "error" || EndsWith(e, "\"error")
  {
    var p, h := Json(key, text), |key| + 5;
    JsonParts(key, text);
    MarkChars(p, i);
    if i < h - 1 { HeadOfJson(key, text, i); }
    var q := i + 6;
    EscapeQuotes(text, q - h);
    EscapeShift(p, e, h, q);
    assert q == h + |e|;
    MarkTail(p, e, h, i);
  }

  lemma MarkTail(p: string, e: string, h: nat, i: nat)
    requires OccursAt(p, ERROR_MARK, i) && i >= h - 1 && i + 6 == h + |e| && p[h..h + |e|] == e
    ensures e == "error" || EndsWith(e, "\"error")
  {
    assert ERROR_MARK[1..6] == "error" && ERROR_MARK[..6] == "\"error";
    if i == h - 1 {
      assert p[i..i + 7][1..6] == p[i + 1..i + 6];
    } else {
      assert p[i..i + 7][..6] == p[i..i + 6];
      SliceEnd(p, e, h);
    }
  }

  lemma SliceEnd(p: string, e: string, h: nat)
    requires h + |e| <= |p| && p[h..h + |e|] == e && |e| >= 6
    ensures e[|e| - 6..] == p[h + |e| - 6..h + |e|]
  {
    assert p[h..h + |e|][|e| - 6..] == p[h + |e| - 6..h + |e|];
  }

  lemma EscapeShift(p: string, e: string, h: nat, q: nat)
    requires |p| >= h + |e| && forall j :: 0 <= j < |e| ==> p[h + j] == e[j]
    ensures h <= q < h + |e| ==> e[q - h] == p[q]
    ensures h < q <= h + |e| ==> e[q - h - 1] == p[q - 1]
  {}

  lemma MarkChars(p: string, i: nat)
    requires OccursAt(p, ERROR_MARK, i)
    ensures p[i] == '"' && p[i + 1] == 'e' && p[i + 5] == 'r' && p[i + 6] == '"'
  {
    var m := p[i..i + 7];
    assert m[0] == '"' && m[1] == 'e' && m[5] == 'r' && m[6] == '"';
  }

  lemma HeadOfJson(key: string, text: string, i: nat)
    requires key in {"delta", "reasoning"}
    requires i + 1 < |key| + 4
    ensures !(Json(key, text)[i] == '"' && Json(key, text)[i + 1] == 'e')
  {
    assert Json(key, text)[..|key| + 5] == "{\"" + key + "\":\"";
    assert Json("delta", text)[1] == '"' && Json("delta", text)[2] == 'd';
    if key == "delta" {
      assert ("{\"" + key + "\":\"") == "{\"delta\":\"";
    } else {
      assert ("{\"" + key + "\":\"") == "{\"reasoning\":\"";
    }
  }

  lemma ExtendRun(trace: seq<State>, steps: seq<Step>, l: Step) returns (longer: seq<State>, more: seq<Step>)
    requires Run(trace, steps) && Enabled(trace[|trace| - 1], l)
    ensures Run(longer, more) && longer[|longer| - 1] == Apply(trace[|trace| - 1], l)
  {
    longer, more := trace + [Apply(trace[|trace| - 1], l)], steps + [l];
  }

  lemma ErrorDeltaTaken(buffer: seq<Event>) returns (trace: seq<State>, steps: seq<Step>)
    requires buffer == [Text("error"), Finished]
    ensures Run(trace, steps)
    ensures trace[|trace| - 1] ==
      State(buffer, true, true, map[0 := Conn(2, 0, buffer, false, false, false, [])], Client(Some(0), 0, []))
  {
    trace, steps := [State([], false, true, map[], Client(None, 0, []))], [];
    trace, steps := ExtendRun(trace, steps, Append(Text("error")));
    assert trace[|trace| - 1].buffer == [Text("error")];
    trace, steps := ExtendRun(trace, steps, Append(Finished));
    assert trace[|trace| - 1].buffer == buffer;
    trace, steps := ExtendRun(trace, steps, Attach(0));
    assert trace[|trace| - 1].conns == map[0 := Conn(0, 0, [], false, false, false, [])];
    trace, steps := ExtendRun(trace, steps, Take(0));
  }

  /** What the test costs: a model that says the single word `error` ends the tail. The handler
      leaves as if the turn were over, the chat is unregistered, and the client can never
      receive the rest of a turn that did finish. */
  lemma {:induction false} ErrorDeltaTruncatesTurn() returns (trace: seq<State>, steps: seq<Step>)
    ensures Run(trace, steps)
    ensures var s := trace[|trace| - 1];
      && s.terminal && !s.registered
      && s.client.lastId == 1 && |s.client.received| == 1
      && |Visible(s.buffer, 0, |s.buffer|)| == 2
      && !Enabled(s, Deliver) && !Enabled(s, Write(0, true)) && (forall k :: !Enabled(s, Attach(k)))
  {
    var buffer := [Text("error"), Finished];
    trace, steps := ErrorDeltaTaken(buffer);
    var frame := Frame(1, Json("delta", "error"));
    ErrorDeltaStops(buffer);
    trace, steps := ExtendRun(trace, steps, Write(0, true));
    trace, steps := ExtendRun(trace, steps, Deliver);
    assert trace[|trace| - 1].client == Client(Some(0), 1, [frame]);
    trace, steps := ExtendRun(trace, steps, Leave(0));
    TwoVisible(buffer);
  }

  lemma ErrorDeltaStops(buffer: seq<Event>)
    requires buffer == [Text("error"), Finished]
    ensures WriteOne(Conn(2, 0, buffer, false, false, false, []), true) ==
      Conn(2, 1, buffer[1..], true, false, false, [Frame(1, Json("delta", "error"))])
  {
    MarksErrorOnText("delta", "error");
  }

  lemma TwoVisible(buffer: seq<Event>)
    requires |buffer| == 2 && forall i :: 0 <= i < 2 ==> Payload(buffer[i]).Some?
    ensures |Visible(buffer, 0, 2)| == 2
  {
    assert |Visible(buffer, 0, 0)| == 0;
    assert |Visible(buffer, 0, 1)| == 1;
  }
}
