/** The two-lane admission of `src/control_server.rs`: optimistic counters, guards that give a
    slot back when they are dropped, and connections that switch from the client lane to the
    stream lane. Every atomic operation on a counter is one step. */
module LaneAdmission {

  /** Where one connection stands. A probe carries the value its `fetch_add` returned. */
  datatype Phase =
    | ClientProbe(current: int)   // counted on the accept thread, verdict pending
    | Client                      // a client-lane guard
    | StreamProbe(current: int)   // a client-lane guard, counted on the stream lane, verdict pending
    | Switching                   // the stream guard exists, the client guard is not dropped yet
    | Stream                      // a stream-lane guard
    | Gone

  /** The counters are machine words: a decrement below zero would wrap. */
  datatype State = State(active: int, streams: int, threads: seq<Phase>, maxClients: nat, maxStreams: nat)

  datatype Step =
    | Arrive
    | ClientVerdict(i: nat)
    | Drop(i: nat)
    | Probe(i: nat)
    | StreamVerdict(i: nat)
    | ReleaseOld(i: nat)
    | DropStream(i: nat)

  predicate Init(s: State) {
    s.active == 0 && s.streams == 0 && s.threads == []
  }

  /** One accept thread decides one connection at a time; `Drop` also stands for a failed
      spawn, a refused or malformed request and a panic, all of which drop the guard. */
  predicate Enabled(s: State, l: Step) {
    match l
    case Arrive => forall p :: p in s.threads ==> !p.ClientProbe?
    case ClientVerdict(i) => i < |s.threads| && s.threads[i].ClientProbe?
    case Drop(i) => i < |s.threads| && s.threads[i].Client?
    case Probe(i) => i < |s.threads| && s.threads[i].Client?
    case StreamVerdict(i) => i < |s.threads| && s.threads[i].StreamProbe?
    case ReleaseOld(i) => i < |s.threads| && s.threads[i].Switching?
    case DropStream(i) => i < |s.threads| && s.threads[i].Stream?
  }

  function Apply(s: State, l: Step): State
    requires Enabled(s, l)
  {
    match l
    case Arrive => s.(active := s.active + 1, threads := s.threads + [ClientProbe(s.active)])
    case ClientVerdict(i) =>
      if s.threads[i].current >= s.maxClients
      then s.(active := s.active - 1, threads := s.threads[i := Gone])
      else s.(threads := s.threads[i := Client])
    case Drop(i) => s.(active := s.active - 1, threads := s.threads[i := Gone])
    case Probe(i) => s.(streams := s.streams + 1, threads := s.threads[i := StreamProbe(s.streams)])
    case StreamVerdict(i) =>
      if s.threads[i].current >= s.maxStreams
      then s.(streams := s.streams - 1, threads := s.threads[i := Client])
      else s.(threads := s.threads[i := Switching])
    case ReleaseOld(i) => s.(active := s.active - 1, threads := s.threads[i := Stream])
    case DropStream(i) => s.(streams := s.streams - 1, threads := s.threads[i := Gone])
  }

  ghost predicate Run(trace: seq<State>, steps: seq<Step>) {
    && |trace| == |steps| + 1
    && Init(trace[0])
    && forall i :: 0 <= i < |steps| ==> Enabled(trace[i], steps[i]) && trace[i + 1] == Apply(trace[i], steps[i])
  }

  // ---- counting ----

  function Count(threads: seq<Phase>, f: Phase -> bool): (n: nat) {
    if threads == [] then 0
    else Count(threads[..|threads| - 1], f) + if f(threads[|threads| - 1]) then 1 else 0
  }

  lemma {:induction false} CountAppend(threads: seq<Phase>, p: Phase, f: Phase -> bool)
    ensures Count(threads + [p], f) == Count(threads, f) + if f(p) then 1 else 0
  {
    assert (threads + [p])[..|threads|] == threads;
  }

  lemma {:induction false} CountUpdate(threads: seq<Phase>, i: nat, p: Phase, f: Phase -> bool)
    requires i < |threads|
    ensures Count(threads[i := p], f) + (if f(threads[i]) then 1 else 0) == Count(threads, f) + if f(p) then 1 else 0
  {
    var n := |threads| - 1;
    if i < n {
      CountUpdate(threads[..n], i, p, f);
      assert threads[i := p][..n] == threads[..n][i := p];
    } else {
      assert threads[i := p][..n] == threads[..n];
    }
  }

  /** Two tests that agree on every thread count the same. */
  lemma {:induction false} CountSame(threads: seq<Phase>, f: Phase -> bool, g: Phase -> bool)
    requires forall p :: p in threads ==> f(p) == g(p)
    ensures Count(threads, f) == Count(threads, g)
  {
    if threads != [] { CountSame(threads[..|threads| - 1], f, g); }
  }

  lemma {:induction false} CountSplit(threads: seq<Phase>, f: Phase -> bool, g: Phase -> bool, h: Phase -> bool)
    requires forall p :: p in threads ==> (f(p) <==> g(p) || h(p)) && !(g(p) && h(p))
    ensures Count(threads, f) == Count(threads, g) + Count(threads, h)
  {
    if threads != [] { CountSplit(threads[..|threads| - 1], f, g, h); }
  }

  // ---- who occupies a lane ----

  function OnClientLane(): Phase -> bool {
    (p: Phase) => p.ClientProbe? || p.Client? || p.StreamProbe? || p.Switching?
  }

  function OnStreamLane(): Phase -> bool {
    (p: Phase) => p.StreamProbe? || p.Switching? || p.Stream?
  }

  function Nobody(): Phase -> bool {
    (p: Phase) => false
  }

  /** A client-lane guard, or a probe that is going to become one. */
  function ClientGuards(max: nat): Phase -> bool {
    (p: Phase) => p.Client? || p.StreamProbe? || p.Switching? || (p.ClientProbe? && p.current < max)
  }

  function StreamGuards(max: nat): Phase -> bool {
    (p: Phase) => p.Switching? || p.Stream? || (p.StreamProbe? && p.current < max)
  }

  /** A stream probe that is going to be refused. */
  function Overflow(max: nat): Phase -> bool {
    (p: Phase) => p.StreamProbe? && p.current >= max
  }

  ghost predicate Inv(s: State) {
    && s.active == Count(s.threads, OnClientLane())
    && s.streams == Count(s.threads, OnStreamLane())
    && Count(s.threads, ClientGuards(s.maxClients)) <= s.maxClients
    && Count(s.threads, StreamGuards(s.maxStreams)) <= s.maxStreams
    && (forall i, j :: 0 <= i < j < |s.threads| ==> !(s.threads[i].ClientProbe? && s.threads[j].ClientProbe?))
  }

  /** The client counter is exact between two arrivals: every thread it counts has a guard. */
  lemma {:induction false} ClientCounterExact(s: State)
    requires Inv(s) && Enabled(s, Arrive)
    ensures s.active == Count(s.threads, ClientGuards(s.maxClients))
  {
    CountSame(s.threads, OnClientLane(), ClientGuards(s.maxClients));
  }

  /** The stream counter is its guards plus the probes about to be refused. */
  lemma {:induction false} StreamCounterExact(s: State)
    requires Inv(s)
    ensures s.streams == Count(s.threads, StreamGuards(s.maxStreams)) + Count(s.threads, Overflow(s.maxStreams))
  {
    CountSplit(s.threads, OnStreamLane(), StreamGuards(s.maxStreams), Overflow(s.maxStreams));
  }

  lemma {:induction false} UpdateCounts(s: State, i: nat, p: Phase)
    requires i < |s.threads|
    ensures forall f ::
      f in {OnClientLane(), OnStreamLane(), ClientGuards(s.maxClients), StreamGuards(s.maxStreams)} ==>
      Count(s.threads[i := p], f) + (if f(s.threads[i]) then 1 else 0) == Count(s.threads, f) + if f(p) then 1 else 0
  {
    CountUpdate(s.threads, i, p, OnClientLane());
    CountUpdate(s.threads, i, p, OnStreamLane());
    CountUpdate(s.threads, i, p, ClientGuards(s.maxClients));
    CountUpdate(s.threads, i, p, StreamGuards(s.maxStreams));
  }

  lemma {:induction false} ArriveKeepsInv(s: State)
    requires Inv(s) && Enabled(s, Arrive)
    ensures Inv(Apply(s, Arrive))
  {
    ClientCounterExact(s);
    CountAppend(s.threads, ClientProbe(s.active), OnClientLane());
    CountAppend(s.threads, ClientProbe(s.active), OnStreamLane());
    CountAppend(s.threads, ClientProbe(s.active), ClientGuards(s.maxClients));
    CountAppend(s.threads, ClientProbe(s.active), StreamGuards(s.maxStreams));
  }

  lemma {:induction false} StepKeepsInv(s: State, l: Step)
    requires Inv(s) && Enabled(s, l)
    ensures Inv(Apply(s, l))
  {
    if l.Arrive? {
      ArriveKeepsInv(s);
    } else {
      StreamCounterExact(s);
      UpdateCounts(s, l.i, Apply(s, l).threads[l.i]);
    }
  }

  lemma {:induction false} RunKeepsInv(trace: seq<State>, steps: seq<Step>, n: nat)
    requires Run(trace, steps) && n < |trace|
    ensures Inv(trace[n])
    ensures trace[n].maxClients == trace[0].maxClients && trace[n].maxStreams == trace[0].maxStreams
  {
    if n > 0 {
      RunKeepsInv(trace, steps, n - 1);
      StepKeepsInv(trace[n - 1], steps[n - 1]);
    } else {
      assert forall f :: Count(trace[0].threads, f) == 0;
    }
  }

  /** In every interleaving, each counter is its live guards plus the probes in flight, guards
      never exceed the lane's bound, and no counter ever wraps. */
  lemma {:induction false} CountersAreOccupancy(trace: seq<State>, steps: seq<Step>, n: nat)
    requires Run(trace, steps) && n < |trace|
    ensures var s := trace[n];
      && s.active == Count(s.threads, OnClientLane()) >= Count(s.threads, ClientGuards(s.maxClients))
      && s.streams == Count(s.threads, StreamGuards(s.maxStreams)) + Count(s.threads, Overflow(s.maxStreams))
      && Count(s.threads, ClientGuards(s.maxClients)) <= s.maxClients
      && Count(s.threads, StreamGuards(s.maxStreams)) <= s.maxStreams
  {
    RunKeepsInv(trace, steps, n);
    var s := trace[n];
    StreamCounterExact(s);
    var refused := (p: Phase) => p.ClientProbe? && p.current >= s.maxClients;
    CountSplit(s.threads, OnClientLane(), ClientGuards(s.maxClients), refused);
  }

  /** When every connection is gone, every slot has been given back exactly once. */
  lemma {:induction false} QuiescentIsZero(trace: seq<State>, steps: seq<Step>, n: nat)
    requires Run(trace, steps) && n < |trace|
    requires forall p :: p in trace[n].threads ==> p.Gone?
    ensures trace[n].active == 0 && trace[n].streams == 0
  {
    RunKeepsInv(trace, steps, n);
    CountSame(trace[n].threads, OnClientLane(), Nobody());
    CountSame(trace[n].threads, OnStreamLane(), Nobody());
    CountNone(trace[n].threads);
  }

  lemma {:induction false} CountNone(threads: seq<Phase>)
    ensures Count(threads, Nobody()) == 0
  {
    if threads != [] { CountNone(threads[..|threads| - 1]); }
  }

  /** A short request is refused exactly when `max_clients` guards are really live. */
  lemma {:induction false} ClientRefusalExact(trace: seq<State>, steps: seq<Step>, n: nat)
    requires Run(trace, steps) && n < |trace| && Enabled(trace[n], Arrive)
    ensures var s := trace[n]; var t := Apply(s, Arrive); var i := |s.threads|;
      Apply(t, ClientVerdict(i)).threads[i] == Gone <==> Count(s.threads, ClientGuards(s.maxClients)) == s.maxClients
  {
    RunKeepsInv(trace, steps, n);
    ClientCounterExact(trace[n]);
  }

  /** A stream is refused exactly when live guards and probes about to be refused fill the lane. */
  lemma {:induction false} StreamRefusalExact(trace: seq<State>, steps: seq<Step>, n: nat, i: nat)
    requires Run(trace, steps) && n < |trace| && Enabled(trace[n], Probe(i))
    ensures var s := trace[n]; var t := Apply(s, Probe(i));
      Apply(t, StreamVerdict(i)).threads[i] == Client <==>
      Count(s.threads, StreamGuards(s.maxStreams)) + Count(s.threads, Overflow(s.maxStreams)) >= s.maxStreams
  {
    RunKeepsInv(trace, steps, n);
    StreamCounterExact(trace[n]);
  }

  lemma ExtendRun(trace: seq<State>, steps: seq<Step>, l: Step) returns (longer: seq<State>, more: seq<Step>)
    requires Run(trace, steps) && Enabled(trace[|trace| - 1], l)
    ensures Run(longer, more) && longer[|longer| - 1] == Apply(trace[|trace| - 1], l)
  {
    longer, more := trace + [Apply(trace[|trace| - 1], l)], steps + [l];
  }

  lemma ThreeClients() returns (trace: seq<State>, steps: seq<Step>)
    ensures Run(trace, steps)
    ensures trace[|trace| - 1] == State(3, 0, [Client, Client, Client], 3, 1)
  {
    trace, steps := [State(0, 0, [], 3, 1)], [];
    trace, steps := Admit(trace, steps, 0);
    trace, steps := Admit(trace, steps, 1);
    trace, steps := Admit(trace, steps, 2);
    assert seq(3, _ => Client) == [Client, Client, Client];
  }

  /** One more of three connections is admitted. */
  lemma Admit(trace: seq<State>, steps: seq<Step>, i: nat) returns (longer: seq<State>, more: seq<Step>)
    requires Run(trace, steps) && i < 3
    requires trace[|trace| - 1] == State(i, 0, seq(i, _ => Client), 3, 1)
    ensures Run(longer, more) && longer[|longer| - 1] == State(i + 1, 0, seq(i + 1, _ => Client), 3, 1)
  {
    longer, more := ExtendRun(trace, steps, Arrive);
    longer, more := ExtendRun(longer, more, ClientVerdict(i));
    assert longer[|longer| - 1].threads == seq(i + 1, _ => Client);
  }

  /** The second term is real: with one stream slot and no live stream guard at all, a stream is
      refused because another refused probe has not been taken back yet. */
  lemma {:induction false} SpuriousStreamRefusal() returns (trace: seq<State>, steps: seq<Step>)
    ensures Run(trace, steps)
    ensures var s := trace[|trace| - 1];
      && s.maxStreams == 1 && s.threads == [Gone, StreamProbe(1), StreamProbe(1)]
      && Count(s.threads, StreamGuards(1)) == 0
      && Enabled(s, StreamVerdict(2)) && Apply(s, StreamVerdict(2)).threads[2] == Client
  {
    trace, steps := ThreeClients();
    trace, steps := ExtendRun(trace, steps, Probe(0));
    trace, steps := ExtendRun(trace, steps, StreamVerdict(0));
    trace, steps := ExtendRun(trace, steps, ReleaseOld(0));
    assert trace[|trace| - 1].threads == [Stream, Client, Client];
    trace, steps := ExtendRun(trace, steps, Probe(1));
    trace, steps := ExtendRun(trace, steps, DropStream(0));
    trace, steps := ExtendRun(trace, steps, Probe(2));
    var threads := trace[|trace| - 1].threads;
    assert threads == [Gone, StreamProbe(1), StreamProbe(1)];
    CountSame(threads, StreamGuards(1), Nobody());
    CountNone(threads);
    CountSame(threads, Nobody(), StreamGuards(1));
  }

  // ---- every connection can finish ----

  /** The steps that bring a connection nearer to its end. */
  predicate Finishes(l: Step) {
    !l.Arrive? && !l.Probe?
  }

  function Left(p: Phase): nat {
    match p
    case Gone => 0
    case Client | Stream => 1
    case ClientProbe(_) | Switching => 2
    case StreamProbe(_) => 3
  }

  function AllLeft(threads: seq<Phase>): nat {
    if threads == [] then 0 else AllLeft(threads[..|threads| - 1]) + Left(threads[|threads| - 1])
  }

  lemma {:induction false} LeftUpdate(threads: seq<Phase>, i: nat, p: Phase)
    requires i < |threads|
    ensures AllLeft(threads[i := p]) + Left(threads[i]) == AllLeft(threads) + Left(p)
  {
    var n := |threads| - 1;
    if i < n {
      LeftUpdate(threads[..n], i, p);
      assert threads[i := p][..n] == threads[..n][i := p];
    } else {
      assert threads[i := p][..n] == threads[..n];
    }
  }

  /** The next step of a connection that is not gone. */
  function NextOf(s: State, i: nat): (l: Step)
    requires i < |s.threads| && !s.threads[i].Gone?
    ensures Enabled(s, l) && Finishes(l) && |Apply(s, l).threads| == |s.threads|
    ensures Apply(s, l).threads == s.threads[i := Apply(s, l).threads[i]]
    ensures Left(Apply(s, l).threads[i]) < Left(s.threads[i])
  {
    match s.threads[i]
    case ClientProbe(_) => ClientVerdict(i)
    case Client => Drop(i)
    case StreamProbe(_) => StreamVerdict(i)
    case Switching => ReleaseOld(i)
    case Stream => DropStream(i)
  }

  /** From every reachable state the connections can all finish, each by its own next steps, and then
      both lanes are empty. */
  lemma {:induction false} AllCanFinish(trace: seq<State>, steps: seq<Step>)
    returns (longer: seq<State>, more: seq<Step>)
    requires Run(trace, steps)
    ensures Run(longer, more) && |steps| <= |more| && more[..|steps|] == steps
    ensures forall i :: |steps| <= i < |more| ==> Finishes(more[i])
    ensures var t := longer[|longer| - 1];
      (forall p :: p in t.threads ==> p.Gone?) && t.active == 0 && t.streams == 0
    decreases AllLeft(trace[|trace| - 1].threads)
  {
    var s := trace[|trace| - 1];
    longer, more := trace, steps;
    if i: nat :| i < |s.threads| && !s.threads[i].Gone? {
      var l := NextOf(s, i);
      longer, more := ExtendRun(trace, steps, l);
      LeftUpdate(s.threads, i, Apply(s, l).threads[i]);
      longer, more := trace + [Apply(s, l)], steps + [l];
      var last, done := AllCanFinish(longer, more);
      assert done[..|steps|] == done[..|more|][..|steps|];
      forall j | |steps| <= j < |done| ensures Finishes(done[j]) {
        if j < |more| { assert done[j] == done[..|more|][j]; }
      }
      longer, more := last, done;
    } else {
      QuiescentIsZero(trace, steps, |trace| - 1);
    }
  }
}
