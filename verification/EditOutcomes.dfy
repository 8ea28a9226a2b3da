/** The outcome of an edit call read off the world it meets: which pass decides it, and how. */
module EditOutcomes {
  import opened Options
  import opened Splice
  import opened Editor

  /** What pass `r` reads, if it is reached: everything written so far was foreign. */
  function Found(file: Content, world: seq<Round>, r: nat): Content
    requires r < |world|
  {
    if r == 0 then Settle(file, world[0].beforeRead)
    else Settle(Settle(Found(file, world, r - 1), world[r - 1].atHook), world[r].beforeRead)
  }

  /** Another writer changes the file between that reading and the commit. */
  predicate Disturbed(file: Content, world: seq<Round>, r: nat)
    requires r < |world|
  {
    world[r].atHook.Some? && world[r].atHook.value != Found(file, world, r)
  }

  /** Why a content refuses a request, if it does. */
  function Refusal(content: Content, request: Request): Option<Conflict> {
    if content.Binary? then Some(UnsupportedOperation)
    else
      var stale := request.expected.Some? && request.expected.value != content.text;
      var resolved := Resolve(content.text, request);
      if stale && request.kind.Append? then Some(StaleRevision)
      else if resolved.Refused? then
        Some(if stale && resolved.conflict.MissingTarget? then StaleRevision else resolved.conflict)
      else if stale && resolved.recovered then Some(StaleRevision)
      else None
  }

  /** The pass goes around again: nothing fails or refuses, but the file has changed. */
  predicate GoesAround(file: Content, call: Call, world: seq<Round>, r: nat)
    requires r < |world|
  {
    && Refusal(Found(file, world, r), call.request).None? && Disturbed(file, world, r)
    && !world[r].fault.Read? && !world[r].fault.Stage? && !world[r].fault.Reread?
  }

  /** What the deciding pass makes of the call. */
  ghost predicate Decides(file: Content, call: Call, world: seq<Round>, r: nat, result: Result, commits: bool)
    requires r < |world|
  {
    var round, found := world[r], Found(file, world, r);
    var refusal := Refusal(found, call.request);
    if round.fault.Read? then result == IO && !commits
    else if refusal.Some? then
      && !commits
      && result == if found.Binary? then Failed(refusal.value, 0, None) else Failed(refusal.value, r, Some(found))
    else if round.fault.Stage? || round.fault.Reread? then result == IO && !commits
    else if Disturbed(file, world, r) then
      !commits && result == Failed(ConcurrentModification, r, world[r].atHook)
    else if round.fault.Rename? then result == IO && !commits
    else
      && commits
      && if round.fault.DirectorySync? then result == IO
         else
           var next := Resolve(found.text, call.request);
           var stale := call.request.expected.Some? && call.request.expected.value != found.text;
           result == Done(found.text, next.next, next.recovered,
             !stale && !next.recovered && r == 0 && !call.repaired,
             call.repaired || next.recovered, stale || r > 0, r)
  }

  lemma PlanRefuses(content: Content, request: Request, r: nat)
    ensures var (plan, next, ready) := Plan(content, request, r); var refusal := Refusal(content, request);
      && (ready <==> refusal.None?)
      && (!ready ==>
            plan == if content.Binary? then Failed(refusal.value, 0, None) else Failed(refusal.value, r, Some(content)))
      && (ready ==> content.Utf8? && plan.Done? && Resolve(content.text, request) == Resolved(next, plan.recovered))
  {}

  predicate Committed(log: seq<Write>) {
    log != [] && log[|log| - 1].Commit?
  }

  lemma PassGoes(file: Content, first: Content, call: Call, world: seq<Round>, r: nat)
    requires r < MAX_RETRIES < |world| && Settle(first, world[r].beforeRead) == Found(file, world, r)
    requires GoesAround(file, call, world, r)
    ensures var pass := Attempt(first, call, world[r], r);
      pass.result.None? && After(first, pass.log) == Settle(Found(file, world, r), world[r].atHook)
  {
    PlanRefuses(Found(file, world, r), call.request, r);
    SettledAfter(first, world[r]);
  }

  lemma PassStops(file: Content, first: Content, call: Call, world: seq<Round>, r: nat)
    requires r <= MAX_RETRIES < |world| && Settle(first, world[r].beforeRead) == Found(file, world, r)
    requires r == MAX_RETRIES || !GoesAround(file, call, world, r)
    ensures var pass := Attempt(first, call, world[r], r);
      pass.result.Some? && Decides(file, call, world, r, pass.result.value, Committed(pass.log))
  {
    PlanRefuses(Found(file, world, r), call.request, r);
    SettledAfter(first, world[r]);
  }

  lemma CommittedLater(a: seq<Write>, b: seq<Write>)
    requires NoCommit(a)
    ensures Committed(a + b) <==> Committed(b)
  {
    if b == [] { assert a + b == a; } else { assert (a + b)[|a + b| - 1] == b[|b| - 1]; }
  }

  lemma {:induction false} PassesFrom(file: Content, first: Content, call: Call, world: seq<Round>, r: nat)
    returns (d: nat)
    requires r <= MAX_RETRIES < |world| && Settle(first, world[r].beforeRead) == Found(file, world, r)
    ensures r <= d <= MAX_RETRIES
    ensures forall q :: r <= q < d ==> GoesAround(file, call, world, q)
    ensures d == MAX_RETRIES || !GoesAround(file, call, world, d)
    ensures var trail := Attempts(first, call, world, r);
      Decides(file, call, world, d, trail.result, Committed(trail.log))
    decreases MAX_RETRIES - r
  {
    d := r;
    if r < MAX_RETRIES && GoesAround(file, call, world, r) {
      var pass := Attempt(first, call, world[r], r);
      PassGoes(file, first, call, world, r);
      AttemptRetries(first, call, world[r], r);
      d := PassesFrom(file, After(first, pass.log), call, world, r + 1);
      CommittedLater(pass.log, Attempts(After(first, pass.log), call, world, r + 1).log);
    } else {
      PassStops(file, first, call, world, r);
    }
  }

  /** A well-formed call is decided by its first pass that does not go around again, or by the third,
      exactly as that pass's reading, the other writers and the faults say; and only then, with nothing
      in the way, does it commit. */
  lemma {:induction false} CallDecided(file: Content, call: Call, world: seq<Round>) returns (d: nat)
    requires MAX_RETRIES < |world| && WellFormed(call.request)
    ensures d <= MAX_RETRIES && forall q :: 0 <= q < d ==> GoesAround(file, call, world, q)
    ensures d == MAX_RETRIES || !GoesAround(file, call, world, d)
    ensures var trail := Edit(file, call, world);
      Decides(file, call, world, d, trail.result, Committed(trail.log))
  {
    d := PassesFrom(file, file, call, world, 0);
  }
}
