/** The transactional edit of `src/edit.rs`: optimistic commit under a cooperative per-file
    lock, with bounded retries. A revision is a digest of the file's bytes; digests are taken
    to be collision-free, so a revision is modelled by the content itself. */
module Editor {
  import opened Options
  import opened Strings
  import opened Splice

  const MAX_RETRIES := 2

  datatype Content = Utf8(text: string) | Binary(bytes: seq<int>)

  /** Everything that was ever put into the file, and by whom. */
  datatype Write = Foreign(content: Content) | Commit(content: Content, request: Request)

  /** Where an I/O call of one attempt fails, if it does. */
  datatype Fault = Smooth | Read | Stage | Reread | Rename | DirectorySync

  /** What the world does during one attempt: a foreign write before the snapshot is read, one
      at the hook before the commit, and an I/O fault. Between the second read and the rename no
      foreign write is assumed. */
  datatype Round = Round(beforeRead: Option<Content>, atHook: Option<Content>, fault: Fault)

  datatype Call = Call(request: Request, repaired: bool)

  datatype Result =
    | Done(previous: string, next: string, recovered: bool, direct: bool, repaired: bool, rebased: bool, retries: nat)
    | Failed(conflict: Conflict, retries: nat, revision: Option<Content>)

  predicate WellFormed(r: Request) {
    r.kind.Append? == r.target.None? && (r.target.Some? ==> r.target.value != [])
  }

  predicate Stale(r: Request, text: string) {
    r.expected.Some? && r.expected.value != text
  }

  // ---- specification ----

  datatype Trail = Trail(result: Result, log: seq<Write>)

  function Settle(file: Content, w: Option<Content>): Content {
    if w.Some? then w.value else file
  }

  function Logged(w: Option<Content>): seq<Write> {
    if w.Some? then [Foreign(w.value)] else []
  }

  /** The snapshot of one attempt either refuses the edit or yields the text to commit. */
  function Plan(file: Content, r: Request, retries: nat): (p: (Result, string, bool))
  {
    if file.Binary? then (Failed(UnsupportedOperation, 0, None), "", false)
    else
      var stale := Stale(r, file.text);
      var stop := Failed(StaleRevision, retries, Some(file));
      if stale && r.kind.Append? then (stop, "", false)
      else
        match Resolve(file.text, r)
        case Refused(conflict) =>
          (Failed(if stale && conflict.MissingTarget? then StaleRevision else conflict, retries, Some(file)), "", false)
        case Resolved(next, recovered) =>
          if stale && recovered then (stop, "", false)
          else (Done(file.text, next, recovered, false, false, false, retries), next, true)
  }

  /** One pass of the loop: what it returns (`None` to go around again) and what was written. */
  datatype Pass = Pass(result: Option<Result>, log: seq<Write>)

  function Stop(result: Result, log: seq<Write>): Pass {
    Pass(Some(result), log)
  }

  const IO := Failed(IOFailure, 0, None)

  function Commits(snapshot: string, next: string, recovered: bool, call: Call, retries: nat): Result {
    var stale := Stale(call.request, snapshot);
    Done(snapshot, next, recovered,
         !stale && !recovered && retries == 0 && !call.repaired,
         call.repaired || recovered, stale || retries > 0, retries)
  }

  function Attempt(file: Content, call: Call, round: Round, retries: nat): (p: Pass)
    requires retries <= MAX_RETRIES
    ensures p.result.None? ==> retries < MAX_RETRIES
  {
    var snapshot := Settle(file, round.beforeRead);
    var seen := Logged(round.beforeRead);
    if round.fault.Read? then Stop(IO, seen)
    else
      var (plan, next, ready) := Plan(snapshot, call.request, retries);
      if !ready then Stop(plan, seen)
      else if round.fault.Stage? then Stop(IO, seen)
      else
        var latest := Settle(snapshot, round.atHook);
        var log := seen + Logged(round.atHook);
        if round.fault.Reread? then Stop(IO, log)
        else if latest != snapshot then
          if retries == MAX_RETRIES then Stop(Failed(ConcurrentModification, retries, Some(latest)), log)
          else Pass(None, log)
        else if round.fault.Rename? then Stop(IO, log)
        else
          var committed := log + [Commit(Utf8(next), call.request)];
          if round.fault.DirectorySync? then Stop(IO, committed)
          else Stop(Commits(snapshot.text, next, plan.recovered, call, retries), committed)
  }

  /** The loop from its `retries`-th pass on: its result and everything written to the file. */
  function Attempts(file: Content, call: Call, world: seq<Round>, retries: nat): Trail
    requires retries <= MAX_RETRIES < |world|
    decreases MAX_RETRIES - retries
  {
    var pass := Attempt(file, call, world[retries], retries);
    if pass.result.Some? then Trail(pass.result.value, pass.log)
    else
      var rest := Attempts(After(file, pass.log), call, world, retries + 1);
      Trail(rest.result, pass.log + rest.log)
  }

  function Edit(file: Content, call: Call, world: seq<Round>): Trail
    requires MAX_RETRIES < |world|
  {
    if !WellFormed(call.request) then Trail(Failed(InvalidRequest, 0, None), [])
    else Attempts(file, call, world, 0)
  }

  function After(file: Content, log: seq<Write>): Content {
    if log == [] then file else log[|log| - 1].content
  }

  // ---- the implementation ----

  class File {
    var content: Content
    ghost var log: seq<Write>

    constructor (initial: Content)
      ensures content == initial && log == []
    {
      content, log := initial, [];
    }

    method ForeignWrite(w: Option<Content>)
      modifies this
      ensures content == Settle(old(content), w) && log == old(log) + Logged(w)
    {
      if w.Some? {
        content, log := w.value, log + [Foreign(w.value)];
      }
    }

    method Persist(text: string, ghost request: Request)
      modifies this
      ensures content == Utf8(text) && log == old(log) + [Commit(Utf8(text), request)]
    {
      content, log := Utf8(text), log + [Commit(Utf8(text), request)];
    }
  }

  /** One pass over the file. */
  method Try(file: File, call: Call, round: Round, retries: nat) returns (result: Option<Result>)
    requires retries <= MAX_RETRIES
    modifies file
    ensures var pass := Attempt(old(file.content), call, round, retries);
      && result == pass.result
      && file.log == old(file.log) + pass.log
      && file.content == After(old(file.content), pass.log)
  {
    file.ForeignWrite(round.beforeRead);
    if round.fault.Read? { return Some(IO); }
    var snapshot := file.content;
    var (plan, next, ready) := Plan(snapshot, call.request, retries);
    if !ready { return Some(plan); }
    if round.fault.Stage? { return Some(IO); }
    file.ForeignWrite(round.atHook);
    if round.fault.Reread? { return Some(IO); }
    if file.content != snapshot {
      if retries == MAX_RETRIES { return Some(Failed(ConcurrentModification, retries, Some(file.content))); }
      return None;
    }
    if round.fault.Rename? { return Some(IO); }
    file.Persist(next, call.request);
    if round.fault.DirectorySync? { return Some(IO); }
    return Some(Commits(snapshot.text, next, plan.recovered, call, retries));
  }

  /** `apply_inner`, with the lock held throughout. */
  method Apply(file: File, call: Call, world: seq<Round>) returns (result: Result)
    requires MAX_RETRIES < |world|
    modifies file
    ensures var trail := Edit(old(file.content), call, world);
      && result == trail.result
      && file.log == old(file.log) + trail.log
      && file.content == After(old(file.content), trail.log)
  {
    if !WellFormed(call.request) { return Failed(InvalidRequest, 0, None); }
    var retries := 0;
    ghost var done: seq<Write> := [];
    ghost var trail := Attempts(file.content, call, world, 0);
    while true
      invariant retries <= MAX_RETRIES
      invariant file.log == old(file.log) + done && file.content == After(old(file.content), done)
      invariant Continues(trail, done, Attempts(file.content, call, world, retries))
      decreases MAX_RETRIES - retries
    {
      ghost var before := file.content;
      ghost var pass := Attempt(before, call, world[retries], retries);
      AttemptsStep(before, call, world, retries, trail, done);
      AfterConcat(old(file.content), done, pass.log);
      Associative(old(file.log), done, pass.log);
      var stopped := Try(file, call, world[retries], retries);
      done := done + pass.log;
      if stopped.Some? { return stopped.value; }
      retries := retries + 1;
    }
  }

  ghost predicate Continues(trail: Trail, done: seq<Write>, rest: Trail) {
    trail.result == rest.result && trail.log == done + rest.log
  }

  lemma AttemptsStep(file: Content, call: Call, world: seq<Round>, retries: nat, trail: Trail, done: seq<Write>)
    requires retries <= MAX_RETRIES < |world|
    requires Continues(trail, done, Attempts(file, call, world, retries))
    ensures var pass := Attempt(file, call, world[retries], retries);
      if pass.result.Some? then trail == Trail(pass.result.value, done + pass.log)
      else Continues(trail, done + pass.log, Attempts(After(file, pass.log), call, world, retries + 1))
  {
    var pass := Attempt(file, call, world[retries], retries);
    if pass.result.None? {
      var rest := Attempts(After(file, pass.log), call, world, retries + 1);
      assert done + (pass.log + rest.log) == done + pass.log + rest.log;
    }
  }

  // ---- what every call does ----

  function Before(file: Content, log: seq<Write>, i: nat): Content
    requires i < |log|
  {
    if i == 0 then file else log[i - 1].content
  }

  /** A commit that replaced `before`: its text is the resolution of exactly that content, and a
      stale request got through neither as an append nor with a recovered needle. */
  ghost predicate SoundCommit(before: Content, w: Write)
    requires w.Commit?
  {
    && before.Utf8?
    && Resolve(before.text, w.request).Resolved?
    && w.content == Utf8(Resolve(before.text, w.request).next)
    && (Stale(w.request, before.text) ==> !w.request.kind.Append? && !Resolve(before.text, w.request).recovered)
  }

  ghost predicate Sound(file: Content, log: seq<Write>) {
    forall i :: 0 <= i < |log| && log[i].Commit? ==> SoundCommit(Before(file, log, i), log[i])
  }

  ghost predicate NoCommit(log: seq<Write>) {
    forall i :: 0 <= i < |log| ==> log[i].Foreign?
  }

  lemma SoundConcat(file: Content, a: seq<Write>, b: seq<Write>)
    requires Sound(file, a) && Sound(After(file, a), b)
    ensures Sound(file, a + b)
  {
    forall i | 0 <= i < |a + b| && (a + b)[i].Commit?
      ensures SoundCommit(Before(file, a + b, i), (a + b)[i])
    {
      if i >= |a| { assert Before(file, a + b, i) == Before(After(file, a), b, i - |a|); }
    }
  }

  lemma AfterConcat(file: Content, a: seq<Write>, b: seq<Write>)
    ensures After(file, a + b) == After(After(file, a), b)
  {}

  /** What one call may leave behind: nothing of its own, or one commit as its last write. */
  ghost predicate Outcome(file: Content, call: Call, trail: Trail) {
    var n := |trail.log|;
    && Sound(file, trail.log)
    && (forall i :: 0 <= i < n - 1 ==> trail.log[i].Foreign?)
    && (trail.result.Done? ==>
          && n > 0 && trail.log[n - 1] == Commit(Utf8(trail.result.next), call.request)
          && Before(file, trail.log, n - 1) == Utf8(trail.result.previous)
          && trail.result.recovered == Resolve(trail.result.previous, call.request).recovered
          && trail.result.rebased == (Stale(call.request, trail.result.previous) || trail.result.retries > 0)
          && trail.result.repaired == (call.repaired || trail.result.recovered)
          && trail.result.direct == !(trail.result.rebased || trail.result.repaired))
    && trail.result.retries <= MAX_RETRIES
    && (trail.result.Failed? && !NoCommit(trail.log) ==> trail.result.conflict.IOFailure?)
    && (trail.result.Failed? && trail.result.conflict.ConcurrentModification? ==> trail.result.retries == MAX_RETRIES)
  }

  lemma PlanSound(file: Content, r: Request, retries: nat)
    ensures var (plan, next, ready) := Plan(file, r, retries);
      && (ready <==> plan.Done?)
      && (ready ==> file.Utf8? && Resolve(file.text, r) == Resolved(next, plan.recovered) && plan.previous == file.text
                    && SoundCommit(file, Commit(Utf8(next), r)))
      && (!ready ==> !plan.conflict.ConcurrentModification? && plan.retries <= retries)
  {}

  lemma {:induction false} CommitOutcome(file: Content, call: Call, log: seq<Write>, text: string)
    requires NoCommit(log) && SoundCommit(After(file, log), Commit(Utf8(text), call.request))
    ensures var whole := log + [Commit(Utf8(text), call.request)];
      && Sound(file, whole) && Before(file, whole, |log|) == After(file, log)
      && forall i :: 0 <= i < |whole| - 1 ==> whole[i].Foreign?
  {
    var whole := log + [Commit(Utf8(text), call.request)];
    assert Before(file, whole, |log|) == After(file, log);
  }

  predicate Commitable(file: Content, call: Call, round: Round, retries: nat)
    requires retries <= MAX_RETRIES
  {
    var snapshot := Settle(file, round.beforeRead);
    Plan(snapshot, call.request, retries).2 && Settle(snapshot, round.atHook) == snapshot
      && !round.fault.Read? && !round.fault.Stage? && !round.fault.Reread? && !round.fault.Rename?
  }

  lemma SettledAfter(file: Content, round: Round)
    ensures var log := Logged(round.beforeRead) + Logged(round.atHook);
      NoCommit(log) && After(file, log) == Settle(Settle(file, round.beforeRead), round.atHook)
  {}

  /** A pass that does not get to its rename writes nothing of its own. */
  lemma AttemptIdle(file: Content, call: Call, round: Round, retries: nat)
    requires retries <= MAX_RETRIES && !Commitable(file, call, round, retries)
    ensures var pass := Attempt(file, call, round, retries);
      && NoCommit(pass.log)
      && (pass.result.Some? ==> pass.result.value.Failed? && pass.result.value.retries <= retries)
      && (pass.result.Some? && pass.result.value.conflict.ConcurrentModification? ==>
          pass.result.value.retries == MAX_RETRIES)
  {
    SettledAfter(file, round);
    PlanSound(Settle(file, round.beforeRead), call.request, retries);
  }

  lemma IdleOutcome(file: Content, call: Call, result: Result, log: seq<Write>)
    requires NoCommit(log) && result.Failed? && result.retries <= MAX_RETRIES
    requires result.conflict.ConcurrentModification? ==> result.retries == MAX_RETRIES
    ensures Outcome(file, call, Trail(result, log))
  {}

  /** One that does leaves its resolution as the last write. */
  lemma AttemptCommits(file: Content, call: Call, round: Round, retries: nat)
    requires retries <= MAX_RETRIES && Commitable(file, call, round, retries)
    ensures var pass := Attempt(file, call, round, retries);
      var snapshot := Settle(file, round.beforeRead);
      var (plan, next, ready) := Plan(snapshot, call.request, retries);
      && snapshot.Utf8? && plan.Done?
      && pass.log == Logged(round.beforeRead) + Logged(round.atHook) + [Commit(Utf8(next), call.request)]
      && pass.result ==
          Some(if round.fault.DirectorySync? then IO else Commits(snapshot.text, next, plan.recovered, call, retries))
  {
    PlanSound(Settle(file, round.beforeRead), call.request, retries);
  }

  lemma {:induction false} AttemptOutcome(file: Content, call: Call, round: Round, retries: nat)
    requires retries <= MAX_RETRIES
    ensures var pass := Attempt(file, call, round, retries);
      if pass.result.None? then NoCommit(pass.log) else Outcome(file, call, Trail(pass.result.value, pass.log))
  {
    var pass := Attempt(file, call, round, retries);
    if Commitable(file, call, round, retries) {
      AttemptCommits(file, call, round, retries);
      SettledAfter(file, round);
      PlanSound(Settle(file, round.beforeRead), call.request, retries);
      CommitOutcome(file, call, Logged(round.beforeRead) + Logged(round.atHook),
        Plan(Settle(file, round.beforeRead), call.request, retries).1);
    } else {
      AttemptIdle(file, call, round, retries);
      if pass.result.Some? { IdleOutcome(file, call, pass.result.value, pass.log); }
    }
  }

  lemma {:induction false} AttemptsOutcome(file: Content, call: Call, world: seq<Round>, retries: nat)
    requires retries <= MAX_RETRIES < |world|
    ensures Outcome(file, call, Attempts(file, call, world, retries))
    decreases MAX_RETRIES - retries
  {
    AttemptOutcome(file, call, world[retries], retries);
    var pass := Attempt(file, call, world[retries], retries);
    if pass.result.None? {
      AttemptsOutcome(After(file, pass.log), call, world, retries + 1);
      RetryOutcome(file, call, pass.log, Attempts(After(file, pass.log), call, world, retries + 1));
    }
  }

  lemma {:induction false} RetryOutcome(file: Content, call: Call, log: seq<Write>, rest: Trail)
    requires NoCommit(log) && Outcome(After(file, log), call, rest)
    ensures Outcome(file, call, Trail(rest.result, log + rest.log))
  {
    SoundConcat(file, log, rest.log);
    NoCommitConcat(log, rest.log);
    ForeignBefore(log, rest.log);
    if rest.log != [] { LastWrite(file, log, rest.log); }
  }

  lemma ForeignBefore(a: seq<Write>, b: seq<Write>)
    requires NoCommit(a) && forall i :: 0 <= i < |b| - 1 ==> b[i].Foreign?
    ensures forall i :: 0 <= i < |a + b| - 1 ==> (a + b)[i].Foreign?
  {}

  lemma LastWrite(file: Content, a: seq<Write>, b: seq<Write>)
    requires b != []
    ensures (a + b)[|a + b| - 1] == b[|b| - 1]
    ensures Before(file, a + b, |a + b| - 1) == Before(After(file, a), b, |b| - 1)
  {}

  /** Each call either leaves no write of its own, or exactly one: the resolution of the very
      content it replaces. Its flags say how it got there, and it retries at most twice. */
  lemma {:induction false} CallOutcome(file: Content, call: Call, world: seq<Round>)
    requires MAX_RETRIES < |world|
    ensures Outcome(file, call, Edit(file, call, world))
  {
    if WellFormed(call.request) { AttemptsOutcome(file, call, world, 0); }
  }

  /** A failed call wrote nothing exactly unless the directory sync after its rename is what
      failed: only that error is reported for an edit that is already in the file. */
  lemma {:induction false} FailureWroteNothing(file: Content, call: Call, world: seq<Round>)
    requires MAX_RETRIES < |world| && Edit(file, call, world).result.Failed?
    ensures NoCommit(Edit(file, call, world).log) <==> !SyncFailed(file, call, world, 0)
  {
    if WellFormed(call.request) { FailureFrom(file, call, world, 0); }
  }

  /** The pass that reaches its rename is one whose directory sync fails. */
  predicate SyncFailed(file: Content, call: Call, world: seq<Round>, retries: nat)
    requires retries <= MAX_RETRIES < |world|
    decreases MAX_RETRIES - retries
  {
    var round := world[retries];
    var snapshot := Settle(file, round.beforeRead);
    var latest := Settle(snapshot, round.atHook);
    && WellFormed(call.request)
    && Plan(snapshot, call.request, retries).2
    && (if latest == snapshot then round.fault.DirectorySync?
        else !round.fault.Read? && !round.fault.Stage? && !round.fault.Reread? && retries < MAX_RETRIES
             && SyncFailed(latest, call, world, retries + 1))
  }

  /** An append whose directory sync fails: the call reports an I/O failure, and its text is in the file. */
  lemma {:induction false} FailedCallWrote(file: string, content: string)
    ensures var request := Request(Append, None, None, content);
      var round := Round(None, None, DirectorySync);
      var trail := Edit(Utf8(file), Call(request, false), [round, round, round]);
      && trail.result == IO && trail.log == [Commit(Utf8(file + content), request)]
  {
    var request := Request(Append, None, None, content);
    var round := Round(None, None, DirectorySync);
    var pass := Attempt(Utf8(file), Call(request, false), round, 0);
    assert [] + [] + [Commit(Utf8(file + content), request)] == [Commit(Utf8(file + content), request)];
    assert pass == Stop(IO, [Commit(Utf8(file + content), request)]);
    assert [round, round, round][0] == round;
  }

  /** A pass that goes around again met a foreign write, and left the file as that write did. */
  lemma AttemptRetries(file: Content, call: Call, round: Round, retries: nat)
    requires retries <= MAX_RETRIES && Attempt(file, call, round, retries).result.None?
    ensures var snapshot := Settle(file, round.beforeRead); var latest := Settle(snapshot, round.atHook);
      var log := Attempt(file, call, round, retries).log;
      && retries < MAX_RETRIES && latest != snapshot && Plan(snapshot, call.request, retries).2
      && !round.fault.Read? && !round.fault.Stage? && !round.fault.Reread?
      && NoCommit(log) && After(file, log) == latest
  {
    SettledAfter(file, round);
  }

  lemma SyncFailedLater(file: Content, call: Call, world: seq<Round>, retries: nat)
    requires retries <= MAX_RETRIES < |world| && WellFormed(call.request)
    requires Attempt(file, call, world[retries], retries).result.None?
    ensures retries < MAX_RETRIES
    ensures SyncFailed(file, call, world, retries) <==>
      SyncFailed(After(file, Attempt(file, call, world[retries], retries).log), call, world, retries + 1)
  {
    AttemptRetries(file, call, world[retries], retries);
  }

  lemma {:induction false} FailureFrom(file: Content, call: Call, world: seq<Round>, retries: nat)
    requires retries <= MAX_RETRIES < |world| && WellFormed(call.request)
    requires Attempts(file, call, world, retries).result.Failed?
    ensures NoCommit(Attempts(file, call, world, retries).log) <==> !SyncFailed(file, call, world, retries)
    decreases MAX_RETRIES - retries
  {
    var pass := Attempt(file, call, world[retries], retries);
    if pass.result.None? {
      AttemptRetries(file, call, world[retries], retries);
      SyncFailedLater(file, call, world, retries);
      FailureFrom(After(file, pass.log), call, world, retries + 1);
      NoCommitConcat(pass.log, Attempts(After(file, pass.log), call, world, retries + 1).log);
    } else {
      AttemptFailure(file, call, world[retries], retries);
    }
  }

  lemma NoCommitConcat(a: seq<Write>, b: seq<Write>)
    requires NoCommit(a)
    ensures NoCommit(a + b) <==> NoCommit(b)
  {
    assert forall i :: 0 <= i < |b| ==> (a + b)[|a| + i] == b[i];
  }

  lemma AttemptFailure(file: Content, call: Call, round: Round, retries: nat)
    requires retries <= MAX_RETRIES && Attempt(file, call, round, retries).result.Some?
    requires Attempt(file, call, round, retries).result.value.Failed?
    ensures var snapshot := Settle(file, round.beforeRead);
      NoCommit(Attempt(file, call, round, retries).log) <==>
      !(Plan(snapshot, call.request, retries).2 && Settle(snapshot, round.atHook) == snapshot
        && round.fault.DirectorySync?)
  {
    var log := Attempt(file, call, round, retries).log;
    if log != [] && log[|log| - 1].Commit? { assert !NoCommit(log); }
  }

  /** Undisturbed, a call succeeds at once exactly when its request resolves on the current
      content and is not a stale append or a stale recovery. */
  lemma {:induction false} QuietCall(text: string, call: Call, world: seq<Round>)
    requires MAX_RETRIES < |world| && world[0] == Round(None, None, Smooth) && WellFormed(call.request)
    ensures var result := Edit(Utf8(text), call, world).result; var r := call.request;
      && result.retries == 0
      && (result.Done? <==>
          Resolve(text, r).Resolved? && !(Stale(r, text) && (r.kind.Append? || Resolve(text, r).recovered)))
  {}

  // ---- runs of cooperating editors ----

  datatype Job = Job(call: Call, world: seq<Round>)

  ghost predicate Ready(jobs: seq<Job>) {
    forall i :: 0 <= i < |jobs| ==> MAX_RETRIES < |jobs[i].world|
  }

  /** The calls in the order in which they get the lock. */
  ghost function RunAll(file: Content, jobs: seq<Job>): seq<Write>
    requires Ready(jobs)
    decreases |jobs|
  {
    if jobs == [] then []
    else
      var log := Edit(file, jobs[0].call, jobs[0].world).log;
      log + RunAll(After(file, log), jobs[1..])
  }

  /** In every run of cooperating editors with foreign writes between and inside the calls, no
      commit is ever computed from anything but the content it replaces: no update is lost. */
  lemma {:induction false} NoLostUpdate(file: Content, jobs: seq<Job>)
    requires Ready(jobs)
    ensures Sound(file, RunAll(file, jobs))
    decreases |jobs|
  {
    if jobs != [] {
      var log := Edit(file, jobs[0].call, jobs[0].world).log;
      CallOutcome(file, jobs[0].call, jobs[0].world);
      NoLostUpdate(After(file, log), jobs[1..]);
      SoundConcat(file, log, RunAll(After(file, log), jobs[1..]));
    }
  }
}
