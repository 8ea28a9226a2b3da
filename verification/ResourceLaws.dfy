/** What every run of registry calls keeps, against the unbounded history it abbreviates. */
module ResourceLaws {
  import opened Options
  import opened Strings
  import opened Facts
  import opened Resources

  // ---- the bound is the top of a ranking ----

  /** `kept` are the first `MAX_RESOURCES` entries of `times` in rank order. */
  ghost predicate Top(times: map<string, int>, kept: set<string>) {
    && kept <= times.Keys
    && |kept| == (if |times| <= MAX_RESOURCES then |times| else MAX_RESOURCES)
    && forall k, l :: k in kept && l in times.Keys - kept ==> Outranks(times[k], k, times[l], l)
  }

  lemma RankingHead(times: map<string, int>) returns (k: string)
    requires times != map[]
    ensures Best(times, k) && Ranking(times) == [k] + Ranking(times - {k})
    ensures |times - {k}| == |times| - 1 && (times - {k}).Keys == times.Keys - {k}
  {
    BestExists(times);
    BestUnique(times);
    k :| Best(times, k);
    SmallerWithout(times, k);
  }

  ghost predicate Descends(times: map<string, int>, r: seq<string>) {
    && (forall k :: k in r ==> k in times)
    && (forall i, j :: 0 <= i < j < |r| ==> r[i] != r[j] && Outranks(times[r[i]], r[i], times[r[j]], r[j]))
  }

  lemma Prepend(times: map<string, int>, k: string, r: seq<string>)
    requires Best(times, k) && (forall l :: l in r ==> l in times - {k}) && Descends(times - {k}, r)
    ensures Descends(times, [k] + r)
  {
    assert forall l :: l in r ==> l in times && l != k && times[l] == (times - {k})[l];
  }

  lemma {:induction false} RankingDescends(times: map<string, int>)
    ensures Descends(times, Ranking(times))
    decreases |times|
  {
    if times != map[] {
      var k := RankingHead(times);
      RankingDescends(times - {k});
      Prepend(times, k, Ranking(times - {k}));
    }
  }

  lemma TailMember(r: seq<string>, n: nat, i: nat)
    ensures n <= i < |r| ==> r[i] in r[n..]
  {
    if n <= i < |r| { assert r[n..][i - n] == r[i]; }
  }

  lemma {:induction false} ElementsSize(keys: seq<string>)
    requires forall i, j :: 0 <= i < j < |keys| ==> keys[i] != keys[j]
    ensures |Elements(keys)| == |keys|
  {
    if keys == [] {
      assert Elements(keys) == {};
    } else {
      ElementsSize(keys[..|keys| - 1]);
      var n := |keys| - 1;
      assert keys == keys[..n] + [keys[n]];
      assert Elements(keys) == Elements(keys[..n]) + {keys[n]};
    }
  }

  lemma {:induction false} LosersSize<F>(store: Observations<F>)
    ensures |Losers(store)| == if |store| <= MAX_RESOURCES then 0 else |store| - MAX_RESOURCES
  {
    if |store| > MAX_RESOURCES {
      var times := TimeOf(store);
      var r := Ranking(times);
      RankingDescends(times);
      ElementsSize(r[MAX_RESOURCES..]);
    }
  }

  lemma BoundedKeys<F>(store: Observations<F>)
    ensures Bounded(store).Keys == store.Keys - Losers(store)
    ensures |Bounded(store).Keys| == |store| - |Losers(store)|
  {
    assert Bounded(store).Keys == store.Keys - Losers(store);
    assert |store.Keys - Losers(store)| == |store.Keys| - |Losers(store)|;
  }

  /** `enforce_bound` keeps the newest `MAX_RESOURCES` entries, the greater key first among equals. */
  lemma {:induction false} BoundedIsTop<F>(store: Observations<F>)
    ensures Top(TimeOf(store), Bounded(store).Keys)
  {
    var times := TimeOf(store);
    BoundedKeys(store);
    LosersSize(store);
    forall k, l | k in Bounded(store).Keys && l in times.Keys - Bounded(store).Keys
      ensures Outranks(times[k], k, times[l], l)
    {
      assert l in Losers(store);
      Ranked(times, k, l);
    }
  }

  lemma Ranked(times: map<string, int>, k: string, l: string)
    requires |times| > MAX_RESOURCES && k in times
    requires k !in Ranking(times)[MAX_RESOURCES..] && l in Ranking(times)[MAX_RESOURCES..]
    ensures l in times && Outranks(times[k], k, times[l], l)
  {
    var r := Ranking(times);
    assert k in r;
    var i :| 0 <= i < |r| && r[i] == k;
    var j :| 0 <= j < |r| - MAX_RESOURCES && r[MAX_RESOURCES..][j] == l;
    assert r[MAX_RESOURCES + j] == l;
    TailMember(r, MAX_RESOURCES, i);
    RankingDescends(times);
  }

  lemma TopUnique(times: map<string, int>, a: set<string>, b: set<string>)
    requires Top(times, a) && Top(times, b)
    ensures a == b
  {
    if a != b {
      Differ(a, b);
      Differ(b, a);
      var k :| k in a - b;
      var l :| l in b - a;
      OutranksAsymmetric(times[k], k, times[l], l);
    }
  }

  lemma Differ(a: set<string>, b: set<string>)
    requires |a| == |b| && a != b
    ensures a - b != {}
  {
    if a - b == {} {
      assert forall k :: k in a ==> k in a - b || k in b;
      SubsetSize(a, b);
    }
  }

  // ---- runs ----

  datatype FactName = Resolved | Effective | ContextLimit | Capacity | Quota | Cost

  function Pick<F>(o: Observation<F>, name: FactName): Fact<F> {
    match name
    case Resolved => o.resolved
    case Effective => o.effective
    case ContextLimit => o.contextLimit
    case Capacity => o.capacity
    case Quota => o.quota
    case Cost => o.cost
  }

  /** One call of a public entry point: each observes one identity at the time of the call. */
  datatype Call<F> = Call(observation: Observation<F>, now: int, use: Option<string>)

  ghost predicate Genuine<F>(hash: string -> string, call: Call<F>) {
    var o := call.observation;
    && o.id == Derive(hash, o.identity) && o.updatedAt == o.firstSeen == call.now
    && (call.use.Some? ==> o == ForIdentity(hash, o.identity, call.now))
    && forall name :: Pick(o, name).value.Some? || Pick(o, name) == Nothing()
  }

  ghost predicate AllGenuine<F>(hash: string -> string, calls: seq<Call<F>>) {
    forall i :: 0 <= i < |calls| ==> Genuine(hash, calls[i])
  }

  lemma FrontGenuine<F>(hash: string -> string, calls: seq<Call<F>>)
    requires calls != [] && AllGenuine(hash, calls)
    ensures AllGenuine(hash, calls[..|calls| - 1]) && Genuine(hash, calls[|calls| - 1])
  {
    assert forall i :: 0 <= i < |calls| - 1 ==> calls[..|calls| - 1][i] == calls[i];
  }

  function After<F>(r: Registry<F>, hash: string -> string, call: Call<F>): Registry<F> {
    if call.use.Some? then Registered(r, hash, call.observation.identity, call.use.value, call.now)
    else Observe(r, call.observation, call.now)
  }

  function Run<F>(hash: string -> string, calls: seq<Call<F>>): Registry<F> {
    if calls == [] then Registry(map[], map[])
    else After(Run(hash, calls[..|calls| - 1]), hash, calls[|calls| - 1])
  }

  /** Everything ever observed, with the largest time of each key. */
  function History<F>(calls: seq<Call<F>>): map<string, int> {
    if calls == [] then map[]
    else
      var n := |calls| - 1;
      Later(History(calls[..n]), calls[n].observation.id, calls[n].now)
  }

  function Later(history: map<string, int>, id: string, now: int): map<string, int> {
    history[id := if id in history then Max(history[id], now) else now]
  }

  /** The store holds the strongest of the history, with their times. */
  ghost predicate Agrees<F>(store: Observations<F>, history: map<string, int>) {
    && Top(history, store.Keys)
    && forall k :: k in store ==> store[k].updatedAt == history[k]
  }

  lemma DerivedNotEmpty(hash: string -> string, identity: Identity)
    ensures Derive(hash, identity) != "" && Derive(hash, identity)[..4] == "res-"
  {}

  /** What one call does to the times: the store is bounded after the insertion. */
  lemma {:induction false} StepTimes<F>(r: Registry<F>, hash: string -> string, call: Call<F>)
    requires Genuine(hash, call)
    ensures After(r, hash, call).observations == Bounded(Inserted(r.observations, call.observation, call.now))
  {
    DerivedNotEmpty(hash, call.observation.identity);
  }

  lemma {:induction false} InsertedTimes<F>(store: Observations<F>, o: Observation<F>, now: int)
    requires o.updatedAt == now
    ensures TimeOf(Inserted(store, o, now)) == Later(TimeOf(store), o.id, now)
  {}

  lemma Sizes(a: set<string>, b: set<string>, id: string)
    requires a <= b
    ensures |a| <= |b|
    ensures |a + {id}| == if id in a then |a| else |a| + 1
    ensures |b + {id}| == if id in b then |b| else |b| + 1
  {
    SubsetSize(a, b);
    if id in a { assert a + {id} == a; }
    if id in b { assert b + {id} == b; }
  }

  /** A key that was dropped and comes back with an older time is dropped again at once. */
  lemma {:induction false} Returning(
    store: set<string>, history: map<string, int>, id: string, now: int, times: map<string, int>, kept: set<string>)
    requires Top(history, store) && id in history && id !in store && now < history[id]
    requires times.Keys == store + {id} && times[id] == now && forall k :: k in store ==> times[k] == history[k]
    requires Top(times, kept)
    ensures kept == store
  {
    SubsetSize(store, history.Keys);
    assert |history| == |history.Keys| && |times| == |times.Keys|;
    forall k | k in store ensures Outranks(times[k], k, times[id], id) {
      assert Outranks(history[k], k, history[id], id);
    }
    assert times.Keys - store == {id};
    TopUnique(times, kept, store);
  }

  ghost predicate Advanced(
    store: set<string>, history: map<string, int>, id: string, after: map<string, int>, times: map<string, int>) {
    && Top(history, store) && after.Keys == history.Keys + {id}
    && (forall k :: k in after && k != id ==> after[k] == history[k])
    && (id in history ==> after[id] >= history[id])
    && times.Keys == store + {id}
    && (forall k :: k in times ==> times[k] == after[k])
  }

  lemma {:induction false} Advancing(
    store: set<string>, history: map<string, int>, id: string, after: map<string, int>, times: map<string, int>,
    kept: set<string>)
    requires Advanced(store, history, id, after, times) && Top(times, kept)
    ensures Top(after, kept)
  {
    AdvancedSize(store, history, id, after, times);
    forall k, l | k in kept && l in after.Keys - kept ensures Outranks(after[k], k, after[l], l) {
      if l !in times { OldLoser(store, history, id, after, times, kept, k, l); }
    }
  }

  lemma AdvancedSize(
    store: set<string>, history: map<string, int>, id: string, after: map<string, int>, times: map<string, int>)
    requires Advanced(store, history, id, after, times)
    ensures times.Keys <= after.Keys
    ensures if |after| <= MAX_RESOURCES then |times| == |after| else |times| >= MAX_RESOURCES
  {
    Sizes(store, history.Keys, id);
    assert |times| == |times.Keys| && |after| == |after.Keys| && |history| == |history.Keys|;
    if |history| <= MAX_RESOURCES { SubsetSize(store, history.Keys); }
  }

  /** An entry the store had already dropped is outranked by everything now kept. */
  lemma {:induction false} OldLoser(
    store: set<string>, history: map<string, int>, id: string, after: map<string, int>, times: map<string, int>,
    kept: set<string>, k: string, l: string)
    requires Advanced(store, history, id, after, times) && Top(times, kept)
    requires k in kept && l in after && l !in times
    ensures Outranks(after[k], k, after[l], l)
  {
    assert l in history.Keys - store && l != id;
    if k in store {
      assert Outranks(history[k], k, history[l], l);
    } else {
      var out := MadeRoom(store, history, times, kept, k, l);
      assert Outranks(times[k], k, times[out], out);
      assert Outranks(history[out], out, history[l], l);
      OutranksTransitive(after[k], k, after[out], out, after[l], l);
    }
  }

  /** A new key was kept by a full store, so some old entry made room for it. */
  lemma {:induction false} MadeRoom(
    store: set<string>, history: map<string, int>, times: map<string, int>, kept: set<string>, k: string, l: string)
    returns (out: string)
    requires Top(history, store) && Top(times, kept) && times.Keys == store + {k}
    requires k in kept && k !in store && l in history && l !in store
    ensures out in store && out !in kept
  {
    assert |history| == |history.Keys| && |times| == |times.Keys|;
    if |history| <= MAX_RESOURCES { SubsetSize(store, history.Keys); }
    assert |store| == MAX_RESOURCES && |times| == MAX_RESOURCES + 1;
    if times.Keys - kept == {} { SubsetSize(times.Keys, kept); }
    out :| out in times.Keys - kept;
  }

  lemma LaterAdvanced(times: map<string, int>, history: map<string, int>, id: string, now: int)
    requires Top(history, times.Keys) && forall k :: k in times ==> times[k] == history[k]
    requires !(id in history && id !in times && now < history[id])
    ensures Advanced(times.Keys, history, id, Later(history, id, now), Later(times, id, now))
  {}

  lemma {:induction false} TimesAgree(
    times: map<string, int>, history: map<string, int>, id: string, now: int, kept: set<string>)
    requires Top(history, times.Keys) && forall k :: k in times ==> times[k] == history[k]
    requires Top(Later(times, id, now), kept)
    ensures Top(Later(history, id, now), kept)
    ensures forall k :: k in kept ==> Later(times, id, now)[k] == Later(history, id, now)[k]
  {
    var timed, after := Later(times, id, now), Later(history, id, now);
    if id in history && id !in times && now < history[id] {
      Returning(times.Keys, history, id, now, timed, kept);
      assert after == history;
    } else {
      LaterAdvanced(times, history, id, now);
      Advancing(times.Keys, history, id, after, timed, kept);
    }
  }

  lemma {:induction false} StepAgrees<F>(
    r: Registry<F>, history: map<string, int>, hash: string -> string, call: Call<F>)
    requires Genuine(hash, call) && Agrees(r.observations, history)
    ensures Agrees(After(r, hash, call).observations, Later(history, call.observation.id, call.now))
  {
    var id, now := call.observation.id, call.now;
    var full := Inserted(r.observations, call.observation, now);
    StepTimes(r, hash, call);
    InsertedTimes(r.observations, call.observation, now);
    BoundedIsTop(full);
    TimesAgree(TimeOf(r.observations), history, id, now, Bounded(full).Keys);
    BoundedTimes(full);
  }

  lemma BoundedTimes<F>(full: Observations<F>)
    ensures forall k :: k in Bounded(full) ==> Bounded(full)[k].updatedAt == TimeOf(full)[k]
  {}

  /** For every run of calls with arbitrary, even backward, times: the registry is the top 64 of
      the unbounded history by (largest time ever observed, key), and carries those times. */
  lemma {:induction false} RegistryIsTopOfHistory<F>(hash: string -> string, calls: seq<Call<F>>)
    requires AllGenuine(hash, calls)
    ensures Agrees(Run(hash, calls).observations, History(calls))
  {
    if calls != [] {
      var n := |calls| - 1;
      FrontGenuine(hash, calls);
      RegistryIsTopOfHistory(hash, calls[..n]);
      StepAgrees(Run(hash, calls[..n]), History(calls[..n]), hash, calls[n]);
    } else {
      assert Top(History(calls), {});
    }
  }

  /** What the history records of a key. */
  ghost predicate Latest<F>(calls: seq<Call<F>>, k: string, t: int) {
    && (forall i :: 0 <= i < |calls| && calls[i].observation.id == k ==> calls[i].now <= t)
    && (exists i :: 0 <= i < |calls| && calls[i].observation.id == k && calls[i].now == t)
  }

  lemma {:induction false} HistoryKnows<F>(calls: seq<Call<F>>, i: nat)
    requires i < |calls|
    ensures calls[i].observation.id in History(calls)
    ensures calls[i].now <= History(calls)[calls[i].observation.id]
  {
    var n := |calls| - 1;
    if i < n {
      assert calls[..n][i] == calls[i];
      HistoryKnows(calls[..n], i);
    }
  }

  lemma {:induction false} HistoryHappened<F>(calls: seq<Call<F>>, k: string) returns (i: nat)
    requires k in History(calls)
    ensures i < |calls| && calls[i].observation.id == k && calls[i].now == History(calls)[k]
  {
    var n := |calls| - 1;
    if k == calls[n].observation.id && (k in History(calls[..n]) ==> History(calls[..n])[k] < calls[n].now) {
      i := n;
    } else {
      i := HistoryHappened(calls[..n], k);
    }
  }

  /** The history is what it says: exactly the keys observed, each with its largest time. */
  lemma {:induction false} HistoryIsLargestTimes<F>(calls: seq<Call<F>>, k: string)
    ensures k in History(calls) <==> exists i :: 0 <= i < |calls| && calls[i].observation.id == k
    ensures k in History(calls) ==> Latest(calls, k, History(calls)[k])
  {
    if k in History(calls) {
      var i := HistoryHappened(calls, k);
      forall j | 0 <= j < |calls| && calls[j].observation.id == k ensures calls[j].now <= History(calls)[k] {
        HistoryKnows(calls, j);
      }
    } else if i :| 0 <= i < |calls| && calls[i].observation.id == k {
      HistoryKnows(calls, i);
    }
  }

  // ---- what a retained record knows ----

  /** The facts observed for `k` under `name`, in order. */
  function Reported<F>(calls: seq<Call<F>>, k: string, name: FactName): seq<Fact<F>> {
    if calls == [] then []
    else
      var n := |calls| - 1;
      Reported(calls[..n], k, name) + if calls[n].observation.id == k then [Pick(calls[n].observation, name)] else []
  }

  lemma InsertedFact<F>(store: Observations<F>, o: Observation<F>, now: int, k: string, name: FactName)
    requires k in Inserted(store, o, now)
    requires Pick(o, name).value.Some? || Pick(o, name) == Nothing()
    ensures Pick(Inserted(store, o, now)[k], name) ==
      (if k != o.id then Pick(store[k], name)
       else Merge(if k in store then Pick(store[k], name) else Nothing(), Pick(o, name)))
  {}

  lemma FoldExtends<F>(history: seq<Fact<F>>, f: Fact<F>)
    ensures Fold(Nothing(), history + [f]) == Merge(Fold(Nothing(), history), f)
  {
    assert (history + [f])[..|history|] == history;
  }

  /** The facts observed for `k` since it last came into the registry. */
  function Since<F>(hash: string -> string, calls: seq<Call<F>>, k: string, name: FactName): seq<Fact<F>> {
    if calls == [] then []
    else
      var n := |calls| - 1;
      var before := if k in Run(hash, calls[..n]).observations then Since(hash, calls[..n], k, name) else [];
      before + if calls[n].observation.id == k then [Pick(calls[n].observation, name)] else []
  }

  /** In every run, each fact of a record is the fold of what was reported since the record last came
      into the registry: nothing else of the past is in it, and nothing of that is lost. */
  lemma {:induction false} FactsAreFoldsSince<F>(
    hash: string -> string, calls: seq<Call<F>>, k: string, name: FactName)
    requires AllGenuine(hash, calls) && k in Run(hash, calls).observations
    ensures Pick(Run(hash, calls).observations[k], name) == Fold(Nothing(), Since(hash, calls, k, name))
  {
    var n := |calls| - 1;
    var r, call := Run(hash, calls[..n]), calls[n];
    FrontGenuine(hash, calls);
    StepTimes(r, hash, call);
    InsertedFact(r.observations, call.observation, call.now, k, name);
    var before := if k in r.observations then Since(hash, calls[..n], k, name) else [];
    if k in r.observations { FactsAreFoldsSince(hash, calls[..n], k, name); }
    if k == call.observation.id {
      FoldExtends(before, Pick(call.observation, name));
    } else {
      assert before + [] == before;
    }
  }

  /** What was reported for `k` before it last came into the registry. */
  function Lost<F>(hash: string -> string, calls: seq<Call<F>>, k: string, name: FactName): seq<Fact<F>> {
    if calls == [] then []
    else
      var before := calls[..|calls| - 1];
      if k in Run(hash, before).observations then Lost(hash, before, k, name) else Reported(before, k, name)
  }

  lemma {:induction false} LostAndSince<F>(hash: string -> string, calls: seq<Call<F>>, k: string, name: FactName)
    ensures Reported(calls, k, name) == Lost(hash, calls, k, name) + Since(hash, calls, k, name)
  {
    if calls != [] {
      var before, call := calls[..|calls| - 1], calls[|calls| - 1];
      var more := if call.observation.id == k then [Pick(call.observation, name)] else [];
      if k in Run(hash, before).observations {
        LostAndSince(hash, before, k, name);
        Associative(Lost(hash, before, k, name), Since(hash, before, k, name), more);
      }
    }
  }

  /** The record still knows everything ever reported for it if and only if nothing known was lost
      with an earlier record, or something at least as strong and no older was reported since. */
  lemma {:induction false} NothingForgottenIff<F>(
    hash: string -> string, calls: seq<Call<F>>, k: string, name: FactName)
    requires AllGenuine(hash, calls) && k in Run(hash, calls).observations
    ensures var lost := Fold(Nothing(), Lost(hash, calls, k, name));
      var since := Fold(Nothing(), Since(hash, calls, k, name));
      Pick(Run(hash, calls).observations[k], name) == Fold(Nothing(), Reported(calls, k, name)) <==>
      lost.value.None? || (since.value.Some? && YieldsTo(lost, since))
  {
    FactsAreFoldsSince(hash, calls, k, name);
    LostAndSince(hash, calls, k, name);
    FoldForgetsIff(Lost(hash, calls, k, name), Since(hash, calls, k, name));
  }

  /** From its first report on, `k` is in the registry after every call. */
  ghost predicate NeverDropped<F>(hash: string -> string, calls: seq<Call<F>>, k: string) {
    forall n :: 0 <= n <= |calls| && k in History(calls[..n]) ==> k in Run(hash, calls[..n]).observations
  }

  lemma {:induction false} NothingReported<F>(calls: seq<Call<F>>, k: string, name: FactName)
    requires k !in History(calls)
    ensures Reported(calls, k, name) == []
  {
    if calls != [] { NothingReported(calls[..|calls| - 1], k, name); }
  }

  lemma NeverDroppedBefore<F>(hash: string -> string, calls: seq<Call<F>>, k: string)
    requires calls != [] && NeverDropped(hash, calls, k)
    ensures var before := calls[..|calls| - 1];
      NeverDropped(hash, before, k) && (k in History(before) ==> k in Run(hash, before).observations)
  {
    var before := calls[..|calls| - 1];
    assert forall m :: 0 <= m < |calls| ==> before[..m] == calls[..m];
  }

  lemma {:induction false} NothingLost<F>(hash: string -> string, calls: seq<Call<F>>, k: string, name: FactName)
    requires NeverDropped(hash, calls, k)
    ensures Lost(hash, calls, k, name) == []
  {
    if calls != [] {
      var before := calls[..|calls| - 1];
      NeverDroppedBefore(hash, calls, k);
      if k in Run(hash, before).observations {
        NothingLost(hash, before, k, name);
      } else {
        NothingReported(before, k, name);
      }
    }
  }

  /** So a resource that was never dropped has forgotten nothing: each of its facts is the fold of all
      facts ever reported for it, which `Facts.FoldIsWinner` identifies. */
  lemma {:induction false} FactsAreFolds<F>(hash: string -> string, calls: seq<Call<F>>, k: string, name: FactName)
    requires AllGenuine(hash, calls) && k in History(calls) && NeverDropped(hash, calls, k)
    ensures k in Run(hash, calls).observations
    ensures Pick(Run(hash, calls).observations[k], name) == Fold(Nothing(), Reported(calls, k, name))
  {
    assert calls[..|calls|] == calls;
    NothingLost(hash, calls, k, name);
    NothingForgottenIff(hash, calls, k, name);
  }

  lemma LaterSize(history: map<string, int>, id: string, now: int)
    ensures |Later(history, id, now)| >= |history|
  {
    Sizes(history.Keys, history.Keys, id);
    assert Later(history, id, now).Keys == history.Keys + {id};
    assert |history| == |history.Keys| && |Later(history, id, now)| == |Later(history, id, now).Keys|;
  }

  lemma {:induction false} HistoryGrows<F>(calls: seq<Call<F>>, n: nat)
    requires n <= |calls|
    ensures |History(calls[..n])| <= |History(calls)|
  {
    if n == |calls| {
      assert calls[..n] == calls;
    } else {
      var m := |calls| - 1;
      assert calls[..m][..n] == calls[..n];
      HistoryGrows(calls[..m], n);
      LaterSize(History(calls[..m]), calls[m].observation.id, calls[m].now);
    }
  }

  /** While no more than 64 resources were ever named none is dropped. */
  lemma {:induction false} FewAreNeverDropped<F>(hash: string -> string, calls: seq<Call<F>>, k: string)
    requires AllGenuine(hash, calls) && |History(calls)| <= MAX_RESOURCES
    ensures NeverDropped(hash, calls, k)
  {
    forall n | 0 <= n <= |calls| && k in History(calls[..n]) ensures k in Run(hash, calls[..n]).observations {
      var before := calls[..n];
      HistoryGrows(calls, n);
      assert forall i :: 0 <= i < n ==> before[i] == calls[i];
      RegistryIsTopOfHistory(hash, before);
      SameKeys(History(before), Run(hash, before).observations.Keys);
    }
  }

  lemma SameKeys(history: map<string, int>, kept: set<string>)
    requires Top(history, kept) && |history| <= MAX_RESOURCES
    ensures kept == history.Keys
  {
    assert |history| == |history.Keys|;
    SubsetSize(kept, history.Keys);
  }

  // ---- a fact that is forgotten ----

  /** A hash that shows its input, and 65 resources it tells apart. */
  function Plain(s: string): string {
    s
  }

  type Number = n: int | 0 <= n < 65

  function Named(n: Number): Identity {
    Identity(Some(['0' + n as char]), None, None, None)
  }

  function Heard(n: Number, fact: Fact<int>, now: int): Call<int> {
    var unknown := Nothing<int>();
    Call(Observation(Derive(Plain, Named(n)), Named(n), fact, unknown, unknown, unknown, unknown, unknown,
                     Health(UnknownHealth, None, Unknown, None), now, now), now, None)
  }

  const SAID := Fact(Some(7), StaticConfig, None)

  /** One resource with a known fact, then 64 newer ones. */
  ghost predicate Crowd(calls: seq<Call<int>>) {
    && |calls| == 65 && calls[0] == Heard(0, SAID, 0)
    && forall i :: 1 <= i < 65 ==> calls[i] == Heard(i, Nothing(), 1)
  }

  function Key(n: Number): string {
    Derive(Plain, Named(n))
  }

  lemma KeyIs(n: Number)
    ensures Key(n) == "res-provider=" + ['0' + n as char]
  {
    var c := ['0' + n as char];
    NamedPart(n);
    assert Parts(Named(n)) == ["provider=" + c];
    assert |"provider=" + c| == 10;
  }

  lemma NamedPart(n: Number)
    ensures Part("provider", Named(n).provider) == ["provider=" + ['0' + n as char]]
  {
    var c := ['0' + n as char];
    assert |c| == 1 && c[0] as int == 48 + n;
    TrimSolid(c);
    assert "provider" + "=" == "provider=";
  }

  lemma KeysApart(m: Number, n: Number)
    ensures Key(m) == Key(n) <==> m == n
  {
    KeyIs(m);
    KeyIs(n);
    assert Key(m)[13] == '0' + m as char && Key(n)[13] == '0' + n as char;
  }

  lemma HeardGenuine(n: Number, fact: Fact<int>, now: int)
    requires fact.value.Some? || fact == Nothing()
    ensures Genuine(Plain, Heard(n, fact, now)) && Heard(n, fact, now).observation.id == Key(n)
  {}

  lemma CrowdGenuine(calls: seq<Call<int>>)
    requires Crowd(calls)
    ensures AllGenuine(Plain, calls)
  {
    forall i | 0 <= i < 65 ensures Genuine(Plain, calls[i]) {
      HeardGenuine(i, SAID, 0);
      HeardGenuine(i, Nothing(), 1);
    }
  }

  lemma CrowdHistory(calls: seq<Call<int>>, n: Number)
    requires Crowd(calls)
    ensures Key(n) in History(calls) && History(calls)[Key(n)] == if n == 0 then 0 else 1
  {
    HistoryKnows(calls, n);
    var i := HistoryHappened(calls, Key(n));
    KeysApart(i, n);
  }

  lemma CrowdMember(calls: seq<Call<int>>, k: string) returns (n: Number)
    requires Crowd(calls) && k in History(calls)
    ensures k == Key(n) && History(calls)[k] == if n == 0 then 0 else 1
  {
    n := HistoryHappened(calls, k);
    CrowdHistory(calls, n);
  }

  lemma {:induction false} CrowdSize(calls: seq<Call<int>>)
    requires Crowd(calls)
    ensures |History(calls)| >= 65
  {
    var times := History(calls);
    var keys := seq(65, (n: int) requires 0 <= n < 65 => Key(n));
    forall i, j | 0 <= i < j < 65 ensures keys[i] != keys[j] { KeysApart(i, j); }
    ElementsSize(keys);
    forall k | k in Elements(keys) ensures k in times {
      var n :| 0 <= n < 65 && keys[n] == k;
      CrowdHistory(calls, n);
    }
    SubsetSize(Elements(keys), times.Keys);
    assert |times| == |times.Keys|;
  }

  lemma SomeDropped(times: map<string, int>, kept: set<string>) returns (l: string)
    requires Top(times, kept) && |times| > MAX_RESOURCES
    ensures l in times && l !in kept && kept != {}
  {
    assert |times| == |times.Keys|;
    assert kept != times.Keys;
    l :| l in times.Keys - kept;
  }

  lemma {:induction false} CrowdedOut(calls: seq<Call<int>>, kept: set<string>)
    requires Crowd(calls) && Top(History(calls), kept)
    ensures Key(0) !in kept
  {
    CrowdSize(calls);
    CrowdHistory(calls, 0);
    var l := SomeDropped(History(calls), kept);
    var n := CrowdMember(calls, l);
    assert !Outranks(0, Key(0), 1, l);
  }

  lemma {:induction false} Returned(calls: seq<Call<int>>, kept: set<string>)
    requires Crowd(calls) && Top(Later(History(calls), Key(0), 2), kept)
    ensures Key(0) in kept
  {
    var times := Later(History(calls), Key(0), 2);
    CrowdHistory(calls, 0);
    CrowdSize(calls);
    LaterSize(History(calls), Key(0), 2);
    var l := SomeDropped(times, kept);
    var m :| m in kept;
    if m != Key(0) {
      var n := CrowdMember(calls, m);
      assert Key(0) in kept || Outranks(times[m], m, times[Key(0)], Key(0));
    }
  }

  lemma {:induction false} CrowdReports(calls: seq<Call<int>>, n: nat)
    requires Crowd(calls) && 1 <= n <= 65
    ensures Reported(calls[..n], Key(0), Resolved) == [SAID]
  {
    assert calls[..n][..n - 1] == calls[..n - 1] && calls[..n][n - 1] == calls[n - 1];
    HeardGenuine(n - 1, SAID, 0);
    if n > 1 {
      CrowdReports(calls, n - 1);
      KeysApart(n - 1, 0);
      HeardGenuine(n - 1, Nothing(), 1);
    } else {
      assert calls[..n][..0] == [];
    }
  }

  /** The 65th resource displaces the first, and when the first is heard of again its known fact is gone. */
  lemma {:induction false} FactForgotten(crowd: seq<Call<int>>)
    requires Crowd(crowd)
    ensures var calls := crowd + [Heard(0, Nothing(), 2)]; var store := Run(Plain, calls).observations;
      && AllGenuine(Plain, calls) && Key(0) in store && store[Key(0)].resolved == Nothing()
      && Fold(Nothing(), Reported(calls, Key(0), Resolved)) == SAID
  {
    var calls := crowd + [Heard(0, Nothing(), 2)];
    assert crowd[..65] == crowd;
    CrowdGenuine(crowd);
    RegistryIsTopOfHistory(Plain, crowd);
    CrowdedOut(crowd, Run(Plain, crowd).observations.Keys);
    KeptAgain(crowd, calls);
    CrowdReports(crowd, 65);
    ReportedAgain(crowd, calls);
    FactsAreFoldsSince(Plain, calls, Key(0), Resolved);
  }

  lemma KeptAgain(crowd: seq<Call<int>>, calls: seq<Call<int>>)
    requires Crowd(crowd) && AllGenuine(Plain, crowd) && calls == crowd + [Heard(0, Nothing(), 2)]
    ensures AllGenuine(Plain, calls) && Key(0) in Run(Plain, calls).observations
  {
    assert calls[..65] == crowd;
    HeardGenuine(0, Nothing(), 2);
    RegistryIsTopOfHistory(Plain, calls);
    Returned(crowd, Run(Plain, calls).observations.Keys);
  }

  lemma ReportedAgain(crowd: seq<Call<int>>, calls: seq<Call<int>>)
    requires calls == crowd + [Heard(0, Nothing(), 2)] && Reported(crowd, Key(0), Resolved) == [SAID]
    requires Key(0) !in Run(Plain, crowd).observations
    ensures Fold(Nothing(), Since(Plain, calls, Key(0), Resolved)) == Nothing()
    ensures Fold(Nothing(), Reported(calls, Key(0), Resolved)) == SAID
  {
    HeardGenuine(0, Nothing(), 2);
    assert calls[..|calls| - 1] == crowd;
    assert Since(Plain, calls, Key(0), Resolved) == [] + [Nothing<int>()];
    FoldExtends([], Nothing<int>());
    FoldExtends([], SAID);
    FoldExtends([SAID], Nothing<int>());
    assert [] + [SAID] == [SAID];
  }

  /** A known fact of a record that stays in the registry stays known. */
  lemma KnownStaysKnown<F>(r: Registry<F>, hash: string -> string, call: Call<F>, k: string, name: FactName)
    requires Genuine(hash, call) && k in r.observations && k in After(r, hash, call).observations
    ensures Pick(r.observations[k], name).value.Some? ==> Pick(After(r, hash, call).observations[k], name).value.Some?
  {
    StepTimes(r, hash, call);
    InsertedFact(r.observations, call.observation, call.now, k, name);
  }

  // ---- health ----

  /** The guard under which `current` stays as it is. */
  predicate Stays(current: Health, incoming: Health) {
    || (incoming.state.UnknownHealth? && !current.state.UnknownHealth?)
    || (current.observedAt.Some? && incoming.observedAt.Some? && incoming.observedAt.value < current.observedAt.value)
  }

  /** For all three states, unknown ones included: merging health is associative except where the
      outer two differ, each neighbouring pair decides alike and the outer pair the other way. */
  lemma HealthAssociativeIff(a: Health, b: Health, c: Health)
    ensures MergeHealth(MergeHealth(a, b), c) == MergeHealth(a, MergeHealth(b, c)) <==>
      a == c || !((Stays(a, b) <==> Stays(b, c)) && (Stays(a, c) <==> !Stays(a, b)))
  {}

  predicate Older(x: Health, y: Health) {
    x.observedAt.Some? && y.observedAt.Some? && x.observedAt.value < y.observedAt.value
  }

  /** Among known states: except across an undated observation between a newer and an older one. */
  lemma KnownHealthAssociativeIff(a: Health, b: Health, c: Health)
    requires !a.state.UnknownHealth? && !b.state.UnknownHealth? && !c.state.UnknownHealth?
    ensures MergeHealth(MergeHealth(a, b), c) == MergeHealth(a, MergeHealth(b, c)) <==>
      !(b.observedAt.None? && Older(c, a))
  {
    HealthAssociativeIff(a, b, c);
  }

  /** An unknown observation never erases a known state, but a newer one keeps an older known state out. */
  lemma UnknownHealthBlocks(current: Health, incoming: Health)
    ensures !current.state.UnknownHealth? ==> !MergeHealth(current, incoming).state.UnknownHealth?
    ensures current.state.UnknownHealth? && !incoming.state.UnknownHealth? ==>
      (MergeHealth(current, incoming).state.UnknownHealth? <==>
       current.observedAt.Some? && incoming.observedAt.Some? && incoming.observedAt.value < current.observedAt.value)
  {}

  // ---- configured uses ----

  ghost predicate UsesFollow<F>(r: Registry<F>) {
    && r.configured.Keys <= r.observations.Keys
    && forall k :: k in r.configured ==> BriefUses(r.configured[k])
  }

  ghost predicate BriefUses(uses: seq<string>) {
    |uses| <= MAX_CONFIGURED_USES && forall i, j :: 0 <= i < j < |uses| ==> uses[i] != uses[j]
  }

  lemma WithUseBrief(uses: seq<string>, use: string)
    requires BriefUses(uses)
    ensures BriefUses(WithUse(uses, use)) && use in WithUse(uses, use)
  {
    var more := WithUse(uses, use);
    if use !in uses { assert more[|more| - 1] == use; }
  }

  function WithUses<F>(configured: Uses, call: Call<F>): Uses {
    var id := call.observation.id;
    if call.use.Some? then configured[id := WithUse(UsesOf(configured, id), call.use.value)] else configured
  }

  lemma ObserveUses<F>(r: Registry<F>, o: Observation<F>, now: int)
    requires o.id != ""
    ensures Observe(r, o, now).configured == r.configured - Losers(Inserted(r.observations, o, now))
  {}

  lemma StepUses<F>(r: Registry<F>, hash: string -> string, call: Call<F>)
    requires Genuine(hash, call)
    ensures After(r, hash, call).configured ==
      WithUses(r.configured, call) - Losers(Inserted(r.observations, call.observation, call.now))
  {
    DerivedNotEmpty(hash, call.observation.identity);
    ObserveUses(Registry(r.observations, WithUses(r.configured, call)), call.observation, call.now);
    if call.use.Some? {
      assert After(r, hash, call) ==
        Observe(Registry(r.observations, WithUses(r.configured, call)), call.observation, call.now);
    }
  }

  lemma {:induction false} UsesFollowStep<F>(r: Registry<F>, hash: string -> string, call: Call<F>)
    requires Genuine(hash, call) && UsesFollow(r)
    ensures UsesFollow(After(r, hash, call))
  {
    StepTimes(r, hash, call);
    StepUses(r, hash, call);
    BoundedKeys(Inserted(r.observations, call.observation, call.now));
    WithUsesFollows(r, call);
  }

  lemma WithUsesFollows<F>(r: Registry<F>, call: Call<F>)
    requires UsesFollow(r)
    ensures var uses := WithUses(r.configured, call);
      && uses.Keys <= Inserted(r.observations, call.observation, call.now).Keys
      && forall k :: k in uses ==> BriefUses(uses[k])
  {
    if call.use.Some? { WithUseBrief(UsesOf(r.configured, call.observation.id), call.use.value); }
  }

  /** Configured uses are kept only for retained resources, at most 16 each and never twice. */
  lemma {:induction false} UsesFollowRetained<F>(hash: string -> string, calls: seq<Call<F>>)
    requires AllGenuine(hash, calls)
    ensures UsesFollow(Run(hash, calls))
  {
    if calls != [] {
      var n := |calls| - 1;
      FrontGenuine(hash, calls);
      UsesFollowRetained(hash, calls[..n]);
      UsesFollowStep(Run(hash, calls[..n]), hash, calls[n]);
    }
  }
}
