/** The bounded resource registry of `src/resources.rs`. SHA-256 is the parameter `hash`. */
module Resources {
  import opened Options
  import opened Strings
  import opened Facts

  const MAX_RESOURCES := 64
  const MAX_CONFIGURED_USES := 16

  // ---- identity ----

  datatype Identity = Identity(
    provider: Option<string>, model: Option<string>, account: Option<string>, protocol: Option<string>)

  function Part(name: string, value: Option<string>): seq<string> {
    if value.Some? && Trim(value.value) != "" then [name + "=" + Trim(value.value)] else []
  }

  function Join(parts: seq<string>): string {
    if parts == [] then "" else if |parts| == 1 then parts[0] else parts[0] + "|" + Join(parts[1..])
  }

  function Parts(i: Identity): seq<string> {
    Part("provider", i.provider)
      + (Part("model", i.model) + (Part("account", i.account) + Part("protocol", i.protocol)))
  }

  function CanonicalKey(i: Identity): string {
    Join(Parts(i))
  }

  ghost predicate HexDigest(hash: string -> string) {
    forall s :: |hash(s)| == 64 && forall i :: 0 <= i < 64 ==> IsHexDigit(hash(s)[i])
  }

  /** `ResourceId::derive`. */
  function Derive(hash: string -> string, i: Identity): string {
    var digest := hash(CanonicalKey(i));
    "res-" + if |digest| >= 16 then digest[..16] else digest
  }

  // ---- observations ----

  datatype HealthState = Available | Degraded | Unavailable | UnknownHealth

  datatype Health = Health(state: HealthState, reason: Option<string>, provenance: Provenance, observedAt: Option<int>)

  /** One persisted record; `F` is the type the fact values are drawn from. */
  datatype Observation<F> = Observation(
    id: string, identity: Identity,
    resolved: Fact<F>, effective: Fact<F>, contextLimit: Fact<F>, capacity: Fact<F>, quota: Fact<F>, cost: Fact<F>,
    health: Health, firstSeen: int, updatedAt: int)

  type Observations<F> = map<string, Observation<F>>
  type Uses = map<string, seq<string>>

  function Max(a: int, b: int): int {
    if a < b then b else a
  }

  /** `merge_health`. */
  function MergeHealth(current: Health, incoming: Health): Health {
    if incoming.state.UnknownHealth? && !current.state.UnknownHealth? then current
    else if current.observedAt.Some? && incoming.observedAt.Some?
      && incoming.observedAt.value < current.observedAt.value then current
    else incoming
  }

  /** `ResourceObservation::merge`. */
  function MergeObservation<F>(o: Observation<F>, incoming: Observation<F>, now: int): Observation<F> {
    Observation(
      if o.id == "" then incoming.id else o.id,
      if CanonicalKey(o.identity) == "" then incoming.identity else o.identity,
      Merge(o.resolved, incoming.resolved),
      Merge(o.effective, incoming.effective),
      Merge(o.contextLimit, incoming.contextLimit),
      Merge(o.capacity, incoming.capacity),
      Merge(o.quota, incoming.quota),
      Merge(o.cost, incoming.cost),
      MergeHealth(o.health, incoming.health),
      if o.firstSeen == 0 || (incoming.firstSeen != 0 && incoming.firstSeen < o.firstSeen) then incoming.firstSeen
        else o.firstSeen,
      Max(Max(o.updatedAt, incoming.updatedAt), now))
  }

  function Fresh<F>(incoming: Observation<F>, now: int): Observation<F> {
    incoming.(firstSeen := if incoming.firstSeen == 0 then now else incoming.firstSeen,
      updatedAt := Max(incoming.updatedAt, now))
  }

  function ForIdentity<F>(hash: string -> string, identity: Identity, now: int): Observation<F> {
    Observation(Derive(hash, identity), identity, Nothing(), Nothing(), Nothing(), Nothing(), Nothing(), Nothing(),
                Health(UnknownHealth, None, Unknown, None), now, now)
  }

  /** The store after an observation, before the bound is enforced. */
  function Inserted<F>(store: Observations<F>, incoming: Observation<F>, now: int): Observations<F> {
    store[incoming.id :=
      if incoming.id in store then MergeObservation(store[incoming.id], incoming, now) else Fresh(incoming, now)]
  }

  function UsesOf(configured: Uses, id: string): seq<string> {
    if id in configured then configured[id] else []
  }

  function WithUse(uses: seq<string>, use: string): seq<string> {
    if use in uses then uses
    else
      var more := uses + [use];
      if |more| > MAX_CONFIGURED_USES then more[|more| - MAX_CONFIGURED_USES..] else more
  }

  // ---- the bound ----

  /** The sort order of the bound: newer first, then the greater key. */
  predicate Outranks(t: int, k: string, u: int, l: string) {
    t > u || (t == u && Less(l, k))
  }

  lemma OutranksAsymmetric(t: int, k: string, u: int, l: string)
    ensures Outranks(t, k, u, l) ==> !Outranks(u, l, t, k)
  {
    if Less(l, k) { LessAsymmetric(l, k); }
  }

  lemma OutranksTransitive(t: int, k: string, u: int, l: string, v: int, m: string)
    requires Outranks(t, k, u, l) && Outranks(u, l, v, m)
    ensures Outranks(t, k, v, m)
  {
    if t == u == v { LessTransitive(m, l, k); }
  }

  function TimeOf<F>(store: Observations<F>): (times: map<string, int>)
    ensures times.Keys == store.Keys && |times| == |store|
  {
    var times := map k | k in store :: store[k].updatedAt;
    assert |times| == |times.Keys| && |store| == |store.Keys|;
    times
  }

  predicate Best(times: map<string, int>, k: string) {
    k in times && forall l :: l in times && l != k ==> Outranks(times[k], k, times[l], l)
  }

  lemma BestExists(times: map<string, int>)
    requires times != map[]
    ensures exists k :: Best(times, k)
    decreases |times|
  {
    var k :| k in times;
    var rest := times - {k};
    if rest == map[] {
      assert forall l :: l in times && l != k ==> l in rest;
      assert Best(times, k);
    } else {
      SmallerWithout(times, k);
      BestExists(rest);
      var b :| Best(rest, b);
      LessTotal(k, b);
      if Outranks(times[b], b, times[k], k) {
        assert forall l :: l in times && l != k ==> l in rest;
        assert Best(times, b);
      } else {
        forall l | l in times && l != k ensures Outranks(times[k], k, times[l], l) {
          assert l in rest;
          if l != b { OutranksTransitive(times[k], k, times[b], b, times[l], l); }
        }
        assert Best(times, k);
      }
    }
  }

  lemma SmallerWithout(times: map<string, int>, k: string)
    requires k in times
    ensures |times - {k}| == |times| - 1 && (times - {k}).Keys == times.Keys - {k}
  {
    assert (times - {k}).Keys == times.Keys - {k};
    assert |times| == |times.Keys| && |times - {k}| == |(times - {k}).Keys|;
  }

  lemma BestUnique(times: map<string, int>)
    ensures forall k, l :: Best(times, k) && Best(times, l) ==> k == l
  {
    forall k, l | Best(times, k) && Best(times, l) && k != l ensures false {
      OutranksAsymmetric(times[k], k, times[l], l);
    }
  }

  /** The entries in rank order, as `enforce_bound` sorts them. */
  function Ranking(times: map<string, int>): (r: seq<string>)
    ensures |r| == |times| && forall k :: k in r <==> k in times
    decreases |times|
  {
    if times == map[] then [] else
      BestExists(times);
      BestUnique(times);
      var k :| Best(times, k);
      SmallerWithout(times, k);
      var rest := Ranking(times - {k});
      assert forall l :: l in rest <==> l in times && l != k;
      [k] + rest
  }

  function Elements(keys: seq<string>): (s: set<string>)
    ensures forall k :: k in s <==> k in keys
  {
    set k | k in keys
  }

  function Losers<F>(store: Observations<F>): (lost: set<string>)
    ensures lost <= store.Keys
    ensures |store| <= MAX_RESOURCES ==> lost == {}
  {
    var ranking := Ranking(TimeOf(store));
    if |store| <= MAX_RESOURCES then {} else Elements(ranking[MAX_RESOURCES..])
  }

  /** What stays of a store. */
  function Bounded<F>(store: Observations<F>): Observations<F> {
    store - Losers(store)
  }

  datatype Registry<F> = Registry(observations: Observations<F>, configured: Uses)

  /** `merge_observation` as a function of the registry. */
  function Observe<F>(r: Registry<F>, incoming: Observation<F>, now: int): Registry<F> {
    if incoming.id == "" then r
    else
      var full := Inserted(r.observations, incoming, now);
      Registry(Bounded(full), r.configured - Losers(full))
  }

  /** `register_configured` as a function of the registry. */
  function Registered<F>(
    r: Registry<F>, hash: string -> string, identity: Identity, use: string, now: int): Registry<F> {
    var id := Derive(hash, identity);
    Observe(r.(configured := r.configured[id := WithUse(UsesOf(r.configured, id), use)]),
      ForIdentity(hash, identity, now), now)
  }

  class ResourceRegistry<F> {
    var updatedAt: int
    var observations: Observations<F>
    var configured: Uses

    ghost function Value(): Registry<F>
      reads this
    {
      Registry(observations, configured)
    }

    constructor (now: int)
      ensures updatedAt == now && Value() == Registry(map[], map[])
    {
      updatedAt, observations, configured := now, map[], map[];
    }

    method EnforceBound()
      modifies this`observations, this`configured
      ensures observations == Bounded(old(observations))
      ensures configured == old(configured) - Losers(old(observations))
    {
      if |observations| <= MAX_RESOURCES {
        WithoutNone(observations, configured);
        return;
      }
      observations, configured := RemoveAll(observations, configured, Ranking(TimeOf(observations))[MAX_RESOURCES..]);
    }

    /** `merge_observation`. */
    method MergeIn(incoming: Observation<F>, now: int)
      modifies this
      ensures Value() == Observe(old(Value()), incoming, now)
      ensures updatedAt == if incoming.id == "" then old(updatedAt) else Max(old(updatedAt), now)
    {
      var key := incoming.id;
      if key == "" { return; }
      if key in observations {
        observations := observations[key := MergeObservation(observations[key], incoming, now)];
      } else {
        observations := observations[key := Fresh(incoming, now)];
      }
      updatedAt := Max(updatedAt, now);
      EnforceBound();
    }

    method RegisterConfigured(hash: string -> string, identity: Identity, use: string, now: int) returns (id: string)
      modifies this
      ensures id == Derive(hash, identity)
      ensures Value() == Registered(old(Value()), hash, identity, use, now)
    {
      id := Derive(hash, identity);
      var uses := UsesOf(configured, id);
      if use !in uses {
        uses := uses + [use];
        if |uses| > MAX_CONFIGURED_USES {
          var excess := |uses| - MAX_CONFIGURED_USES;
          uses := uses[excess..];
        }
      }
      assert uses == WithUse(UsesOf(configured, id), use);
      configured := configured[id := uses];
      assert Value() == Registry(old(observations), old(configured)[id := WithUse(UsesOf(old(configured), id), use)]);
      MergeIn(ForIdentity(hash, identity, now), now);
    }
  }

  lemma WithoutNone<F>(store: Observations<F>, configured: Uses)
    ensures store - {} == store && configured - {} == configured
  {}

  /** The removal loop of `enforce_bound`. */
  method RemoveAll<F>(
    observations: Observations<F>, configured: Uses, keys: seq<string>)
    returns (kept: Observations<F>, uses: Uses)
    ensures kept == observations - Elements(keys) && uses == configured - Elements(keys)
  {
    kept, uses := observations, configured;
    for i := 0 to |keys|
      invariant kept == Removed(observations, keys[..i]) && uses == Removed(configured, keys[..i])
    {
      assert keys[..i + 1][..i] == keys[..i];
      kept := kept - {keys[i]};
      uses := uses - {keys[i]};
    }
    assert keys[..|keys|] == keys;
    RemovedIs(observations, keys);
    RemovedIs(configured, keys);
  }

  /** A map with keys removed one after another. */
  function Removed<V>(m: map<string, V>, keys: seq<string>): map<string, V> {
    if keys == [] then m else Removed(m, keys[..|keys| - 1]) - {keys[|keys| - 1]}
  }

  lemma {:induction false} RemovedIs<V>(m: map<string, V>, keys: seq<string>)
    ensures Removed(m, keys) == m - Elements(keys)
  {
    if keys == [] {
      assert Elements(keys) == {};
    } else {
      var n := |keys| - 1;
      RemovedIs(m, keys[..n]);
      assert keys == keys[..n] + [keys[n]];
      assert Elements(keys) == Elements(keys[..n]) + {keys[n]};
    }
  }
}
