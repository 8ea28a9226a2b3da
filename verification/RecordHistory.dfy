/** A retained record against the calls it comes from: its health, its first time, its identity and its
    configured uses. Its facts are told by `ResourceLaws.FactsAreFoldsSince`. */
module RecordHistory {
  import opened Options
  import opened Strings
  import opened Facts
  import opened Resources
  import opened ResourceLaws

  /** The calls about `k` since it last came into the registry. */
  function Tenure<F>(hash: string -> string, calls: seq<Call<F>>, k: string): seq<Call<F>> {
    if calls == [] then []
    else
      var n := |calls| - 1;
      var before := if k in Run(hash, calls[..n]).observations then Tenure(hash, calls[..n], k) else [];
      before + if calls[n].observation.id == k then [calls[n]] else []
  }

  /** The first report is taken as it is, the others are merged in order. */
  function Healths<F>(tenure: seq<Call<F>>): Health
    requires tenure != []
  {
    var n := |tenure| - 1;
    if n == 0 then tenure[0].observation.health
    else MergeHealth(Healths(tenure[..n]), tenure[n].observation.health)
  }

  /** The least time that is not zero, or zero when there is none. */
  ghost predicate LeastTime<F>(tenure: seq<Call<F>>, t: int) {
    if t == 0 then forall i :: 0 <= i < |tenure| ==> tenure[i].now == 0
    else
      && (exists i :: 0 <= i < |tenure| && tenure[i].now == t)
      && forall i :: 0 <= i < |tenure| ==> tenure[i].now == 0 || t <= tenure[i].now
  }

  /** The first identity that says something, or the last one when none does. */
  ghost predicate FirstIdentity<F>(tenure: seq<Call<F>>, identity: Identity) {
    exists i: nat :: IdentityAt(tenure, identity, i)
  }

  ghost predicate IdentityAt<F>(tenure: seq<Call<F>>, identity: Identity, i: nat) {
    && i < |tenure| && tenure[i].observation.identity == identity
    && (forall j :: 0 <= j < i ==> CanonicalKey(tenure[j].observation.identity) == "")
    && (CanonicalKey(identity) != "" || i == |tenure| - 1)
  }

  ghost predicate IsOf<F>(o: Observation<F>, k: string, tenure: seq<Call<F>>) {
    && tenure != [] && o.id == k && o.health == Healths(tenure)
    && LeastTime(tenure, o.firstSeen) && FirstIdentity(tenure, o.identity)
  }

  lemma LeastGrows<F>(tenure: seq<Call<F>>, t: int, call: Call<F>)
    requires tenure != [] && LeastTime(tenure, t)
    ensures LeastTime(tenure + [call], if t == 0 || (call.now != 0 && call.now < t) then call.now else t)
  {
    var more := tenure + [call];
    assert more[|tenure|] == call;
    if t != 0 {
      var i :| 0 <= i < |tenure| && tenure[i].now == t;
      assert more[i].now == t;
    }
  }

  lemma FirstGrows<F>(tenure: seq<Call<F>>, identity: Identity, call: Call<F>)
    requires FirstIdentity(tenure, identity)
    ensures FirstIdentity(tenure + [call],
      if CanonicalKey(identity) == "" then call.observation.identity else identity)
  {
    var more := tenure + [call];
    var i: nat :| IdentityAt(tenure, identity, i);
    if CanonicalKey(identity) == "" {
      assert IdentityAt(more, call.observation.identity, |tenure|);
    } else {
      assert IdentityAt(more, identity, i);
    }
  }

  lemma OneTenure<F>(hash: string -> string, call: Call<F>)
    requires Genuine(hash, call)
    ensures IsOf(Fresh(call.observation, call.now), call.observation.id, [call])
  {
    assert [call][0].now == call.now && IdentityAt([call], call.observation.identity, 0);
  }

  lemma MoreTenure<F>(hash: string -> string, o: Observation<F>, k: string, tenure: seq<Call<F>>, call: Call<F>)
    requires Genuine(hash, call) && IsOf(o, k, tenure) && k != ""
    ensures IsOf(MergeObservation(o, call.observation, call.now), k, tenure + [call])
  {
    LeastGrows(tenure, o.firstSeen, call);
    FirstGrows(tenure, o.identity, call);
    assert (tenure + [call])[..|tenure|] == tenure;
  }

  /** In every run, each record has the key it is kept under, the merged health of the reports since it
      came in, the least time of these, and the first identity among them that says something. */
  lemma {:induction false} RecordIsOfTenure<F>(hash: string -> string, calls: seq<Call<F>>, k: string)
    requires AllGenuine(hash, calls) && k in Run(hash, calls).observations
    ensures IsOf(Run(hash, calls).observations[k], k, Tenure(hash, calls, k))
  {
    var n := |calls| - 1;
    var r, call := Run(hash, calls[..n]), calls[n];
    FrontGenuine(hash, calls);
    StepTimes(r, hash, call);
    DerivedNotEmpty(hash, call.observation.identity);
    if k in r.observations { RecordIsOfTenure(hash, calls[..n], k); }
    if k == call.observation.id {
      if k in r.observations {
        MoreTenure(hash, r.observations[k], k, Tenure(hash, calls[..n], k), call);
      } else {
        OneTenure(hash, call);
        assert [] + [call] == [call];
      }
    } else {
      assert Tenure(hash, calls[..n], k) + [] == Tenure(hash, calls[..n], k);
    }
  }

  // ---- the newest health ----

  function DateOf<F>(call: Call<F>): int
    requires call.observation.health.observedAt.Some?
  {
    call.observation.health.observedAt.value
  }

  ghost predicate AllDated<F>(tenure: seq<Call<F>>) {
    forall i :: 0 <= i < |tenure| ==>
      tenure[i].observation.health.observedAt.Some? && !tenure[i].observation.health.state.UnknownHealth?
  }

  /** Where all reports are dated and say something, the health is the last of the newest. */
  lemma {:induction false} NewestHealth<F>(tenure: seq<Call<F>>) returns (i: nat)
    requires tenure != [] && AllDated(tenure)
    ensures i < |tenure| && Healths(tenure) == tenure[i].observation.health
    ensures forall j :: 0 <= j < i ==> DateOf(tenure[j]) <= DateOf(tenure[i])
    ensures forall j :: i < j < |tenure| ==> DateOf(tenure[j]) < DateOf(tenure[i])
  {
    var n := |tenure| - 1;
    i := n;
    if n > 0 {
      var front := tenure[..n];
      assert forall j :: 0 <= j < n ==> front[j] == tenure[j];
      var before := NewestHealth(front);
      if DateOf(tenure[n]) < DateOf(tenure[before]) { i := before; }
    }
  }

  // ---- configured uses ----

  /** The uses registered, each at its first time, in order. */
  function UsesIn<F>(tenure: seq<Call<F>>): seq<string> {
    if tenure == [] then []
    else
      var n := |tenure| - 1;
      var before, use := UsesIn(tenure[..n]), tenure[n].use;
      if use.None? || use.value in before then before else before + [use.value]
  }

  /** What the registry remembers of them. */
  ghost predicate Remembered<F>(tenure: seq<Call<F>>, uses: seq<string>) {
    && (forall u :: u in uses ==> u in UsesIn(tenure)) && BriefUses(uses)
    && (|UsesIn(tenure)| <= MAX_CONFIGURED_USES ==> uses == UsesIn(tenure))
    && (tenure != [] && tenure[|tenure| - 1].use.Some? ==> tenure[|tenure| - 1].use.value in uses)
  }

  lemma UseRemembered<F>(tenure: seq<Call<F>>, uses: seq<string>, call: Call<F>)
    requires Remembered(tenure, uses)
    ensures Remembered(tenure + [call], if call.use.Some? then WithUse(uses, call.use.value) else uses)
  {
    var more := tenure + [call];
    assert more[..|tenure|] == tenure;
    if call.use.Some? { WithUseBrief(uses, call.use.value); }
  }

  lemma TenureUses<F>(before: seq<Call<F>>, uses: seq<string>, call: Call<F>, k: string)
    requires Remembered(before, uses)
    ensures Remembered(before + if call.observation.id == k then [call] else [],
      if k == call.observation.id && call.use.Some? then WithUse(uses, call.use.value) else uses)
  {
    if k == call.observation.id { UseRemembered(before, uses, call); } else { assert before + [] == before; }
  }

  lemma NoUsesYet<F>(r: Registry<F>, k: string)
    requires UsesFollow(r) && k !in r.observations
    ensures Remembered<F>([], UsesOf(r.configured, k))
  {}

  /** One call registers its own use, and drops those of dropped resources. */
  lemma UsesStep<F>(hash: string -> string, r: Registry<F>, call: Call<F>, k: string)
    requires Genuine(hash, call) && k in After(r, hash, call).observations
    ensures UsesOf(After(r, hash, call).configured, k) ==
      if k == call.observation.id && call.use.Some? then WithUse(UsesOf(r.configured, k), call.use.value)
      else UsesOf(r.configured, k)
  {
    StepTimes(r, hash, call);
    StepUses(r, hash, call);
    BoundedKeys(Inserted(r.observations, call.observation, call.now));
  }

  /** In every run, the uses of a retained resource are among those registered since it came in: all of
      them, in order, while there are at most 16, and always the one registered last. */
  lemma {:induction false} UsesAreOfTenure<F>(hash: string -> string, calls: seq<Call<F>>, k: string)
    requires AllGenuine(hash, calls) && k in Run(hash, calls).observations
    ensures Remembered(Tenure(hash, calls, k), UsesOf(Run(hash, calls).configured, k))
  {
    var n := |calls| - 1;
    var r, call := Run(hash, calls[..n]), calls[n];
    FrontGenuine(hash, calls);
    UsesStep(hash, r, call, k);
    var before := if k in r.observations then Tenure(hash, calls[..n], k) else [];
    if k in r.observations {
      UsesAreOfTenure(hash, calls[..n], k);
    } else {
      UsesFollowRetained(hash, calls[..n]);
      NoUsesYet(r, k);
    }
    TenureUses(before, UsesOf(r.configured, k), call, k);
  }
}
