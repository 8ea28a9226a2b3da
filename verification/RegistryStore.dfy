/** Saving and loading the registry document, and what a load guarantees. JSON is abstract: a
    document is what parsing it yields, and a record that does not deserialize is `None`. */
module RegistryStore {
  import opened Options
  import opened Strings
  import opened Facts
  import opened Resources
  import opened ResourceLaws

  const SCHEMA_VERSION := 1

  datatype Reason = CorruptRecord | UnsafeId | KeyMismatch | IdentityMismatch
                  | NotReadable | NotJson | UnsupportedSchema | NoUpdatedAt | NoResources

  predicate SafeId(value: string) {
    0 < |value| <= 96 && forall i :: 0 <= i < |value| ==>
      'a' <= value[i] <= 'z' || 'A' <= value[i] <= 'Z' || '0' <= value[i] <= '9' || value[i] == '-' || value[i] == '_'
  }

  /** `validate_observation`: the reason a record is rejected, if any. */
  function Rejection<F>(hash: string -> string, key: string, o: Observation<F>): Option<Reason> {
    if !SafeId(key) then Some(UnsafeId)
    else if o.id != key then Some(KeyMismatch)
    else if CanonicalKey(o.identity) != "" && Derive(hash, o.identity) != key then Some(IdentityMismatch)
    else None
  }

  datatype Record<F> = Record(key: string, observation: Option<Observation<F>>)

  /** The registry file: absent, unreadable, not JSON, or parsed into the three members `load_raw`
      looks at, each `None` when missing or of the wrong type. */
  datatype File<F> = Missing | Unreadable | Garbage
                   | Parsed(schemaVersion: Option<nat>, updatedAt: Option<int>, resources: Option<seq<Record<F>>>)

  /** `None` names the file itself. */
  datatype Issue = Issue(resource: Option<string>, reason: Reason)

  datatype Loaded<F> = Loaded(updatedAt: int, observations: Observations<F>, corrupt: bool, found: bool,
    issues: seq<Issue>)

  function Corrupt<F>(reason: Reason): Loaded<F> {
    Loaded(0, map[], true, true, [Issue(None, reason)])
  }

  function RecordRejection<F>(hash: string -> string, record: Record<F>): Option<Reason> {
    if record.observation.None? then Some(CorruptRecord) else Rejection(hash, record.key, record.observation.value)
  }

  function Accepted<F>(hash: string -> string, records: seq<Record<F>>): Observations<F> {
    if records == [] then map[]
    else
      var last := records[|records| - 1];
      var before := Accepted(hash, records[..|records| - 1]);
      if RecordRejection(hash, last).None? then before[last.key := last.observation.value] else before
  }

  function Issues<F>(hash: string -> string, records: seq<Record<F>>): seq<Issue> {
    if records == [] then []
    else
      var last := records[|records| - 1];
      var before := Issues(hash, records[..|records| - 1]);
      if RecordRejection(hash, last).None? then before
        else before + [Issue(Some(last.key), RecordRejection(hash, last).value)]
  }

  /** What a load reports of a file. */
  function Loading<F>(hash: string -> string, file: File<F>): Loaded<F> {
    match file
    case Missing => Loaded(0, map[], false, false, [])
    case Unreadable => Corrupt(NotReadable)
    case Garbage => Corrupt(NotJson)
    case Parsed(schema, updatedAt, resources) =>
      if schema != Some(SCHEMA_VERSION) then Corrupt(UnsupportedSchema)
      else if updatedAt.None? then Corrupt(NoUpdatedAt)
      else if resources.None? then Corrupt(NoResources)
      else Loaded(updatedAt.value, Bounded(Accepted(hash, resources.value)), false, true, Issues(hash, resources.value))
  }

  method Load<F>(hash: string -> string, file: File<F>) returns (loaded: Loaded<F>)
    ensures loaded == Loading(hash, file)
  {
    if file.Missing? { return Loaded(0, map[], false, false, []); }
    if file.Unreadable? { return Corrupt(NotReadable); }
    if file.Garbage? { return Corrupt(NotJson); }
    var schemaVersion := if file.schemaVersion.Some? then file.schemaVersion.value else 0;
    if schemaVersion > 0xFFFF_FFFF || schemaVersion != SCHEMA_VERSION { return Corrupt(UnsupportedSchema); }
    if file.updatedAt.None? { return Corrupt(NoUpdatedAt); }
    if file.resources.None? { return Corrupt(NoResources); }
    var records := file.resources.value;
    var registry := new ResourceRegistry(file.updatedAt.value);
    var issues := [];
    for i := 0 to |records|
      invariant registry.observations == Accepted(hash, records[..i]) && issues == Issues(hash, records[..i])
      invariant registry.updatedAt == file.updatedAt.value
      invariant fresh(registry)
    {
      assert records[..i + 1][..i] == records[..i];
      var record := records[i];
      if record.observation.Some? {
        var rejection := Rejection(hash, record.key, record.observation.value);
        if rejection.None? {
          registry.observations := registry.observations[record.key := record.observation.value];
        } else {
          issues := issues + [Issue(Some(record.key), rejection.value)];
        }
      } else {
        issues := issues + [Issue(Some(record.key), CorruptRecord)];
      }
    }
    assert records[..|records|] == records;
    registry.EnforceBound();
    return Loaded(registry.updatedAt, registry.observations, false, true, issues);
  }

  /** The document `save` writes: the observations in key order. */
  function Saved<F>(updatedAt: int, store: Observations<F>): File<F> {
    Parsed(Some(SCHEMA_VERSION), Some(updatedAt), Some(Records(store, SortedKeys(store.Keys))))
  }

  function Records<F>(store: Observations<F>, keys: seq<string>): (records: seq<Record<F>>)
    requires forall k :: k in keys ==> k in store
    ensures |records| == |keys|
  {
    seq(|keys|, i requires 0 <= i < |keys| => Record(keys[i], Some(store[keys[i]])))
  }

  // ---- what validates ----

  /** Every record passes validation. */
  ghost predicate Sound<F>(hash: string -> string, store: Observations<F>) {
    forall k :: k in store ==> Rejection(hash, k, store[k]).None?
  }

  lemma DeriveIsSafe(hash: string -> string, identity: Identity)
    requires HexDigest(hash)
    ensures SafeId(Derive(hash, identity))
  {
    var digest := hash(CanonicalKey(identity));
    assert |digest| == 64;
    assert Derive(hash, identity) == "res-" + digest[..16];
    assert forall i :: 0 <= i < 16 ==> IsHexDigit(digest[..16][i]);
  }

  lemma {:induction false} InsertedSound<F>(hash: string -> string, store: Observations<F>, call: Call<F>)
    requires HexDigest(hash) && Genuine(hash, call) && Sound(hash, store)
    ensures Sound(hash, Inserted(store, call.observation, call.now))
  {
    DeriveIsSafe(hash, call.observation.identity);
    var id := call.observation.id;
    if id in store { assert Rejection(hash, id, store[id]).None?; }
  }

  /** Every call keeps every record valid. */
  lemma {:induction false} StepSound<F>(hash: string -> string, r: Registry<F>, call: Call<F>)
    requires HexDigest(hash) && Genuine(hash, call) && Sound(hash, r.observations)
    ensures Sound(hash, After(r, hash, call).observations)
  {
    InsertedSound(hash, r.observations, call);
    StepTimes(r, hash, call);
  }

  lemma {:induction false} AcceptedSound<F>(hash: string -> string, records: seq<Record<F>>)
    ensures Sound(hash, Accepted(hash, records))
  {
    if records != [] { AcceptedSound(hash, records[..|records| - 1]); }
  }

  lemma BoundedSize<F>(store: Observations<F>)
    ensures |Bounded(store)| <= MAX_RESOURCES && (Bounded(store) == store <==> |store| <= MAX_RESOURCES)
  {
    BoundedKeys(store);
    LosersSize(store);
    WithoutNone(store, map[]);
    assert |Bounded(store)| == |Bounded(store).Keys|;
  }

  lemma AcceptedIsSound<F>(hash: string -> string, records: seq<Record<F>>)
    ensures Sound(hash, Bounded(Accepted(hash, records))) && |Bounded(Accepted(hash, records))| <= MAX_RESOURCES
  {
    AcceptedSound(hash, records);
    BoundedSize(Accepted(hash, records));
  }

  lemma LoadingIs<F>(hash: string -> string, file: File<F>)
    ensures var observations := Loading(hash, file).observations;
      || observations == map[]
      || (file.Parsed? && file.resources.Some? && observations == Bounded(Accepted(hash, file.resources.value)))
  {
    if file.Parsed? && file.resources.Some? {
      var loaded := Loading(hash, file);
      assert loaded == Corrupt(UnsupportedSchema) || loaded == Corrupt(NoUpdatedAt)
        || loaded.observations == Bounded(Accepted(hash, file.resources.value));
    }
  }

  /** Whatever the file holds, a load yields at most 64 records, all of which validate. */
  lemma LoadIsSound<F>(hash: string -> string, file: File<F>)
    ensures Sound(hash, Loading(hash, file).observations)
    ensures |Loading(hash, file).observations| <= MAX_RESOURCES
  {
    LoadingIs(hash, file);
    if file.Parsed? && file.resources.Some? { AcceptedIsSound(hash, file.resources.value); }
  }

  function RunFrom<F>(r: Registry<F>, hash: string -> string, calls: seq<Call<F>>): Registry<F> {
    if calls == [] then r else After(RunFrom(r, hash, calls[..|calls| - 1]), hash, calls[|calls| - 1])
  }

  lemma StepStays<F>(hash: string -> string, r: Registry<F>, call: Call<F>)
    requires HexDigest(hash) && Genuine(hash, call) && Sound(hash, r.observations)
    ensures var after := After(r, hash, call).observations; Sound(hash, after) && |after| <= MAX_RESOURCES
  {
    StepSound(hash, r, call);
    StepTimes(r, hash, call);
    BoundedSize(Inserted(r.observations, call.observation, call.now));
  }

  lemma {:induction false} RunsStay<F>(hash: string -> string, start: Registry<F>, calls: seq<Call<F>>)
    requires HexDigest(hash) && AllGenuine(hash, calls)
    requires Sound(hash, start.observations) && |start.observations| <= MAX_RESOURCES
    ensures var r := RunFrom(start, hash, calls); Sound(hash, r.observations) && |r.observations| <= MAX_RESOURCES
  {
    if calls != [] {
      var n := |calls| - 1;
      FrontGenuine(hash, calls);
      RunsStay(hash, start, calls[..n]);
      StepStays(hash, RunFrom(start, hash, calls[..n]), calls[n]);
    }
  }

  /** Every registry any run reaches, from an empty or a loaded one, validates in full. */
  lemma {:induction false} EveryRegistryValidates<F>(hash: string -> string, file: File<F>, calls: seq<Call<F>>)
    requires HexDigest(hash) && AllGenuine(hash, calls)
    ensures var r := RunFrom(Registry(Loading(hash, file).observations, map[]), hash, calls);
      Sound(hash, r.observations) && |r.observations| <= MAX_RESOURCES
  {
    LoadIsSound(hash, file);
    RunsStay(hash, Registry(Loading(hash, file).observations, map[]), calls);
  }

  // ---- nothing is dropped in silence ----

  predicate DistinctKeys<F>(records: seq<Record<F>>) {
    forall i, j :: 0 <= i < j < |records| ==> records[i].key != records[j].key
  }

  lemma AcceptedKeys<F>(hash: string -> string, records: seq<Record<F>>, k: string)
    ensures k in Accepted(hash, records) ==> exists i :: 0 <= i < |records| && records[i].key == k
  {
    if records != [] {
      var n := |records| - 1;
      AcceptedKeys(hash, records[..n], k);
      if i :| 0 <= i < n && records[..n][i].key == k { assert records[i].key == k; }
    }
  }

  lemma NewKey<F>(hash: string -> string, records: seq<Record<F>>)
    requires records != [] && DistinctKeys(records)
    ensures var n := |records| - 1; DistinctKeys(records[..n]) && records[n].key !in Accepted(hash, records[..n])
  {
    var n := |records| - 1;
    AcceptedKeys(hash, records[..n], records[n].key);
  }

  /** A load accepts or reports every record: with distinct keys the two add up. */
  lemma {:induction false} AcceptedOrReported<F>(hash: string -> string, records: seq<Record<F>>)
    requires DistinctKeys(records)
    ensures |Accepted(hash, records)| + |Issues(hash, records)| == |records|
  {
    if records != [] {
      NewKey(hash, records);
      AcceptedOrReported(hash, records[..|records| - 1]);
    }
  }

  /** Why a record is rejected, told from the record: it has no observation, an unsafe key, another id than
      its key, or an identity that does not derive the key. */
  lemma RejectionIff<F>(hash: string -> string, record: Record<F>)
    ensures var safe := 0 < |record.key| <= 96 && forall i :: 0 <= i < |record.key| ==>
        var c := record.key[i];
        'a' <= c <= 'z' || 'A' <= c <= 'Z' || '0' <= c <= '9' || c in {'-', '_'};
      var rejection := RecordRejection(hash, record);
      if record.observation.None? then rejection == Some(CorruptRecord)
      else
        var o := record.observation.value;
        var derived := CanonicalKey(o.identity) == "" || Derive(hash, o.identity) == record.key;
        && (rejection == Some(UnsafeId) <==> !safe)
        && (rejection == Some(KeyMismatch) <==> safe && o.id != record.key)
        && (rejection == Some(IdentityMismatch) <==> safe && o.id == record.key && !derived)
        && (rejection.None? <==> safe && o.id == record.key && derived)
  {}

  /** A file is reported corrupt if and only if it is there and is no document of the schema with a time
      and resources; then nothing is loaded and one issue names the file. */
  lemma CorruptIff<F>(hash: string -> string, file: File<F>)
    ensures var loaded := Loading(hash, file);
      var proper :=
        file.Parsed? && file.schemaVersion == Some(SCHEMA_VERSION) && file.updatedAt.Some? && file.resources.Some?;
      && (loaded.corrupt <==> !file.Missing? && !proper)
      && (loaded.found <==> !file.Missing?)
      && (loaded.corrupt || file.Missing? ==> loaded.observations == map[])
      && (loaded.corrupt ==> |loaded.issues| == 1 && loaded.issues[0].resource.None?)
      && (!loaded.corrupt && loaded.found ==>
            && loaded.updatedAt == file.updatedAt.value && loaded.issues == Issues(hash, file.resources.value)
            && loaded.observations == Bounded(Accepted(hash, file.resources.value)))
  {}

  /** Each record is loaded as it is, or reported with the reason it was rejected. */
  lemma {:induction false} RecordFate<F>(hash: string -> string, records: seq<Record<F>>, i: nat)
    requires DistinctKeys(records) && i < |records|
    ensures if RecordRejection(hash, records[i]).None?
      then records[i].key in Accepted(hash, records)
        && records[i].observation == Some(Accepted(hash, records)[records[i].key])
      else Issue(Some(records[i].key), RecordRejection(hash, records[i]).value) in Issues(hash, records)
  {
    var n := |records| - 1;
    NewKey(hash, records);
    if i < n {
      RecordFate(hash, records[..n], i);
      assert records[..n][i] == records[i];
    }
  }

  // ---- save, then load ----

  /** One more valid record. */
  lemma AcceptedGrows<F>(hash: string -> string, records: seq<Record<F>>, last: Record<F>)
    requires RecordRejection(hash, last).None?
    ensures Accepted(hash, records + [last]) == Accepted(hash, records)[last.key := last.observation.value]
    ensures Issues(hash, records + [last]) == Issues(hash, records)
  {
    assert (records + [last])[..|records|] == records;
  }

  lemma RecordsGrow<F>(store: Observations<F>, keys: seq<string>, k: string)
    requires (forall x :: x in keys ==> x in store) && k in store
    ensures Records(store, keys + [k]) == Records(store, keys) + [Record(k, Some(store[k]))]
  {}

  lemma {:induction false} RecordsReturn<F>(hash: string -> string, store: Observations<F>, keys: seq<string>)
    requires forall k :: k in keys ==> k in store
    requires forall k :: k in keys ==> Rejection(hash, k, store[k]).None?
    ensures Accepted(hash, Records(store, keys)) == map k | k in keys :: store[k]
    ensures Issues(hash, Records(store, keys)) == []
  {
    if keys != [] {
      var n := |keys| - 1;
      var front, k := keys[..n], keys[n];
      assert keys == front + [k];
      RecordsReturn(hash, store, front);
      RecordsGrow(store, front, k);
      AcceptedGrows(hash, Records(store, front), Record(k, Some(store[k])));
    }
  }

  lemma AllOf<F>(store: Observations<F>, keys: seq<string>)
    requires forall k :: k in keys <==> k in store
    ensures (map k | k in keys :: store[k]) == store
  {}

  lemma SavedRecords<F>(hash: string -> string, store: Observations<F>)
    requires Sound(hash, store)
    ensures Accepted(hash, Records(store, SortedKeys(store.Keys))) == store
    ensures Issues(hash, Records(store, SortedKeys(store.Keys))) == []
  {
    var keys := SortedKeys(store.Keys);
    RecordsReturn(hash, store, keys);
    AllOf(store, keys);
  }

  lemma {:induction false} SavedReturns<F>(hash: string -> string, updatedAt: int, store: Observations<F>)
    requires Sound(hash, store) && |store| <= MAX_RESOURCES
    ensures Loading(hash, Saved(updatedAt, store)) == Loaded(updatedAt, store, false, true, [])
  {
    SavedRecords(hash, store);
    BoundedSize(store);
  }

  /** A saved registry loads as itself, without issues, exactly when it fits the bound and all of
      its records validate. */
  lemma {:induction false} SaveThenLoad<F>(hash: string -> string, updatedAt: int, store: Observations<F>)
    ensures Loading(hash, Saved(updatedAt, store)) == Loaded(updatedAt, store, false, true, [])
      <==> Sound(hash, store) && |store| <= MAX_RESOURCES
  {
    LoadIsSound(hash, Saved(updatedAt, store));
    if Sound(hash, store) && |store| <= MAX_RESOURCES {
      SavedReturns(hash, updatedAt, store);
    }
  }

  /** So no run is ever lost by a restart. */
  lemma RestartKeepsRegistry<F>(hash: string -> string, file: File<F>, calls: seq<Call<F>>, updatedAt: int)
    requires HexDigest(hash) && AllGenuine(hash, calls)
    ensures var r := RunFrom(Registry(Loading(hash, file).observations, map[]), hash, calls);
      Loading(hash, Saved(updatedAt, r.observations)) == Loaded(updatedAt, r.observations, false, true, [])
  {
    EveryRegistryValidates(hash, file, calls);
    SaveThenLoad(hash, updatedAt, RunFrom(Registry(Loading(hash, file).observations, map[]), hash, calls).observations);
  }
}
