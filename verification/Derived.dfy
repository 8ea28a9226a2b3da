/** Derived-source bindings of `src/derived.rs`. Text is its UTF-8 bytes, one byte to a `char`, and
    SHA-256 in hexadecimal is the parameter `hash`. */
module Derived {
  import opened Options
  import opened Strings

  // ---- length-prefixed parts ----

  function Pow256(k: nat): (p: nat)
    ensures p > 0
  {
    if k == 0 then 1 else 256 * Pow256(k - 1)
  }

  /** The `k` big-endian bytes of `n`. */
  function BigEndian(n: nat, k: nat): (s: string)
    ensures |s| == k
  {
    if k == 0 then "" else BigEndian(n / 256, k - 1) + [(n % 256) as char]
  }

  function FromBigEndian(s: string): nat {
    if s == "" then 0 else 256 * FromBigEndian(s[..|s| - 1]) + s[|s| - 1] as nat
  }

  lemma {:induction false} BigEndianRoundTrip(n: nat, k: nat)
    requires n < Pow256(k)
    ensures FromBigEndian(BigEndian(n, k)) == n
  {
    if k > 0 {
      BigEndianRoundTrip(n / 256, k - 1);
      assert BigEndian(n, k)[..k - 1] == BigEndian(n / 256, k - 1);
    }
  }

  /** Every length a `usize` can hold. */
  predicate Sized(parts: seq<string>) {
    forall i :: 0 <= i < |parts| ==> |parts[i]| < Pow256(8)
  }

  function Prefixed(part: string): string {
    BigEndian(|part|, 8) + part
  }

  /** The buffer `of_parts` digests. */
  function Encode(parts: seq<string>): string {
    if parts == [] then "" else Encode(parts[..|parts| - 1]) + Prefixed(parts[|parts| - 1])
  }

  /** The parts of a buffer, if it is one. */
  function Decode(buffer: string): Option<seq<string>>
    decreases |buffer|
  {
    if buffer == "" then Some([])
    else if |buffer| < 8 then None
    else
      var n := FromBigEndian(buffer[..8]);
      if |buffer| < 8 + n then None
      else
        var rest := Decode(buffer[8 + n..]);
        if rest.None? then None else Some([buffer[8..8 + n]] + rest.value)
  }

  lemma {:induction false} EncodeFront(part: string, parts: seq<string>)
    ensures Encode([part] + parts) == Prefixed(part) + Encode(parts)
  {
    var all := [part] + parts;
    if parts == [] {
      assert all[..0] == [] && all[0] == part;
      assert "" + Prefixed(part) == Prefixed(part) && Prefixed(part) + "" == Prefixed(part);
    } else {
      var n := |parts| - 1;
      assert all[..|all| - 1] == [part] + parts[..n] && all[|all| - 1] == parts[n];
      EncodeFront(part, parts[..n]);
      assert Prefixed(part) + Encode(parts[..n]) + Prefixed(parts[n]) ==
        Prefixed(part) + (Encode(parts[..n]) + Prefixed(parts[n]));
    }
  }

  lemma PrefixedFront(part: string, rest: string)
    requires |part| < Pow256(8)
    ensures var b := Prefixed(part) + rest;
      && |b| >= 8 + |part| && FromBigEndian(b[..8]) == |part| && b[8..8 + |part|] == part && b[8 + |part|..] == rest
  {
    BigEndianRoundTrip(|part|, 8);
    var b := Prefixed(part) + rest;
    assert b[..8] == BigEndian(|part|, 8);
    assert b[8..8 + |part|] == part && b[8 + |part|..] == rest;
  }

  /** A buffer tells its parts: no two part lists share one. */
  lemma {:induction false} DecodeEncode(parts: seq<string>)
    requires Sized(parts)
    ensures Decode(Encode(parts)) == Some(parts)
    decreases |parts|
  {
    if parts != [] {
      var rest := parts[1..];
      assert parts == [parts[0]] + rest;
      EncodeFront(parts[0], rest);
      PrefixedFront(parts[0], Encode(rest));
      DecodeEncode(rest);
    }
  }

  ghost predicate Injective(hash: string -> string) {
    forall a, b :: hash(a) == hash(b) ==> a == b
  }

  const REVISION_PREFIX := "sha256:"

  function OfParts(hash: string -> string, parts: seq<string>): string {
    REVISION_PREFIX + hash(Encode(parts))
  }

  /** `DerivedRevision::of_parts`. */
  method DigestParts(hash: string -> string, parts: seq<string>) returns (revision: string)
    ensures revision == OfParts(hash, parts)
  {
    var buffer := "";
    for i := 0 to |parts|
      invariant buffer == Encode(parts[..i])
    {
      assert parts[..i + 1][..i] == parts[..i];
      Appended(buffer, parts[i]);
      buffer := buffer + BigEndian(|parts[i]|, 8);
      buffer := buffer + parts[i];
    }
    assert parts[..|parts|] == parts;
    revision := REVISION_PREFIX + hash(buffer);
  }

  lemma Appended(buffer: string, part: string)
    ensures buffer + BigEndian(|part|, 8) + part == buffer + Prefixed(part)
  {}

  lemma {:induction false} OfPartsInjective(hash: string -> string, a: seq<string>, b: seq<string>)
    requires Injective(hash) && Sized(a) && Sized(b) && OfParts(hash, a) == OfParts(hash, b)
    ensures a == b
  {
    assert OfParts(hash, a)[|REVISION_PREFIX|..] == hash(Encode(a));
    assert OfParts(hash, b)[|REVISION_PREFIX|..] == hash(Encode(b));
    DecodeEncode(a);
    DecodeEncode(b);
  }

  /** `is_valid`. */
  predicate ValidRevision(r: string) {
    |r| == 71 && r[..7] == REVISION_PREFIX && forall i :: 7 <= i < 71 ==> IsHexDigit(r[i])
  }

  // ---- bindings ----

  datatype Kind = InstructionFile | SkillCatalog | Skill

  datatype Binding = Binding(id: string, kind: Kind, revision: string, source: string, chars: nat)

  function Label(kind: Kind): string {
    match kind
    case InstructionFile => "instruction"
    case SkillCatalog => "skillCatalog"
    case Skill => "skill"
  }

  /** `DerivedId::new`. */
  function IdOf(kind: Kind, name: string): string {
    Label(kind) + ":" + name
  }

  /** The kind is part of the identity: sources of two kinds never share an id. */
  lemma IdInjective(kind: Kind, name: string, kind': Kind, name': string)
    ensures IdOf(kind, name) == IdOf(kind', name') <==> kind == kind' && name == name'
  {
    FirstColon(kind, name);
    FirstColon(kind', name');
  }

  lemma FirstColon(kind: Kind, name: string)
    ensures var id, n := IdOf(kind, name), |Label(kind)|;
      n < |id| && id[n] == ':' && (forall i :: 0 <= i < n ==> id[i] != ':') && id[n + 1..] == name
  {
    var id, n := IdOf(kind, name), |Label(kind)|;
    assert forall i :: 0 <= i < n ==> id[i] == Label(kind)[i];
  }

  type Entries = map<string, Binding>

  predicate Keyed(entries: Entries) {
    forall k :: k in entries ==> entries[k].id == k
  }

  function Revisions(entries: Entries): (r: map<string, string>)
    ensures r.Keys == entries.Keys
  {
    map k | k in entries :: entries[k].revision
  }

  datatype Transition = Transition(added: seq<string>, updated: seq<string>, removed: seq<string>)

  predicate IsNoop(t: Transition) {
    t.added == [] && t.updated == [] && t.removed == []
  }

  function Previous(previous: Option<Entries>): Entries {
    if previous.None? then map[] else previous.value
  }

  function AddedOf(keys: seq<string>, previous: Entries): seq<string> {
    if keys == [] then []
    else AddedOf(keys[..|keys| - 1], previous) + if keys[|keys| - 1] !in previous then [keys[|keys| - 1]] else []
  }

  predicate Moved(k: string, current: Entries, previous: Entries)
    requires k in current
  {
    k in previous && previous[k].revision != current[k].revision
  }

  function UpdatedOf(keys: seq<string>, current: Entries, previous: Entries): seq<string>
    requires forall k :: k in keys ==> k in current
  {
    if keys == [] then []
    else
      UpdatedOf(keys[..|keys| - 1], current, previous)
        + if Moved(keys[|keys| - 1], current, previous) then [keys[|keys| - 1]] else []
  }

  /** What changed between two sets, in identity order. */
  function Diff(current: Entries, previous: Option<Entries>): Transition {
    var before := Previous(previous);
    Transition(AddedOf(SortedKeys(current.Keys), before), UpdatedOf(SortedKeys(current.Keys), current, before),
               AddedOf(SortedKeys(before.Keys), current))
  }

  function Part(b: Binding): string {
    b.id + [0 as char] + b.revision
  }

  function PartsOf(keys: seq<string>, entries: Entries): (parts: seq<string>)
    requires forall k :: k in keys ==> k in entries
    ensures |parts| == |keys|
  {
    seq(|keys|, i requires 0 <= i < |keys| => Part(entries[keys[i]]))
  }

  function FingerprintOf(hash: string -> string, entries: Entries): string {
    OfParts(hash, PartsOf(SortedKeys(entries.Keys), entries))
  }

  /** The set `a` with `b` folded in. */
  function Merged(a: Entries, b: Entries): Entries {
    a + b
  }

  class DerivedBindings {
    var entries: Entries

    constructor ()
      ensures entries == map[]
    {
      entries := map[];
    }

    method Bind(binding: Binding) returns (displaced: Option<Binding>)
      requires Keyed(entries)
      modifies this
      ensures Keyed(entries) && entries == old(entries)[binding.id := binding]
      ensures displaced == if binding.id in old(entries) then Some(old(entries)[binding.id]) else None
    {
      displaced := if binding.id in entries then Some(entries[binding.id]) else None;
      entries := entries[binding.id := binding];
    }

    method Fingerprint(hash: string -> string) returns (revision: string)
      requires Keyed(entries)
      ensures revision == FingerprintOf(hash, entries)
    {
      var parts := [];
      var keys := SortedKeys(entries.Keys);
      for i := 0 to |keys|
        invariant parts == PartsOf(keys, entries)[..i]
      {
        var entry := entries[keys[i]];
        var part := "";
        part := part + entry.id;
        part := part + [0 as char];
        part := part + entry.revision;
        PartBuilt(entry);
        parts := parts + [part];
      }
      assert PartsOf(keys, entries)[..|keys|] == PartsOf(keys, entries);
      revision := DigestParts(hash, parts);
    }

    method Merge(other: DerivedBindings)
      requires Keyed(entries) && Keyed(other.entries)
      modifies this
      ensures Keyed(entries) && entries == Merged(old(entries), old(other.entries))
    {
      entries := FoldIn(entries, other.entries);
    }

    method TransitionFrom(previous: Option<Entries>) returns (t: Transition)
      requires Keyed(entries) && (previous.Some? ==> Keyed(previous.value))
      ensures t == Diff(entries, previous)
    {
      var added, updated, removed := [], [], [];
      var keys := SortedKeys(entries.Keys);
      for i := 0 to |keys|
        invariant added == AddedOf(keys[..i], Previous(previous))
        invariant updated == UpdatedOf(keys[..i], entries, Previous(previous))
      {
        AddedStep(keys, Previous(previous), i);
        UpdatedStep(keys, entries, Previous(previous), i);
        var entry := entries[keys[i]];
        var before := if previous.Some? && entry.id in previous.value then Some(previous.value[entry.id]) else None;
        if before.None? {
          added := added + [entry.id];
        } else if before.value.revision != entry.revision {
          updated := updated + [entry.id];
        }
      }
      WholeOf(keys);
      if previous.Some? { removed := Gone(previous.value); }
      t := Transition(added, updated, removed);
    }

    /** The second loop of `transition_from`. */
    method Gone(previous: Entries) returns (removed: seq<string>)
      requires Keyed(entries) && Keyed(previous)
      ensures removed == AddedOf(SortedKeys(previous.Keys), entries)
    {
      removed := [];
      var keys := SortedKeys(previous.Keys);
      for i := 0 to |keys|
        invariant removed == AddedOf(keys[..i], entries)
      {
        AddedStep(keys, entries, i);
        var entry := previous[keys[i]];
        if entry.id !in entries { removed := removed + [entry.id]; }
      }
      WholeOf(keys);
    }
  }

  /** The loop of `merge`. */
  method FoldIn(before: Entries, folded: Entries) returns (entries: Entries)
    requires Keyed(before) && Keyed(folded)
    ensures Keyed(entries) && entries == Merged(before, folded)
  {
    entries := before;
    var keys := SortedKeys(folded.Keys);
    NoneFolded(before, folded);
    for i := 0 to |keys|
      invariant entries == before + Among(folded, keys[..i])
    {
      OneMoreFolded(before, folded, keys, i);
      var entry := folded[keys[i]];
      entries := entries[entry.id := entry];
    }
    AllFolded(before, folded, keys);
  }

  lemma WholeOf(keys: seq<string>)
    ensures keys[..|keys|] == keys
  {}

  lemma AddedStep(keys: seq<string>, previous: Entries, i: nat)
    requires i < |keys|
    ensures AddedOf(keys[..i + 1], previous) ==
      AddedOf(keys[..i], previous) + if keys[i] !in previous then [keys[i]] else []
  {
    assert keys[..i + 1][..i] == keys[..i];
  }

  lemma UpdatedStep(keys: seq<string>, current: Entries, previous: Entries, i: nat)
    requires i < |keys| && forall k :: k in keys ==> k in current
    ensures UpdatedOf(keys[..i + 1], current, previous) ==
      UpdatedOf(keys[..i], current, previous) + if Moved(keys[i], current, previous) then [keys[i]] else []
  {
    assert keys[..i + 1][..i] == keys[..i];
  }

  lemma PartBuilt(entry: Binding)
    ensures "" + entry.id + [0 as char] + entry.revision == Part(entry)
  {
    assert "" + entry.id == entry.id;
  }

  function Among(folded: Entries, keys: seq<string>): Entries {
    map k | k in folded && k in keys :: folded[k]
  }

  lemma NoneFolded(before: Entries, folded: Entries)
    ensures before + Among(folded, []) == before
  {}

  lemma OneMoreFolded(before: Entries, folded: Entries, keys: seq<string>, i: nat)
    requires i < |keys| && keys[i] in folded
    ensures before + Among(folded, keys[..i + 1]) == (before + Among(folded, keys[..i]))[keys[i] := folded[keys[i]]]
  {
    assert keys[..i + 1] == keys[..i] + [keys[i]];
  }

  lemma AllFolded(before: Entries, folded: Entries, keys: seq<string>)
    requires forall k :: k in keys <==> k in folded
    ensures before + Among(folded, keys[..|keys|]) == Merged(before, folded)
  {
    assert keys[..|keys|] == keys;
    assert Among(folded, keys) == folded;
  }

  // ---- the fingerprint ----

  ghost predicate WellFormed(entries: Entries) {
    && Keyed(entries)
    && (forall k :: k in entries ==> ValidRevision(entries[k].revision) && |k| + 72 < Pow256(8))
  }

  /** A part is cut from its end: the revision has a fixed width, so identities may contain any byte. */
  lemma PartInjective(a: Binding, b: Binding)
    requires ValidRevision(a.revision) && ValidRevision(b.revision) && Part(a) == Part(b)
    ensures a.id == b.id && a.revision == b.revision
  {
    var n := |Part(a)|;
    assert Part(a)[..n - 72] == a.id && Part(b)[..n - 72] == b.id;
    assert Part(a)[n - 71..] == a.revision && Part(b)[n - 71..] == b.revision;
  }

  lemma FingerprintDetermines(hash: string -> string, a: Entries, b: Entries)
    requires Injective(hash) && WellFormed(a) && WellFormed(b) && FingerprintOf(hash, a) == FingerprintOf(hash, b)
    ensures Revisions(a) == Revisions(b)
  {
    var ka, kb := SortedKeys(a.Keys), SortedKeys(b.Keys);
    PartsSized(ka, a);
    PartsSized(kb, b);
    OfPartsInjective(hash, PartsOf(ka, a), PartsOf(kb, b));
    SameParts(ka, a, kb, b);
    assert forall k :: k in a <==> k in ka;
    SameRevisions(a, b);
  }

  lemma SameParts(ka: seq<string>, a: Entries, kb: seq<string>, b: Entries)
    requires WellFormed(a) && WellFormed(b)
    requires (forall k :: k in ka ==> k in a) && (forall k :: k in kb ==> k in b)
    requires PartsOf(ka, a) == PartsOf(kb, b)
    ensures ka == kb && forall k :: k in ka ==> a[k].revision == b[k].revision
  {
    var pa, pb := PartsOf(ka, a), PartsOf(kb, b);
    assert |ka| == |pa| == |kb|;
    forall i | 0 <= i < |ka| ensures ka[i] == kb[i] && a[ka[i]].revision == b[kb[i]].revision {
      assert ka[i] in ka && kb[i] in kb && pa[i] == pb[i];
      PartInjective(a[ka[i]], b[kb[i]]);
    }
  }

  lemma SameRevisions(a: Entries, b: Entries)
    ensures Revisions(a) == Revisions(b) <==>
      (forall k :: k in a <==> k in b) && forall k :: k in a && k in b ==> a[k].revision == b[k].revision
  {
    if Revisions(a) == Revisions(b) {
      assert a.Keys == Revisions(b).Keys;
      assert forall k :: k in a ==> Revisions(a)[k] == Revisions(b)[k];
    }
  }

  lemma PartsSized(keys: seq<string>, entries: Entries)
    requires WellFormed(entries) && forall k :: k in keys ==> k in entries
    ensures Sized(PartsOf(keys, entries))
  {
    forall i | 0 <= i < |keys| ensures |PartsOf(keys, entries)[i]| < Pow256(8) {
      assert keys[i] in keys;
    }
  }

  lemma FingerprintDetermined(hash: string -> string, a: Entries, b: Entries)
    requires Keyed(a) && Keyed(b) && Revisions(a) == Revisions(b)
    ensures FingerprintOf(hash, a) == FingerprintOf(hash, b)
  {
    assert a.Keys == Revisions(a).Keys && b.Keys == Revisions(b).Keys;
    var keys := SortedKeys(a.Keys);
    forall i | 0 <= i < |keys| ensures PartsOf(keys, a)[i] == PartsOf(keys, b)[i] {
      assert keys[i] in keys;
      assert Revisions(a)[keys[i]] == Revisions(b)[keys[i]];
    }
    assert PartsOf(keys, a) == PartsOf(keys, b);
  }

  // ---- the transition ----

  lemma {:induction false} AddedMembers(keys: seq<string>, previous: Entries)
    requires Distinct(keys)
    ensures forall k :: k in AddedOf(keys, previous) <==> k in keys && k !in previous
    ensures Distinct(AddedOf(keys, previous))
  {
    if keys != [] {
      var n := |keys| - 1;
      AddedMembers(keys[..n], previous);
      assert keys == keys[..n] + [keys[n]];
      assert keys[n] !in keys[..n];
    }
  }

  lemma {:induction false} UpdatedMembers(keys: seq<string>, current: Entries, previous: Entries)
    requires Distinct(keys) && forall k :: k in keys ==> k in current
    ensures forall k :: k in UpdatedOf(keys, current, previous) <==>
      k in keys && k in previous && previous[k].revision != current[k].revision
    ensures Distinct(UpdatedOf(keys, current, previous))
  {
    if keys != [] {
      var n := |keys| - 1;
      UpdatedMembers(keys[..n], current, previous);
      assert keys == keys[..n] + [keys[n]];
      assert keys[n] !in keys[..n];
    }
  }

  /** The three lists name each source whose revision appeared, moved or went, once and in one list. */
  lemma DiffMembers(current: Entries, previous: Option<Entries>)
    ensures var t, before := Diff(current, previous), Previous(previous);
      && (forall k :: k in t.added <==> k in current && k !in before)
      && (forall k :: k in t.updated <==> k in current && k in before && before[k].revision != current[k].revision)
      && (forall k :: k in t.removed <==> k in before && k !in current)
      && Distinct(t.added) && Distinct(t.updated) && Distinct(t.removed)
      && (forall k :: (k in t.added ==> k !in t.updated && k !in t.removed) && (k in t.updated ==> k !in t.removed))
  {
    var before := Previous(previous);
    SortedDistinct(current.Keys);
    SortedDistinct(before.Keys);
    AddedMembers(SortedKeys(current.Keys), before);
    UpdatedMembers(SortedKeys(current.Keys), current, before);
    AddedMembers(SortedKeys(before.Keys), current);
  }

  /** A set of revisions after a transition; only what the transition names is read from `current`. */
  function Applied(revisions: map<string, string>, t: Transition, current: Entries): map<string, string>
    requires forall k :: k in t.added || k in t.updated ==> k in current
  {
    map k | k in revisions.Keys + current.Keys && k !in t.removed
      && (k in revisions || k in t.added || k in t.updated) ::
      if k in t.added || k in t.updated then current[k].revision else revisions[k]
  }

  ghost predicate Describes(t: Transition, current: Entries, before: Entries) {
    && (forall k :: k in t.added <==> k in current && k !in before)
    && (forall k :: k in t.updated <==> k in current && k in before && before[k].revision != current[k].revision)
    && (forall k :: k in t.removed <==> k in before && k !in current)
  }

  lemma DescribedApplies(t: Transition, current: Entries, before: Entries)
    requires Describes(t, current, before)
    ensures (forall k :: k in t.added || k in t.updated ==> k in current)
      && Applied(Revisions(before), t, current) == Revisions(current)
  {
    var applied := Applied(Revisions(before), t, current);
    assert forall k :: k in applied <==> k in current;
    forall k | k in current ensures applied[k] == current[k].revision {
      if k in before && before[k].revision == current[k].revision { assert k !in t.added && k !in t.updated; }
    }
  }

  /** Applying a transition to the previous revisions gives the current ones. */
  lemma TransitionApplies(current: Entries, previous: Option<Entries>)
    ensures var t := Diff(current, previous);
      && (forall k :: k in t.added || k in t.updated ==> k in current)
      && Applied(Revisions(Previous(previous)), t, current) == Revisions(current)
  {
    DiffMembers(current, previous);
    DescribedApplies(Diff(current, previous), current, Previous(previous));
  }

  /** Nothing changed exactly when the revisions are the same, and exactly when the fingerprints are. */
  lemma NoopIffSameFingerprint(hash: string -> string, current: Entries, previous: Entries)
    requires Injective(hash) && WellFormed(current) && WellFormed(previous)
    ensures IsNoop(Diff(current, Some(previous))) <==> Revisions(current) == Revisions(previous)
    ensures IsNoop(Diff(current, Some(previous))) <==> FingerprintOf(hash, current) == FingerprintOf(hash, previous)
  {
    NoopIffSameRevisions(current, previous);
    if Revisions(current) == Revisions(previous) { FingerprintDetermined(hash, current, previous); }
    if FingerprintOf(hash, current) == FingerprintOf(hash, previous) { FingerprintDetermines(hash, current, previous); }
  }

  lemma NoopIffSameRevisions(current: Entries, previous: Entries)
    ensures IsNoop(Diff(current, Some(previous))) <==> Revisions(current) == Revisions(previous)
  {
    var t := Diff(current, Some(previous));
    DiffMembers(current, Some(previous));
    SameRevisions(current, previous);
    Empty(t.added);
    Empty(t.updated);
    Empty(t.removed);
  }

  lemma Empty(keys: seq<string>)
    ensures (forall k :: k !in keys) ==> keys == []
  {
    if keys != [] { assert keys[0] in keys; }
  }

  /** The transitions of any chain of recorded sets, applied from nothing, give the last one. */
  function Replayed(chain: seq<Entries>): map<string, string>
    requires chain != []
  {
    var n := |chain| - 1;
    var previous := if n == 0 then None else Some(chain[n - 1]);
    DiffMembers(chain[n], previous);
    Applied(if n == 0 then map[] else Replayed(chain[..n]), Diff(chain[n], previous), chain[n])
  }

  lemma {:induction false} ChainReplays(chain: seq<Entries>)
    requires chain != []
    ensures Replayed(chain) == Revisions(chain[|chain| - 1])
  {
    var n := |chain| - 1;
    if n > 0 {
      ChainReplays(chain[..n]);
      TransitionApplies(chain[n], Some(chain[n - 1]));
    } else {
      TransitionApplies(chain[0], None);
      assert Revisions(map[]) == map[];
    }
  }

  /** Folding a set in leaves a set against which that set has nothing new. */
  lemma MergeAbsorbs(a: Entries, b: Entries)
    ensures var t := Diff(Merged(a, b), Some(a));
      t.removed == [] && forall k :: k in t.added || k in t.updated ==> k in b
    ensures var t := Diff(b, Some(Merged(a, b))); t.added == [] && t.updated == []
  {
    DiffMembers(Merged(a, b), Some(a));
    DiffMembers(b, Some(Merged(a, b)));
    Empty(Diff(Merged(a, b), Some(a)).removed);
    Empty(Diff(b, Some(Merged(a, b))).added);
    Empty(Diff(b, Some(Merged(a, b))).updated);
  }
}
