/** Fingerprint inputs of `src/fingerprint.rs`: normal forms, float rejection, domain separation.
    SHA-256 is the parameter `hash` and RFC 8785 text is given. */
module Fingerprints {
  import opened Options
  import opened Strings

  // ---- normal forms ----

  /** What a list is sorted by. */
  datatype Key = Key(name: string, id: string)

  predicate KeyLess(a: Key, b: Key) {
    Less(a.name, b.name) || (a.name == b.name && Less(a.id, b.id))
  }

  lemma KeyOrder(a: Key, b: Key, c: Key)
    ensures !KeyLess(a, a)
    ensures a == b || KeyLess(a, b) || KeyLess(b, a)
    ensures KeyLess(a, b) ==> !KeyLess(b, a)
    ensures KeyLess(a, b) && KeyLess(b, c) ==> KeyLess(a, c)
  {
    LessIrreflexive(a.name);
    LessIrreflexive(a.id);
    LessTotal(a.name, b.name);
    LessTotal(a.id, b.id);
    if Less(a.name, b.name) { LessAsymmetric(a.name, b.name); }
    if Less(a.id, b.id) { LessAsymmetric(a.id, b.id); }
    if Less(a.name, b.name) && Less(b.name, c.name) { LessTransitive(a.name, b.name, c.name); }
    if Less(a.id, b.id) && Less(b.id, c.id) { LessTransitive(a.id, b.id, c.id); }
  }

  ghost predicate Injective<T(!new)>(key: T -> Key) {
    forall a, b :: key(a) == key(b) ==> a == b
  }

  ghost predicate Sorted<T>(key: T -> Key, s: seq<T>) {
    forall i, j :: 0 <= i < j < |s| ==> !KeyLess(key(s[j]), key(s[i]))
  }

  ghost predicate StrictlySorted<T>(key: T -> Key, s: seq<T>) {
    forall i, j :: 0 <= i < j < |s| ==> KeyLess(key(s[i]), key(s[j]))
  }

  ghost predicate SameMembers<T(!new)>(a: seq<T>, b: seq<T>) {
    forall x :: x in a <==> x in b
  }

  /** `r` lists exactly the members of `items`, each once, in key order. */
  ghost predicate Normal<T(!new)>(key: T -> Key, items: seq<T>, r: seq<T>) {
    StrictlySorted(key, r) && SameMembers(items, r)
  }

  lemma InsertKeepsSorted<T>(key: T -> Key, s: seq<T>, x: T, i: nat)
    requires Sorted(key, s) && i <= |s|
    requires forall j :: 0 <= j < i ==> !KeyLess(key(x), key(s[j]))
    requires forall j :: i <= j < |s| ==> KeyLess(key(x), key(s[j]))
    ensures Sorted(key, s[..i] + [x] + s[i..])
  {
    var t := s[..i] + [x] + s[i..];
    forall a, b | 0 <= a < b < |t| ensures !KeyLess(key(t[b]), key(t[a])) {
      if a == i {
        KeyOrder(key(x), key(s[b - 1]), key(x));
      } else if b == i {
        assert t[a] == s[a];
      } else {
        assert t[a] == s[if a < i then a else a - 1] && t[b] == s[if b < i then b else b - 1];
      }
    }
  }

  /** Where a new element goes: after everything not greater, as a stable sort puts it. */
  method Position<T>(key: T -> Key, s: seq<T>, x: T) returns (i: nat)
    requires Sorted(key, s)
    ensures i <= |s|
    ensures forall j :: 0 <= j < i ==> !KeyLess(key(x), key(s[j]))
    ensures forall j :: i <= j < |s| ==> KeyLess(key(x), key(s[j]))
  {
    i := |s|;
    while i > 0 && KeyLess(key(x), key(s[i - 1]))
      invariant 0 <= i <= |s|
      invariant forall j :: i <= j < |s| ==> KeyLess(key(x), key(s[j]))
    {
      i := i - 1;
    }
    forall j | 0 <= j < i ensures !KeyLess(key(x), key(s[j])) {
      KeyOrder(key(x), key(s[j]), key(s[i - 1]));
      KeyOrder(key(s[i - 1]), key(s[j]), key(x));
      NotBelow(key(s[j]), key(s[i - 1]), key(x));
    }
  }

  lemma NotBelow(a: Key, b: Key, x: Key)
    requires !KeyLess(b, a) && !KeyLess(x, b)
    ensures !KeyLess(x, a)
  {
    KeyOrder(x, a, b);
    KeyOrder(a, b, x);
    KeyOrder(x, b, a);
  }

  method SortBy<T>(key: T -> Key, items: seq<T>) returns (r: seq<T>)
    ensures Sorted(key, r) && multiset(r) == multiset(items)
  {
    r := [];
    for n := 0 to |items|
      invariant Sorted(key, r) && multiset(r) == multiset(items[..n])
    {
      var i := Position(key, r, items[n]);
      InsertKeepsSorted(key, r, items[n], i);
      InsertCounts(r, items, n, i);
      r := r[..i] + [items[n]] + r[i..];
    }
    assert items[..|items|] == items;
  }

  lemma InsertCounts<T>(r: seq<T>, items: seq<T>, n: nat, i: nat)
    requires n < |items| && i <= |r| && multiset(r) == multiset(items[..n])
    ensures multiset(r[..i] + [items[n]] + r[i..]) == multiset(items[..n + 1])
  {
    assert items[..n + 1] == items[..n] + [items[n]];
    assert r == r[..i] + r[i..];
  }

  /** `dedup`: drop elements equal to their predecessor. */
  method Dedup<T(==, !new)>(key: T -> Key, items: seq<T>) returns (r: seq<T>)
    requires Sorted(key, items) && Injective(key)
    ensures Normal(key, items, r)
  {
    r := [];
    for n := 0 to |items|
      invariant n == 0 <==> r == []
      invariant n > 0 ==> r[|r| - 1] == items[n - 1]
      invariant Normal(key, items[..n], r)
    {
      assert items[..n + 1] == items[..n] + [items[n]];
      if n == 0 || items[n] != items[n - 1] {
        if n > 0 {
          StrictlyAbove(key, items[n - 1], items[n]);
          AppendGreater(key, r, items[n]);
        }
        r := r + [items[n]];
      }
    }
    assert items[..|items|] == items;
  }

  lemma StrictlyAbove<T(!new)>(key: T -> Key, a: T, b: T)
    requires Injective(key) && a != b && !KeyLess(key(b), key(a))
    ensures KeyLess(key(a), key(b))
  {
    KeyOrder(key(a), key(b), key(a));
  }

  lemma AppendGreater<T>(key: T -> Key, r: seq<T>, x: T)
    requires StrictlySorted(key, r) && r != [] && KeyLess(key(r[|r| - 1]), key(x))
    ensures StrictlySorted(key, r + [x])
  {
    forall i | 0 <= i < |r| - 1 ensures KeyLess(key(r[i]), key(x)) {
      KeyOrder(key(r[i]), key(r[|r| - 1]), key(x));
    }
  }

  /** A set of members has one normal list. */
  lemma {:induction false} NormalUnique<T(!new)>(key: T -> Key, a: seq<T>, b: seq<T>)
    requires StrictlySorted(key, a) && StrictlySorted(key, b) && SameMembers(a, b)
    ensures a == b
  {
    BothEmpty(a, b);
    if a != [] {
      assert a[0] in b && b[0] in a;
      FirstIsLeast(key, a, b[0]);
      FirstIsLeast(key, b, a[0]);
      KeyOrder(key(a[0]), key(b[0]), key(a[0]));
      TailMembers(key, a);
      TailMembers(key, b);
      NormalUnique(key, a[1..], b[1..]);
      assert a == [a[0]] + a[1..] && b == [b[0]] + b[1..];
    }
  }

  lemma BothEmpty<T(!new)>(a: seq<T>, b: seq<T>)
    requires SameMembers(a, b)
    ensures a == [] <==> b == []
  {
    if a != [] { assert a[0] in a; }
    if b != [] { assert b[0] in b; }
  }

  lemma FirstIsLeast<T(!new)>(key: T -> Key, a: seq<T>, x: T)
    requires StrictlySorted(key, a) && x in a
    ensures a[0] == x || KeyLess(key(a[0]), key(x))
  {}

  lemma TailMembers<T(!new)>(key: T -> Key, a: seq<T>)
    requires StrictlySorted(key, a) && a != []
    ensures StrictlySorted(key, a[1..]) && forall x :: x in a[1..] <==> x in a && x != a[0]
  {
    KeyOrder(key(a[0]), key(a[0]), key(a[0]));
    assert a == [a[0]] + a[1..];
  }

  // ---- the spawn input ----

  datatype EntityKind =
    | Job | Attempt | Call | Command | Approval | Artifact | ChangeSet | Conversation | Message | Fact
    | BudgetScope | CapabilityRevocation

  datatype EntityRef = EntityRef(kind: EntityKind, id: string)

  datatype FailureClass =
    | Validation | Authentication | Authorization | Conflict | Concurrency | NotFound | Sandbox | Capability
    | Provider | Budget | ResourceLimit | RateLimit | Timeout | Cancelled | Preempted | Internal | Unknown

  function KindName(kind: EntityKind): string {
    match kind
    case Job => "job"
    case Attempt => "attempt"
    case Call => "call"
    case Command => "command"
    case Approval => "approval"
    case Artifact => "artifact"
    case ChangeSet => "change_set"
    case Conversation => "conversation"
    case Message => "message"
    case Fact => "fact"
    case BudgetScope => "budget_scope"
    case CapabilityRevocation => "capability_revocation"
  }

  function ClassName(class_: FailureClass): string {
    match class_
    case Validation => "validation"
    case Authentication => "authentication"
    case Authorization => "authorization"
    case Conflict => "conflict"
    case Concurrency => "concurrency"
    case NotFound => "not_found"
    case Sandbox => "sandbox"
    case Capability => "capability"
    case Provider => "provider"
    case Budget => "budget"
    case ResourceLimit => "resource_limit"
    case RateLimit => "rate_limit"
    case Timeout => "timeout"
    case Cancelled => "cancelled"
    case Preempted => "preempted"
    case Internal => "internal"
    case Unknown => "unknown"
  }

  function RefKey(r: EntityRef): Key {
    Key(KindName(r.kind), r.id)
  }

  function ClassKey(c: FailureClass): Key {
    Key(ClassName(c), "")
  }

  lemma KeysInjective()
    ensures Injective(RefKey) && Injective(ClassKey)
  {
    forall a: EntityRef, b: EntityRef | RefKey(a) == RefKey(b) ensures a == b {
      KindNamesDiffer(a.kind, b.kind);
    }
    forall a: FailureClass, b: FailureClass | ClassKey(a) == ClassKey(b) ensures a == b {
      ClassNamesDiffer(a, b);
    }
  }

  lemma KindNamesDiffer(a: EntityKind, b: EntityKind)
    ensures KindName(a) == KindName(b) ==> a == b
  {}

  lemma ClassNamesDiffer(a: FailureClass, b: FailureClass)
    ensures ClassName(a) == ClassName(b) ==> a == b
  {}

  datatype SpawnInput<S> = SpawnInput(scope: S, spec: S, policy: S, retryable: seq<FailureClass>,
    dependencies: seq<EntityRef>, childPolicy: S)

  /** `SpawnFingerprintInputV1::new`. */
  method NewSpawnInput<S>(
    scope: S, spec: S, policy: S, retryable: seq<FailureClass>, dependencies: seq<EntityRef>, childPolicy: S)
    returns (input: SpawnInput<S>)
    ensures Built(scope, spec, policy, retryable, dependencies, childPolicy, input)
  {
    KeysInjective();
    var refs := SortBy(RefKey, dependencies);
    var refs' := Dedup(RefKey, refs);
    SortedMembers(dependencies, refs);
    var classes := SortBy(ClassKey, retryable);
    var classes' := Dedup(ClassKey, classes);
    SortedMembers(retryable, classes);
    input := SpawnInput(scope, spec, policy, classes', refs', childPolicy);
  }

  lemma SortedMembers<T(!new)>(items: seq<T>, r: seq<T>)
    requires multiset(r) == multiset(items)
    ensures SameMembers(items, r)
  {
    assert forall x :: x in items <==> x in multiset(items);
    assert forall x :: x in r <==> x in multiset(r);
  }

  /** What the constructor promises: the other fields as given, and both lists in normal form. */
  ghost predicate Built<S>(
    scope: S, spec: S, policy: S, retryable: seq<FailureClass>, dependencies: seq<EntityRef>, childPolicy: S,
    input: SpawnInput<S>) {
    && input.scope == scope && input.spec == spec && input.policy == policy && input.childPolicy == childPolicy
    && Normal(ClassKey, retryable, input.retryable)
    && Normal(RefKey, dependencies, input.dependencies)
  }

  /** Order and repetition of the dependencies and retry classes are immaterial, and nothing else is. */
  lemma SpawnInputIsCanonical<S>(scope: S, spec: S, policy: S, childPolicy: S,
                                 retryable: seq<FailureClass>, dependencies: seq<EntityRef>, a: SpawnInput<S>,
                                 retryable': seq<FailureClass>, dependencies': seq<EntityRef>, b: SpawnInput<S>)
    requires Built(scope, spec, policy, retryable, dependencies, childPolicy, a)
    requires Built(scope, spec, policy, retryable', dependencies', childPolicy, b)
    ensures a == b <==> SameMembers(retryable, retryable') && SameMembers(dependencies, dependencies')
  {
    if SameMembers(retryable, retryable') && SameMembers(dependencies, dependencies') {
      NormalUnique(ClassKey, a.retryable, b.retryable);
      NormalUnique(RefKey, a.dependencies, b.dependencies);
    }
    if a == b {
      Meet(retryable, retryable', a.retryable);
      Meet(dependencies, dependencies', a.dependencies);
    }
  }

  lemma Meet<T(!new)>(x: seq<T>, y: seq<T>, r: seq<T>)
    requires SameMembers(x, r) && SameMembers(y, r)
    ensures SameMembers(x, y)
  {}

  /** Rebuilding an input from its own fields changes nothing. */
  lemma SpawnInputIsFixedPoint<S>(
    retryable: seq<FailureClass>, dependencies: seq<EntityRef>, a: SpawnInput<S>, b: SpawnInput<S>)
    requires Built(a.scope, a.spec, a.policy, retryable, dependencies, a.childPolicy, a)
    requires Built(a.scope, a.spec, a.policy, a.retryable, a.dependencies, a.childPolicy, b)
    ensures a == b
  {
    NormalUnique(ClassKey, a.retryable, b.retryable);
    NormalUnique(RefKey, a.dependencies, b.dependencies);
  }

  // ---- float rejection ----

  datatype Json =
    | Null
    | Flag(b: bool)
    | Whole(n: int)
    | Float
    | Text(s: string)
    | Array(items: seq<Json>)
    | Object(fields: seq<(string, Json)>)

  /** `reject_binary_floats`: whether the value is refused. */
  predicate Refused(v: Json) {
    match v
    case Float => true
    case Array(items) => exists i | 0 <= i < |items| :: Refused(items[i])
    case Object(fields) => exists i | 0 <= i < |fields| :: Refused(fields[i].1)
    case _ => false
  }

  /** The value at a path of array and object positions. */
  function At(v: Json, path: seq<nat>): Option<Json>
    decreases path
  {
    if path == [] then Some(v)
    else if v.Array? && path[0] < |v.items| then At(v.items[path[0]], path[1..])
    else if v.Object? && path[0] < |v.fields| then At(v.fields[path[0]].1, path[1..])
    else None
  }

  lemma {:induction false} FloatFound(v: Json) returns (path: seq<nat>)
    requires Refused(v)
    ensures At(v, path) == Some(Float)
  {
    match v {
      case Float => path := [];
      case Array(items) =>
        var i :| 0 <= i < |items| && Refused(items[i]);
        var rest := FloatFound(items[i]);
        path := [i] + rest;
        assert path[1..] == rest;
      case Object(fields) =>
        var i :| 0 <= i < |fields| && Refused(fields[i].1);
        var rest := FloatFound(fields[i].1);
        path := [i] + rest;
        assert path[1..] == rest;
    }
  }

  lemma {:induction false} FloatRefused(v: Json, path: seq<nat>)
    requires At(v, path) == Some(Float)
    ensures Refused(v)
    decreases path
  {
    if path != [] {
      if v.Array? { FloatRefused(v.items[path[0]], path[1..]); } else { FloatRefused(v.fields[path[0]].1, path[1..]); }
    }
  }

  /** A value is refused exactly when a binary float occurs somewhere in it. */
  lemma RefusedIffFloatOccurs(v: Json)
    ensures Refused(v) <==> exists path :: At(v, path) == Some(Float)
  {
    if Refused(v) { var path := FloatFound(v); }
    if path :| At(v, path) == Some(Float) { FloatRefused(v, path); }
  }

  // ---- domains ----

  const COMMAND_DOMAIN := "OCG-FP/COMMAND/v1"
  const CHANGESET_DOMAIN := "OCG-FP/CHANGESET/v1"
  const SPAWN_DOMAIN := "OCG-FP/SPAWN/v1"

  const NUL: char := 0 as char

  function Preimage(domain: string, canonical: string): string {
    domain + [NUL] + canonical
  }

  predicate IsDomain(domain: string) {
    domain == COMMAND_DOMAIN || domain == CHANGESET_DOMAIN || domain == SPAWN_DOMAIN
  }

  /** Pre-images of different domains never coincide, and within one domain only for one text. */
  lemma PreimagesSeparate(d: string, x: string, e: string, y: string)
    requires IsDomain(d) && IsDomain(e)
    ensures Preimage(d, x) == Preimage(e, y) <==> d == e && x == y
  {
    if Preimage(d, x) == Preimage(e, y) { CutAtFirst(d, x, e, y, NUL); }
  }

  type Octet = b: int | 0 <= b < 256

  function HexText(bytes: seq<Octet>): string {
    if bytes == [] then ""
    else
      var last := bytes[|bytes| - 1];
      HexText(bytes[..|bytes| - 1]) + [LowerHex(last / 16)] + [LowerHex(last % 16)]
  }

  method Hex(bytes: seq<Octet>) returns (output: string)
    ensures output == HexText(bytes)
  {
    output := "";
    for i := 0 to |bytes|
      invariant output == HexText(bytes[..i])
    {
      assert bytes[..i + 1][..i] == bytes[..i];
      output := output + [LowerHex(bytes[i] / 16)];
      output := output + [LowerHex(bytes[i] % 16)];
    }
    assert bytes[..|bytes|] == bytes;
  }

  lemma LowerHexInjective(m: nat, n: nat)
    requires m < 16 && n < 16 && LowerHex(m) == LowerHex(n)
    ensures m == n
  {}

  lemma SameOctet(x: Octet, y: Octet)
    requires LowerHex(x / 16) == LowerHex(y / 16) && LowerHex(x % 16) == LowerHex(y % 16)
    ensures x == y
  {
    LowerHexInjective(x / 16, y / 16);
    LowerHexInjective(x % 16, y % 16);
  }

  lemma {:induction false} HexInjective(a: seq<Octet>, b: seq<Octet>)
    requires HexText(a) == HexText(b)
    ensures a == b
  {
    if a != [] && b != [] {
      HexLast(a, b);
      HexInjective(a[..|a| - 1], b[..|b| - 1]);
      SameBytes(a, b);
    }
  }

  lemma SameBytes(a: seq<Octet>, b: seq<Octet>)
    requires a != [] && b != [] && a[..|a| - 1] == b[..|b| - 1] && a[|a| - 1] == b[|b| - 1]
    ensures a == b
  {
    assert a == a[..|a| - 1] + [a[|a| - 1]];
  }

  lemma HexLast(a: seq<Octet>, b: seq<Octet>)
    requires a != [] && b != [] && HexText(a) == HexText(b)
    ensures HexText(a[..|a| - 1]) == HexText(b[..|b| - 1]) && a[|a| - 1] == b[|b| - 1]
  {
    HexEnds(a);
    HexEnds(b);
    SameOctet(a[|a| - 1], b[|b| - 1]);
  }

  lemma HexEnds(a: seq<Octet>)
    requires a != []
    ensures var s, m := HexText(a), |a| - 1;
      |s| >= 2 && s[..|s| - 2] == HexText(a[..m]) && s[|s| - 2] == LowerHex(a[m] / 16)
        && s[|s| - 1] == LowerHex(a[m] % 16)
  {}

  /** With a hash that has no collisions, equal fingerprints mean equal domain and equal input. */
  lemma FingerprintsIdentify(hash: string -> seq<Octet>, d: string, x: string, e: string, y: string)
    requires IsDomain(d) && IsDomain(e) && forall a, b :: hash(a) == hash(b) ==> a == b
    ensures HexText(hash(Preimage(d, x))) == HexText(hash(Preimage(e, y))) <==> d == e && x == y
  {
    if HexText(hash(Preimage(d, x))) == HexText(hash(Preimage(e, y))) {
      HexInjective(hash(Preimage(d, x)), hash(Preimage(e, y)));
      PreimagesSeparate(d, x, e, y);
    }
  }
}
