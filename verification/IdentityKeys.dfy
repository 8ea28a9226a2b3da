/** When the canonical key of a resource identity tells identities apart. */
module IdentityKeys {
  import opened Options
  import opened Strings
  import opened Resources

  /** A dimension as the key sees it: absent and blank are the same. */
  function Dimension(value: Option<string>): string {
    if value.Some? then Trim(value.value) else ""
  }

  lemma PartIs(name: string, value: Option<string>)
    ensures Part(name, value) == if Dimension(value) == "" then [] else [name + "=" + Dimension(value)]
  {}

  ghost predicate SameDimensions(i: Identity, j: Identity) {
    && Dimension(i.provider) == Dimension(j.provider) && Dimension(i.model) == Dimension(j.model)
    && Dimension(i.account) == Dimension(j.account) && Dimension(i.protocol) == Dimension(j.protocol)
  }

  lemma EqualParts(i: Identity, j: Identity)
    ensures SameDimensions(i, j) ==> CanonicalKey(i) == CanonicalKey(j)
  {
    PartIs("provider", i.provider);
    PartIs("model", i.model);
    PartIs("account", i.account);
    PartIs("protocol", i.protocol);
  }

  // ---- the key, dimension by dimension ----

  /** The dimensions in the order of the key. */
  function NameOf(d: nat): string
    requires d < 4
  {
    if d == 0 then "provider" else if d == 1 then "model" else if d == 2 then "account" else "protocol"
  }

  function At(i: Identity, d: nat): string
    requires d < 4
  {
    Dimension(if d == 0 then i.provider else if d == 1 then i.model else if d == 2 then i.account else i.protocol)
  }

  function With(i: Identity, d: nat, value: string): Identity
    requires d < 4
  {
    if d == 0 then i.(provider := Some(value))
    else if d == 1 then i.(model := Some(value))
    else if d == 2 then i.(account := Some(value))
    else i.(protocol := Some(value))
  }

  const NOBODY := Identity(None, None, None, None)

  function PartsFrom(i: Identity, d: nat): seq<string>
    requires d <= 4
    decreases 4 - d
  {
    if d == 4 then []
    else (if At(i, d) == "" then [] else [NameOf(d) + "=" + At(i, d)]) + PartsFrom(i, d + 1)
  }

  lemma PartsAreFrom(i: Identity)
    ensures Parts(i) == PartsFrom(i, 0)
  {
    PartIs("provider", i.provider);
    PartIs("model", i.model);
    PartIs("account", i.account);
    PartIs("protocol", i.protocol);
    assert PartsFrom(i, 4) == [];
    assert PartsFrom(i, 3) == Part("protocol", i.protocol) + PartsFrom(i, 4) == Part("protocol", i.protocol);
    assert PartsFrom(i, 2) == Part("account", i.account) + PartsFrom(i, 3);
    assert PartsFrom(i, 1) == Part("model", i.model) + PartsFrom(i, 2);
  }

  lemma SameAt(i: Identity, j: Identity)
    ensures SameDimensions(i, j) <==> forall d: nat :: d < 4 ==> At(i, d) == At(j, d)
  {
    assert At(i, 0) == At(j, 0) <==> Dimension(i.provider) == Dimension(j.provider);
    assert At(i, 1) == At(j, 1) <==> Dimension(i.model) == Dimension(j.model);
    assert At(i, 2) == At(j, 2) <==> Dimension(i.account) == Dimension(j.account);
    assert At(i, 3) == At(j, 3) <==> Dimension(i.protocol) == Dimension(j.protocol);
  }

  lemma AtWith(d: nat, value: string, e: nat)
    requires d < 4 && e < 4 && Solid(value)
    ensures At(With(NOBODY, d, value), e) == if e == d then value else ""
  {
    TrimSolid(value);
  }

  lemma AtWithTwo(d: nat, head: string, n: nat, tail: string, e: nat)
    requires d < n < 4 && e < 4 && Solid(head) && Solid(tail)
    ensures At(With(With(NOBODY, d, head), n, tail), e) == if e == d then head else if e == n then tail else ""
  {
    TrimSolid(head);
    TrimSolid(tail);
  }

  lemma AtSolid(i: Identity, d: nat)
    requires d < 4
    ensures At(i, d) == "" || Solid(At(i, d))
  {
    var value := if d == 0 then i.provider else if d == 1 then i.model else if d == 2 then i.account else i.protocol;
    if value.Some? { TrimSolid(value.value); }
  }

  /** The first known dimension from `d` on; 4 when there is none. */
  function FirstKnown(i: Identity, d: nat): (f: nat)
    requires d <= 4
    ensures d <= f <= 4 && (f < 4 ==> At(i, f) != "") && forall e: nat :: d <= e < f ==> At(i, e) == ""
    decreases 4 - d
  {
    if d == 4 || At(i, d) != "" then d else FirstKnown(i, d + 1)
  }

  lemma {:induction false} PartsAtFirst(i: Identity, d: nat)
    requires d <= 4
    ensures var f := FirstKnown(i, d);
      PartsFrom(i, d) == if f == 4 then [] else [NameOf(f) + "=" + At(i, f)] + PartsFrom(i, f + 1)
    decreases 4 - d
  {
    if d < 4 && At(i, d) == "" {
      PartsAtFirst(i, d + 1);
      assert [] + PartsFrom(i, d + 1) == PartsFrom(i, d + 1);
    }
  }

  /** What a key says behind the name of its first dimension. */
  function Tail(i: Identity, f: nat): string
    requires f < 4
  {
    if PartsFrom(i, f + 1) == [] then At(i, f) else At(i, f) + "|" + Join(PartsFrom(i, f + 1))
  }

  lemma {:induction false} JoinFrom(i: Identity, d: nat)
    requires d <= 4
    ensures var f := FirstKnown(i, d);
      Join(PartsFrom(i, d)) == if f == 4 then "" else NameOf(f) + "=" + Tail(i, f)
  {
    PartsAtFirst(i, d);
    var f := FirstKnown(i, d);
    if f < 4 { JoinHead(NameOf(f) + "=", At(i, f), PartsFrom(i, f + 1)); }
  }

  lemma JoinHead(name: string, value: string, rest: seq<string>)
    ensures Join([name + value] + rest) == name + if rest == [] then value else value + "|" + Join(rest)
  {
    var parts := [name + value] + rest;
    assert parts[1..] == rest;
    if rest != [] {
      Associative(name, value, "|");
      Associative(name, value + "|", Join(rest));
    }
  }

  lemma {:induction false} TailSolid(i: Identity, f: nat)
    requires f < 4 && At(i, f) != ""
    ensures Solid(Tail(i, f))
    decreases 4 - f
  {
    AtSolid(i, f);
    PartsAtFirst(i, f + 1);
    JoinFrom(i, f + 1);
    var n := FirstKnown(i, f + 1);
    if n < 4 {
      TailSolid(i, n);
      EndsSolid(At(i, f), NameOf(n) + "=", Tail(i, n));
    }
  }

  lemma EndsSolid(front: string, middle: string, back: string)
    requires Solid(back) && front != "" && !WhiteSpace(front[0])
    ensures Solid(front + "|" + (middle + back))
  {
    var s := front + "|" + (middle + back);
    assert s[0] == front[0] && s[|s| - 1] == back[|back| - 1];
  }

  lemma NamesCut(d: nat, x: string, e: nat, y: string)
    requires d < 4 && e < 4 && NameOf(d) + "=" + x == NameOf(e) + "=" + y
    ensures d == e && x == y
  {
    CutAtFirst(NameOf(d), x, NameOf(e), y, '=');
  }

  lemma KeyIsJoin(i: Identity)
    ensures var f := FirstKnown(i, 0); CanonicalKey(i) == if f == 4 then "" else NameOf(f) + "=" + Tail(i, f)
  {
    PartsAreFrom(i);
    JoinFrom(i, 0);
  }

  // ---- when the key tells identities apart ----

  /** What separates a value from the value of dimension `n`. */
  function Mark(n: nat): string
    requires n < 4
  {
    "|" + (NameOf(n) + "=")
  }

  /** No value contains what separates it from a later dimension. */
  ghost predicate Clear(i: Identity) {
    forall d: nat, n: nat :: d < n < 4 ==> !Contains(At(i, d), Mark(n))
  }

  /** What follows the value of dimension `f`. */
  function More(i: Identity, f: nat): string
    requires f < 4
  {
    var n := FirstKnown(i, f + 1);
    if n == 4 then "" else Mark(n) + Tail(i, n)
  }

  lemma TailIs(i: Identity, f: nat)
    requires f < 4
    ensures Tail(i, f) == At(i, f) + More(i, f)
  {
    PartsAtFirst(i, f + 1);
    JoinFrom(i, f + 1);
    var n := FirstKnown(i, f + 1);
    if n < 4 {
      Associative("|", NameOf(n) + "=", Tail(i, n));
      Associative(At(i, f), "|", NameOf(n) + "=" + Tail(i, n));
    } else {
      assert At(i, f) + "" == At(i, f);
    }
  }

  lemma MarkOneBar(n: nat, k: nat)
    requires n < 4 && 0 < k < |Mark(n)|
    ensures Mark(n)[k] != '|'
  {}

  /** A value that does not contain the separator behind a shorter one cannot go on into it. */
  lemma {:induction false} NotShorter(a: string, n: nat, t: string, b: string, y: string)
    requires n < 4 && a + (Mark(n) + t) == b + y && !Contains(b, Mark(n))
    requires y == "" || y[0] == '|'
    ensures |a| >= |b|
  {
    var s, mark := b + y, Mark(n);
    if |a| < |b| {
      assert s[|a|..|a| + |mark|] == mark by { assert s[|a|..] == mark + t; }
      if |a| + |mark| <= |b| {
        assert b[|a|..|a| + |mark|] == s[|a|..|a| + |mark|];
        assert OccursAt(b, mark, |a|);
      } else {
        assert s[|b|] == s[|a|..|a| + |mark|][|b| - |a|];
        MarkOneBar(n, |b| - |a|);
      }
    }
  }

  lemma HeadNotShorter(i: Identity, j: Identity, f: nat)
    requires f < 4 && Clear(j) && Tail(i, f) == Tail(j, f)
    ensures |At(i, f)| >= |At(j, f)|
  {
    TailIs(i, f);
    TailIs(j, f);
    var n := FirstKnown(i, f + 1);
    if n < 4 { NotShorter(At(i, f), n, Tail(i, n), At(j, f), More(j, f)); }
  }

  lemma SplitAlike(a: string, x: string, b: string, y: string)
    requires a + x == b + y && |a| == |b|
    ensures a == b && x == y
  {
    assert (a + x)[..|a|] == a && (b + y)[..|b|] == b && (a + x)[|a|..] == x && (b + y)[|b|..] == y;
  }

  lemma TailStep(i: Identity, j: Identity, f: nat)
    requires f < 4 && Clear(i) && Clear(j) && Tail(i, f) == Tail(j, f)
    ensures At(i, f) == At(j, f) && FirstKnown(i, f + 1) == FirstKnown(j, f + 1)
    ensures var n := FirstKnown(i, f + 1); n < 4 ==> Tail(i, n) == Tail(j, n)
  {
    TailIs(i, f);
    TailIs(j, f);
    HeadNotShorter(i, j, f);
    HeadNotShorter(j, i, f);
    SplitAlike(At(i, f), More(i, f), At(j, f), More(j, f));
    var n, m := FirstKnown(i, f + 1), FirstKnown(j, f + 1);
    if n < 4 && m < 4 { MarksCut(n, Tail(i, n), m, Tail(j, m)); }
  }

  lemma {:induction false} TailIdentifies(i: Identity, j: Identity, f: nat)
    requires f < 4 && Clear(i) && Clear(j) && Tail(i, f) == Tail(j, f)
    ensures forall e: nat :: f <= e < 4 ==> At(i, e) == At(j, e)
    decreases 4 - f
  {
    TailStep(i, j, f);
    var n := FirstKnown(i, f + 1);
    if n < 4 { TailIdentifies(i, j, n); }
  }

  lemma MarksCut(n: nat, x: string, m: nat, y: string)
    requires n < 4 && m < 4 && Mark(n) + x == Mark(m) + y
    ensures n == m && x == y
  {
    assert (Mark(n) + x)[1..] == NameOf(n) + "=" + x && (Mark(m) + y)[1..] == NameOf(m) + "=" + y;
    NamesCut(n, x, m, y);
  }

  /** Between identities none of whose values contains what introduces a later dimension, bars or not,
      the key identifies the known dimensions. */
  lemma {:induction false} KeyIdentifies(i: Identity, j: Identity)
    requires Clear(i) && Clear(j)
    ensures CanonicalKey(i) == CanonicalKey(j) <==> SameDimensions(i, j)
  {
    EqualParts(i, j);
    if CanonicalKey(i) == CanonicalKey(j) {
      KeyIsJoin(i);
      KeyIsJoin(j);
      var d, e := FirstKnown(i, 0), FirstKnown(j, 0);
      SameAt(i, j);
      if d < 4 && e < 4 {
        NamesCut(d, Tail(i, d), e, Tail(j, e));
        TailIdentifies(i, j, d);
      }
    }
  }

  // ---- exactly which identities share their key ----

  /** Some other identity has the same key. */
  ghost predicate Shares(i: Identity) {
    exists j :: CanonicalKey(i) == CanonicalKey(j) && !SameDimensions(i, j)
  }

  /** The value of dimension `d` can be read as a shorter value and a later dimension. */
  ghost predicate ReadsAsTwo(value: string, d: nat, n: nat, head: string, tail: string) {
    d < n < 4 && Solid(head) && Solid(tail) && value == head + "|" + (NameOf(n) + "=" + tail)
  }

  /** The only known value has a bar in it that starts a later dimension. */
  ghost predicate Ambiguous(i: Identity) {
    var d := FirstKnown(i, 0);
    d < 4 && exists n, head, tail :: ReadsAsTwo(At(i, d), d, n, head, tail)
  }

  lemma OneKey(d: nat, value: string)
    requires d < 4 && Solid(value)
    ensures CanonicalKey(With(NOBODY, d, value)) == NameOf(d) + "=" + value
  {
    var j := With(NOBODY, d, value);
    forall e: nat | e < 4 ensures At(j, e) == if e == d then value else "" { AtWith(d, value, e); }
    KeyIsJoin(j);
    assert FirstKnown(j, 0) == d;
    PartsAtFirst(j, d + 1);
    assert FirstKnown(j, d + 1) == 4;
  }

  lemma TwoKey(d: nat, head: string, n: nat, tail: string)
    requires d < n < 4 && Solid(head) && Solid(tail)
    ensures CanonicalKey(With(With(NOBODY, d, head), n, tail)) ==
      NameOf(d) + "=" + (head + "|" + (NameOf(n) + "=" + tail))
  {
    var j := With(With(NOBODY, d, head), n, tail);
    forall e: nat | e < 4 ensures At(j, e) == if e == d then head else if e == n then tail else "" {
      AtWithTwo(d, head, n, tail, e);
    }
    assert FirstKnown(j, 0) == d && FirstKnown(j, d + 1) == n && FirstKnown(j, n + 1) == 4;
    KeyIsJoin(j);
    TwoTail(j, d, n);
  }

  lemma TwoTail(j: Identity, d: nat, n: nat)
    requires d < n < 4 && FirstKnown(j, d + 1) == n && FirstKnown(j, n + 1) == 4
    ensures Tail(j, d) == At(j, d) + "|" + (NameOf(n) + "=" + At(j, n))
  {
    PartsAtFirst(j, d + 1);
    JoinFrom(j, d + 1);
    PartsAtFirst(j, n + 1);
  }

  /** Otherwise it need not: a model name can spell an account, so two identities that differ in
      the account dimension share one key, hence one resource id. */
  lemma KeysCollide() returns (i: Identity, j: Identity)
    ensures Dimension(i.account) != Dimension(j.account)
    ensures CanonicalKey(i) == CanonicalKey(j)
  {
    BarredModel();
    i := With(NOBODY, 1, "m|account=a");
    j := With(With(NOBODY, 1, "m"), 2, "a");
    OneKey(1, "m|account=a");
    TwoKey(1, "m", 2, "a");
    AtWith(1, "m|account=a", 2);
    AtWithTwo(1, "m", 2, "a", 2);
  }

  lemma BarredModel()
    ensures "m" + "|" + (NameOf(2) + "=" + "a") == "m|account=a" && Solid("m|account=a")
  {}

  lemma KnownCount(i: Identity)
    ensures var f := FirstKnown(i, 0);
      |Parts(i)| >= 2 <==> f < 4 && FirstKnown(i, f + 1) < 4
    ensures |Parts(i)| == 0 <==> FirstKnown(i, 0) == 4
  {
    PartsAreFrom(i);
    PartsSize(i, 0);
    var f := FirstKnown(i, 0);
    if f < 4 { PartsSize(i, f + 1); }
  }

  lemma PartsSize(i: Identity, d: nat)
    requires d <= 4
    ensures var f := FirstKnown(i, d); |PartsFrom(i, d)| == if f == 4 then 0 else 1 + |PartsFrom(i, f + 1)|
  {
    PartsAtFirst(i, d);
  }

  /** An identity with two known dimensions shares its key with the one that has the whole rest of
      the key as its first value. */
  lemma ManyShare(i: Identity)
    requires |Parts(i)| >= 2
    ensures Shares(i)
  {
    KnownCount(i);
    KeyIsJoin(i);
    var f := FirstKnown(i, 0);
    var n := FirstKnown(i, f + 1);
    TailSolid(i, f);
    OneKey(f, Tail(i, f));
    var j := With(NOBODY, f, Tail(i, f));
    AtWith(f, Tail(i, f), n);
    SameAt(i, j);
    assert At(i, n) != At(j, n);
  }

  lemma AmbiguousShares(i: Identity)
    requires |Parts(i)| == 1 && Ambiguous(i)
    ensures Shares(i)
  {
    KnownCount(i);
    KeyIsJoin(i);
    var d := FirstKnown(i, 0);
    var n, head, tail :| ReadsAsTwo(At(i, d), d, n, head, tail);
    PartsAtFirst(i, d + 1);
    TwoKey(d, head, n, tail);
    var j := With(With(NOBODY, d, head), n, tail);
    AtWithTwo(d, head, n, tail, n);
    SameAt(i, j);
    assert At(i, n) != At(j, n);
  }

  lemma SharedIsAmbiguous(i: Identity, j: Identity)
    requires |Parts(i)| <= 1 && CanonicalKey(i) == CanonicalKey(j) && !SameDimensions(i, j)
    ensures |Parts(i)| == 1 && Ambiguous(i)
  {
    KnownCount(i);
    KnownCount(j);
    KeyIsJoin(i);
    KeyIsJoin(j);
    var d, e := FirstKnown(i, 0), FirstKnown(j, 0);
    SameAt(i, j);
    assert d == 4 <==> e == 4;
    if d < 4 {
      NamesCut(d, Tail(i, d), e, Tail(j, e));
      PartsAtFirst(i, d + 1);
      PartsAtFirst(j, d + 1);
      JoinFrom(j, d + 1);
      var n := FirstKnown(j, d + 1);
      if n < 4 {
        AtSolid(j, d);
        TailSolid(j, n);
        assert ReadsAsTwo(At(i, d), d, n, At(j, d), Tail(j, n));
      }
    }
  }

  /** An identity shares its key with a different one if and only if it knows two dimensions, or the
      one it knows can be read as two. */
  lemma SharesIff(i: Identity)
    ensures Shares(i) <==> |Parts(i)| >= 2 || (|Parts(i)| == 1 && Ambiguous(i))
  {
    if |Parts(i)| >= 2 { ManyShare(i); }
    if |Parts(i)| == 1 && Ambiguous(i) { AmbiguousShares(i); }
    if |Parts(i)| <= 1 && Shares(i) {
      var j :| CanonicalKey(i) == CanonicalKey(j) && !SameDimensions(i, j);
      SharedIsAmbiguous(i, j);
    }
  }
}
