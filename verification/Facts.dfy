/** Provenance-ranked facts of `src/resources.rs` and their merge. */
module Facts {
  import opened Options

  datatype Provenance = StaticConfig | ProviderReported | Observed | Estimated | Unknown

  function Rank(p: Provenance): nat {
    match p
    case StaticConfig => 5
    case ProviderReported => 4
    case Observed => 4
    case Estimated => 2
    case Unknown => 1
  }

  const I64_MIN: int := -0x8000_0000_0000_0000
  const I64_MAX: int := 0x7FFF_FFFF_FFFF_FFFF

  type Time = t: int | I64_MIN <= t <= I64_MAX

  datatype Fact<T> = Fact(value: Option<T>, provenance: Provenance, observedAt: Option<Time>)

  function Nothing<T>(): Fact<T> {
    Fact(None, Unknown, None)
  }

  function At<T>(f: Fact<T>): Time {
    if f.observedAt.Some? then f.observedAt.value else I64_MIN
  }

  /** `f` does not take precedence over a later `g`: a weaker source, or the same strength no newer. */
  predicate YieldsTo<T>(f: Fact<T>, g: Fact<T>) {
    Rank(f.provenance) < Rank(g.provenance) || (Rank(f.provenance) == Rank(g.provenance) && At(f) <= At(g))
  }

  predicate SameKey<T>(f: Fact<T>, g: Fact<T>) {
    Rank(f.provenance) == Rank(g.provenance) && At(f) == At(g)
  }

  /** `merge_preferred`. */
  function Merge<T>(f: Fact<T>, incoming: Fact<T>): Fact<T> {
    if incoming.value.None? then f
    else if f.value.None? || YieldsTo(f, incoming) then incoming
    else f
  }

  lemma MergeAssociative<T>(f: Fact<T>, g: Fact<T>, h: Fact<T>)
    ensures Merge(Merge(f, g), h) == Merge(f, Merge(g, h))
  {}

  /** The sources by strength, the weakest first. */
  const STRENGTHS: seq<set<Provenance>> := [{Unknown}, {Estimated}, {ProviderReported, Observed}, {StaticConfig}]

  /** Of two known facts the later one wins if and only if its source is stronger, or as strong and the
      fact no older, an undated one being older than all. */
  lemma LaterWinsIff<T>(f: Fact<T>, g: Fact<T>, i: nat, j: nat)
    requires f.value.Some? && g.value.Some? && f != g
    requires i < 4 && j < 4 && f.provenance in STRENGTHS[i] && g.provenance in STRENGTHS[j]
    ensures Merge(f, g) == g <==>
      i < j || (i == j && (f.observedAt.None? || f.observedAt == Some(I64_MIN)
                            || (g.observedAt.Some? && f.observedAt.value <= g.observedAt.value)))
  {}

  /** The unknown fact is neutral on the right of everything; on the left, of everything but
      valueless facts that still carry some evidence. */
  lemma NothingIsUnit<T>(f: Fact<T>)
    ensures Merge(f, Nothing()) == f
    ensures Merge(Nothing(), f) == f <==> f.value.Some? || f == Nothing()
  {}

  function Fold<T>(f: Fact<T>, history: seq<Fact<T>>): Fact<T> {
    if history == [] then f else Merge(Fold(f, history[..|history| - 1]), history[|history| - 1])
  }

  /** The last of the known facts that are maximal in (rank, time). */
  ghost predicate Winner<T>(history: seq<Fact<T>>, i: int) {
    && 0 <= i < |history| && history[i].value.Some?
    && (forall j :: 0 <= j < i && history[j].value.Some? ==> YieldsTo(history[j], history[i]))
    && (forall j :: i < j < |history| && history[j].value.Some? ==> !YieldsTo(history[i], history[j]))
  }

  predicate Known<T>(history: seq<Fact<T>>) {
    exists i | 0 <= i < |history| :: history[i].value.Some?
  }

  /** A fold never loses a known value, and what it keeps is the last maximal fact. */
  lemma {:induction false} FoldIsWinner<T>(history: seq<Fact<T>>) returns (i: int)
    ensures Known(history) ==> Winner(history, i) && Fold(Nothing(), history) == history[i]
    ensures !Known(history) ==> Fold(Nothing(), history) == Nothing()
  {
    i := -1;
    if history != [] {
      var n := |history| - 1;
      var before := history[..n];
      i := FoldIsWinner(before);
      assert forall j :: 0 <= j < n ==> before[j] == history[j];
      if history[n].value.Some? {
        if !Known(before) {
          assert forall j :: 0 <= j < n ==> before[j].value.None?;
          i := n;
        } else if YieldsTo(before[i], history[n]) {
          i := n;
        }
      } else if Known(before) {
        assert history[i].value.Some?;
      }
    }
  }

  lemma {:induction false} FoldConcat<T>(a: seq<Fact<T>>, b: seq<Fact<T>>)
    ensures Fold(Nothing(), a + b) == Merge(Fold(Nothing(), a), Fold(Nothing(), b))
  {
    if b == [] {
      assert a + b == a;
    } else {
      var n := |b| - 1;
      assert (a + b)[..|a + b| - 1] == a + b[..n];
      FoldConcat(a, b[..n]);
      MergeAssociative(Fold(Nothing(), a), Fold(Nothing(), b[..n]), b[n]);
    }
  }

  lemma FoldGenuine<T>(history: seq<Fact<T>>)
    ensures Fold(Nothing(), history).value.Some? || Fold(Nothing(), history) == Nothing()
  {
    var i := FoldIsWinner(history);
  }

  /** Leaving out a beginning changes nothing if and only if nothing known is in it, or what follows
      has something at least as strong and no older. */
  lemma {:induction false} FoldForgetsIff<T>(a: seq<Fact<T>>, b: seq<Fact<T>>)
    ensures var lost, kept := Fold(Nothing(), a), Fold(Nothing(), b);
      Fold(Nothing(), b) == Fold(Nothing(), a + b) <==>
      lost.value.None? || (kept.value.Some? && YieldsTo(lost, kept))
  {
    FoldConcat(a, b);
    FoldGenuine(a);
    FoldGenuine(b);
  }

  ghost predicate DistinctKeys<T>(history: seq<Fact<T>>) {
    forall i, j :: 0 <= i < j < |history| && history[i].value.Some? && history[j].value.Some? ==>
      !SameKey(history[i], history[j])
  }

  /** Where no two known facts have the same (rank, time), arrival order is immaterial. */
  lemma {:induction false} FoldPermutes<T>(a: seq<Fact<T>>, b: seq<Fact<T>>)
    requires multiset(a) == multiset(b) && DistinctKeys(a) && DistinctKeys(b)
    ensures Fold(Nothing(), a) == Fold(Nothing(), b)
  {
    var i := FoldIsWinner(a);
    var j := FoldIsWinner(b);
    assert forall f :: f in a <==> f in multiset(a);
    assert forall f :: f in b <==> f in multiset(b);
    if Known(a) {
      assert a[i] in b;
      var k :| 0 <= k < |b| && b[k] == a[i];
      assert b[j] in a;
      var l :| 0 <= l < |a| && a[l] == b[j];
      Strongest(a, i, l);
      Strongest(b, j, k);
    }
    KnownPermutes(b, a);
  }

  lemma KnownPermutes<T>(a: seq<Fact<T>>, b: seq<Fact<T>>)
    requires multiset(a) == multiset(b)
    ensures Known(a) ==> Known(b)
  {
    if i :| 0 <= i < |a| && a[i].value.Some? {
      assert a[i] in multiset(a);
      assert a[i] in b;
    }
  }

  lemma Strongest<T>(history: seq<Fact<T>>, i: int, l: int)
    requires Winner(history, i) && 0 <= l < |history| && history[l].value.Some?
    ensures YieldsTo(history[l], history[i])
    ensures DistinctKeys(history) && SameKey(history[l], history[i]) ==> i == l
  {}
}
