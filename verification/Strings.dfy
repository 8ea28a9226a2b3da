/** String facts the other modules share: the byte order Rust compares `str` values by
    (equal to the order of their scalar values), the ascending iteration of an ordered map,
    and unsigned decimal rendering. */
module Strings {

  /** Strict lexicographic order. */
  predicate Less(a: string, b: string) {
    b != [] && (a == [] || a[0] < b[0] || (a[0] == b[0] && Less(a[1..], b[1..])))
  }

  lemma LessIrreflexive(a: string)
    ensures !Less(a, a)
  {
    if a != [] { LessIrreflexive(a[1..]); }
  }

  lemma LessTotal(a: string, b: string)
    ensures a == b || Less(a, b) || Less(b, a)
  {
    if a != [] && b != [] && a[0] == b[0] {
      LessTotal(a[1..], b[1..]);
      assert a == [a[0]] + a[1..] && b == [b[0]] + b[1..];
    }
  }

  lemma LessTransitive(a: string, b: string, c: string)
    requires Less(a, b) && Less(b, c)
    ensures Less(a, c)
  {
    if a != [] && a[0] == b[0] == c[0] { LessTransitive(a[1..], b[1..], c[1..]); }
  }

  lemma LessAsymmetric(a: string, b: string)
    requires Less(a, b)
    ensures !Less(b, a)
  {
    if Less(b, a) { LessTransitive(a, b, a); LessIrreflexive(a); }
  }

  /** A common prefix never decides a comparison. */
  lemma {:induction false} LessAfterPrefix(p: string, a: string, b: string)
    ensures Less(p + a, p + b) == Less(a, b)
  {
    if p == [] {
      assert p + a == a && p + b == b;
    } else {
      assert (p + a)[1..] == p[1..] + a && (p + b)[1..] == p[1..] + b;
      LessAfterPrefix(p[1..], a, b);
    }
  }

  /** Two texts of one width that already differ are compared without looking past them. */
  lemma {:induction false} LessBeforeSuffix(a: string, b: string, s: string, t: string)
    requires |a| == |b| && Less(a, b)
    ensures Less(a + s, b + t)
  {
    if a[0] == b[0] {
      assert (a + s)[1..] == a[1..] + s && (b + t)[1..] == b[1..] + t;
      LessBeforeSuffix(a[1..], b[1..], s, t);
    }
  }

  ghost predicate Ascending(r: seq<string>) {
    forall i, j :: 0 <= i < j < |r| ==> Less(r[i], r[j])
  }

  predicate Least(s: set<string>, k: string) {
    k in s && forall x :: x in s && x != k ==> Less(k, x)
  }

  lemma LeastExists(s: set<string>)
    requires s != {}
    ensures exists k :: Least(s, k)
  {
    var k :| k in s;
    if s == {k} {
      assert Least(s, k);
    } else {
      LeastExists(s - {k});
      var l :| Least(s - {k}, l);
      LessTotal(k, l);
      if Less(k, l) {
        forall x | x in s && x != k ensures Less(k, x) {
          if x != l { LessTransitive(k, l, x); }
        }
        assert Least(s, k);
      } else {
        assert Least(s, l);
      }
    }
  }

  lemma LeastUnique(s: set<string>)
    ensures forall k, l :: Least(s, k) && Least(s, l) ==> k == l
  {
    forall k, l | Least(s, k) && Least(s, l) && k != l ensures false {
      LessAsymmetric(k, l);
    }
  }

  /** The keys of a `BTreeMap` in iteration order. */
  function SortedKeys(s: set<string>): (r: seq<string>)
    ensures |r| == |s| && forall x :: x in r <==> x in s
    ensures Ascending(r)
  {
    if s == {} then [] else
      LeastExists(s);
      LeastUnique(s);
      var k :| Least(s, k);
      [k] + SortedKeys(s - {k})
  }

  /** Text before the first `sep` is determined by the whole. */
  lemma {:induction false} CutAtFirst(a: string, r: string, b: string, s: string, sep: char)
    requires sep !in a && sep !in b && a + [sep] + r == b + [sep] + s
    ensures a == b && r == s
  {
    var x, y := a + [sep] + r, b + [sep] + s;
    assert x[|a|] == sep && y[|b|] == sep;
    assert forall i :: 0 <= i < |a| ==> x[i] == a[i];
    assert forall i :: 0 <= i < |b| ==> y[i] == b[i];
    assert |a| == |b|;
    assert x[..|a|] == a && y[..|b|] == b && x[|a| + 1..] == r && y[|b| + 1..] == s;
  }

  // ---- searching ----

  predicate OccursAt(text: string, part: string, i: int) {
    0 <= i <= |text| - |part| && text[i..i + |part|] == part
  }

  predicate Contains(text: string, part: string) {
    exists i | 0 <= i <= |text| :: OccursAt(text, part, i)
  }

  // ---- lists and sets ----

  lemma Associative<T>(a: seq<T>, b: seq<T>, c: seq<T>)
    ensures a + b + c == a + (b + c)
  {}


  ghost predicate Distinct(keys: seq<string>) {
    forall i, j :: 0 <= i < j < |keys| ==> keys[i] != keys[j]
  }

  lemma SortedDistinct(s: set<string>)
    ensures Distinct(SortedKeys(s))
  {
    var r := SortedKeys(s);
    forall i, j | 0 <= i < j < |r| ensures r[i] != r[j] { LessIrreflexive(r[i]); }
  }

  lemma SubsetSize(a: set<string>, b: set<string>)
    requires a <= b
    ensures |a| <= |b| && (|a| == |b| ==> a == b)
  {
    assert b == a + (b - a) && |b| == |a| + |b - a|;
  }

  // ---- white space ----

  predicate WhiteSpace(c: char) {
    var n := c as int;
    9 <= n <= 13 || n in {0x20, 0x85, 0xA0, 0x1680, 0x2028, 0x2029, 0x202F, 0x205F, 0x3000} || 0x2000 <= n <= 0x200A
  }

  predicate Blank(s: string) {
    forall i :: 0 <= i < |s| ==> WhiteSpace(s[i])
  }

  /** `str::trim`. */
  function Trim(s: string): (t: string)
    ensures t == [] <==> Blank(s)
    decreases |s|
  {
    if s == [] then []
    else if WhiteSpace(s[0]) then Trim(s[1..])
    else if WhiteSpace(s[|s| - 1]) then Trim(s[..|s| - 1])
    else s
  }

  /** Text that is its own trimming and not blank. */
  predicate Solid(s: string) {
    s != [] && !WhiteSpace(s[0]) && !WhiteSpace(s[|s| - 1])
  }

  lemma {:induction false} TrimSolid(s: string)
    ensures Trim(s) == [] || Solid(Trim(s))
    ensures Solid(s) ==> Trim(s) == s
    decreases |s|
  {
    if s != [] {
      if WhiteSpace(s[0]) { TrimSolid(s[1..]); }
      else if WhiteSpace(s[|s| - 1]) { TrimSolid(s[..|s| - 1]); }
    }
  }

  // ---- ASCII case ----

  function LowerChar(c: char): char {
    if 'A' <= c <= 'Z' then c - 'A' + 'a' else c
  }

  // ---- hexadecimal ----

  /** `is_ascii_hexdigit`. */
  predicate IsHexDigit(c: char) {
    '0' <= c <= '9' || 'a' <= c <= 'f' || 'A' <= c <= 'F'
  }

  function LowerHex(n: nat): char
    requires n < 16
  {
    if n < 10 then '0' + n as char else 'a' + (n - 10) as char
  }

  // ---- decimal ----

  function Pow10(k: nat): (p: nat)
    ensures p > 0
  {
    if k == 0 then 1 else 10 * Pow10(k - 1)
  }

  function Digit(n: nat): (c: char)
    requires n < 10
    ensures '0' <= c <= '9'
  {
    '0' + n as char
  }

  function Decimal(n: nat): (s: string)
    ensures s != []
  {
    if n < 10 then [Digit(n)] else Decimal(n / 10) + [Digit(n % 10)]
  }

  function FromDigit(c: char): int {
    c as int - '0' as int
  }

  function FromDecimal(s: string): int {
    if s == [] then 0 else 10 * FromDecimal(s[..|s| - 1]) + FromDigit(s[|s| - 1])
  }

  lemma {:induction false} DecimalRoundTrip(n: nat)
    ensures FromDecimal(Decimal(n)) == n
  {
    if n >= 10 {
      var s := Decimal(n);
      assert s[..|s| - 1] == Decimal(n / 10);
      DecimalRoundTrip(n / 10);
    } else {
      assert Decimal(n)[..0] == [];
    }
  }

  /** Decimal text contains digits only. */
  lemma {:induction false} DecimalDigits(n: nat)
    ensures forall c :: c in Decimal(n) ==> '0' <= c <= '9'
  {
    if n >= 10 { DecimalDigits(n / 10); }
  }
}
