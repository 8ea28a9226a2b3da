/** Keys and names made at set-up (`src/setup.rs`) and the percent-decoder of
    `src/control_server.rs`. Model ids are their UTF-8 bytes, one byte to a `char`; provider names
    are characters. */
module Setup {
  import opened Options
  import opened Strings
  import opened Profiles

  // ---- percent encoding ----

  predicate Octets(s: string) {
    forall i :: 0 <= i < |s| ==> s[i] as int < 256
  }

  predicate Plain(c: char) {
    'a' <= c <= 'z' || 'A' <= c <= 'Z' || '0' <= c <= '9' || c == '-' || c == '_' || c == '.' || c == ':'
  }

  function UpperHex(n: int): (c: char)
    requires 0 <= n < 16
    ensures Plain(c) && c != ':'
  {
    if n < 10 then '0' + n as char else 'A' + (n - 10) as char
  }

  /** `char::to_digit(16)`. */
  function ToDigit(c: char): Option<int> {
    if '0' <= c <= '9' then Some(c as int - '0' as int)
    else if 'a' <= c <= 'f' then Some(c as int - 'a' as int + 10)
    else if 'A' <= c <= 'F' then Some(c as int - 'A' as int + 10)
    else None
  }

  function EncodeByte(c: char): (s: string)
    requires c as int < 256
    ensures |s| == if Plain(c) then 1 else 3
  {
    if Plain(c) then [c] else ['%', UpperHex(c as int / 16), UpperHex(c as int % 16)]
  }

  function Encode(s: string): string
    requires Octets(s)
  {
    if s == "" then "" else EncodeByte(s[0]) + Encode(s[1..])
  }

  function ModelKey(provider: string, id: string): string
    requires Octets(id)
  {
    provider + [':'] + Encode(id)
  }

  /** An escape at the head of `s`. */
  function Escape(s: string): Option<char> {
    if |s| >= 3 && s[0] == '%' && ToDigit(s[1]).Some? && ToDigit(s[2]).Some?
    then Some((ToDigit(s[1]).value * 16 + ToDigit(s[2]).value) as char)
    else None
  }

  function Decode(s: string): string {
    if s == "" then ""
    else if Escape(s).Some? then [Escape(s).value] + Decode(s[3..])
    else [s[0]] + Decode(s[1..])
  }

  /** `percent_decode`, up to the final conversion to text, which keeps valid UTF-8. */
  method PercentDecode(input: string) returns (out: string)
    ensures out == Decode(input)
  {
    out := "";
    var index := 0;
    while index < |input|
      invariant 0 <= index <= |input|
      invariant out + Decode(input[index..]) == Decode(input)
    {
      DecodeStep(out, input, index);
      if input[index] == '%' && index + 2 < |input| {
        var high, low := ToDigit(input[index + 1]), ToDigit(input[index + 2]);
        if high.Some? && low.Some? {
          out := out + [(high.value * 16 + low.value) as char];
          index := index + 3;
          continue;
        }
      }
      out := out + [input[index]];
      index := index + 1;
    }
    assert input[index..] == "" && out + "" == out;
  }

  lemma DecodeStep(out: string, input: string, index: nat)
    requires index < |input|
    ensures
      if index + 2 < |input| && input[index] == '%'
        && ToDigit(input[index + 1]).Some? && ToDigit(input[index + 2]).Some? then
        var c := (ToDigit(input[index + 1]).value * 16 + ToDigit(input[index + 2]).value) as char;
        out + Decode(input[index..]) == out + [c] + Decode(input[index + 3..])
      else out + Decode(input[index..]) == out + [input[index]] + Decode(input[index + 1..])
  {
    var s := input[index..];
    assert s[0] == input[index] && s[1..] == input[index + 1..];
    if |s| >= 3 { assert s[1] == input[index + 1] && s[2] == input[index + 2] && s[3..] == input[index + 3..]; }
    if Escape(s).Some? {
      assert out + ([Escape(s).value] + Decode(s[3..])) == out + [Escape(s).value] + Decode(s[3..]);
    } else {
      assert out + ([s[0]] + Decode(s[1..])) == out + [s[0]] + Decode(s[1..]);
    }
  }

  lemma DigitReturns(n: int)
    requires 0 <= n < 16
    ensures ToDigit(UpperHex(n)) == Some(n)
  {}

  /** Decoding an encoded id gives the id back, whatever follows it. */
  lemma {:induction false} DecodeEncode(s: string, rest: string)
    requires Octets(s)
    ensures Decode(Encode(s) + rest) == s + Decode(rest)
  {
    if s == "" {
      assert Encode(s) + rest == rest && s + Decode(rest) == Decode(rest);
    } else {
      DecodeEncode(s[1..], rest);
      EncodeSplits(s, rest);
      OneByte(s[0], Encode(s[1..]) + rest);
      Head(s, Decode(rest));
    }
  }

  lemma EncodeSplits(s: string, rest: string)
    requires Octets(s) && s != ""
    ensures Encode(s) + rest == EncodeByte(s[0]) + (Encode(s[1..]) + rest)
  {}

  lemma Head(s: string, rest: string)
    requires s != ""
    ensures [s[0]] + (s[1..] + rest) == s + rest
  {}

  lemma OneByte(c: char, rest: string)
    requires c as int < 256
    ensures Decode(EncodeByte(c) + rest) == [c] + Decode(rest)
  {
    var s := EncodeByte(c) + rest;
    if Plain(c) {
      assert s[0] == c && s[1..] == rest;
    } else {
      DigitReturns(c as int / 16);
      DigitReturns(c as int % 16);
      assert s[0] == '%' && s[1] == UpperHex(c as int / 16) && s[2] == UpperHex(c as int % 16) && s[3..] == rest;
    }
  }

  /** The suffix of a model key decodes to the upstream id. */
  lemma SuffixDecodes(provider: string, id: string)
    requires Octets(id)
    ensures Decode(ModelKey(provider, id)[|provider| + 1..]) == id
  {
    assert ModelKey(provider, id)[|provider| + 1..] == Encode(id);
    DecodeEncode(id, "");
    assert Encode(id) + "" == Encode(id) && id + "" == id;
  }

  /** Keys of colon-free providers are equal only for the same provider and id. */
  lemma ModelKeyInjective(p: string, u: string, q: string, v: string)
    requires Octets(u) && Octets(v) && ':' !in p && ':' !in q
    ensures ModelKey(p, u) == ModelKey(q, v) <==> p == q && u == v
  {
    if ModelKey(p, u) == ModelKey(q, v) {
      CutAtFirst(p, Encode(u), q, Encode(v), ':');
      SuffixDecodes(p, u);
      SuffixDecodes(q, v);
    }
  }

  // ---- exactly when two providers can collide ----

  lemma {:induction false} EncodeAppends(a: string, b: string)
    requires Octets(a) && Octets(b)
    ensures Octets(a + b) && Encode(a + b) == Encode(a) + Encode(b)
  {
    if a == "" {
      assert a + b == b && Encode(a) + Encode(b) == Encode(b);
    } else {
      assert (a + b)[0] == a[0] && (a + b)[1..] == a[1..] + b;
      EncodeAppends(a[1..], b);
      assert EncodeByte(a[0]) + (Encode(a[1..]) + Encode(b)) == EncodeByte(a[0]) + Encode(a[1..]) + Encode(b);
    }
  }

  /** A colon of an encoded id stands for a colon of the id. */
  lemma {:induction false} CutAtColon(v: string, w: string, rest: string) returns (a: string, b: string)
    requires Octets(v) && Encode(v) == w + [':'] + rest
    ensures Octets(a) && Octets(b) && v == a + [':'] + b && Encode(a) == w && Encode(b) == rest
    decreases |v|
  {
    var c := v[0];
    var e, r := EncodeByte(c), Encode(v[1..]);
    if w == "" {
      ColonFirst(c, r, rest);
      a, b := "", v[1..];
      assert v == a + [':'] + b;
    } else {
      ColonPast(c, r, w, rest);
      a, b := CutAtColon(v[1..], w[|e|..], rest);
      OneMore(c, a, b, v);
      FirstEncoded(c, a, w);
      a := [c] + a;
    }
  }

  lemma FirstEncoded(c: char, a: string, w: string)
    requires c as int < 256 && Octets(a)
    requires var e := EncodeByte(c); |w| >= |e| && w[..|e|] == e && Encode(a) == w[|e|..]
    ensures Octets([c] + a) && Encode([c] + a) == w
  {
    OneEncoded(c);
    EncodeAppends([c], a);
  }

  lemma OneMore(c: char, a: string, b: string, v: string)
    requires v != "" && v[0] == c && v[1..] == a + [':'] + b
    ensures v == [c] + a + [':'] + b
  {}

  lemma ColonFirst(c: char, r: string, rest: string)
    requires c as int < 256 && EncodeByte(c) + r == "" + [':'] + rest
    ensures c == ':' && r == rest
  {
    var x := EncodeByte(c) + r;
    assert x[0] == ':' && EncodeByte(c)[0] == x[0];
    assert x[1..] == rest;
    assert EncodeByte(c) == [':'] && x[1..] == r;
  }

  lemma OneEncoded(c: char)
    requires c as int < 256
    ensures Encode([c]) == EncodeByte(c)
  {
    assert [c][1..] == "";
    assert EncodeByte(c) + "" == EncodeByte(c);
  }

  /** A non-empty prefix that ends before a colon takes in the whole first byte. */
  lemma ColonPast(c: char, r: string, w: string, rest: string)
    requires c as int < 256 && w != "" && EncodeByte(c) + r == w + [':'] + rest
    ensures |w| >= |EncodeByte(c)| && w[..|EncodeByte(c)|] == EncodeByte(c) && r == w[|EncodeByte(c)|..] + [':'] + rest
  {
    var e := EncodeByte(c);
    var x := e + r;
    assert x[|w|] == ':';
    assert forall i :: 0 <= i < |e| ==> x[i] == e[i];
    assert x[..|e|] == e && x[|e|..] == r;
    assert w[..|e|] == x[..|e|];
    assert (w + [':'] + rest)[|e|..] == w[|e|..] + [':'] + rest;
  }

  ghost predicate Extends(p: string, q: string) {
    exists w :: Octets(w) && p == q + [':'] + Encode(w)
  }

  ghost predicate Collide(p: string, q: string) {
    exists u, v :: Octets(u) && Octets(v) && ModelKey(p, u) == ModelKey(q, v)
  }

  lemma ColonAppended(w: string)
    requires Octets(w)
    ensures Octets(w + [':']) && Encode(w + [':']) == Encode(w) + [':']
  {
    EncodeAppends(w, [':']);
    OneEncoded(':');
  }

  lemma ExtensionCollides(p: string, q: string)
    requires Extends(p, q)
    ensures Collide(p, q)
  {
    var w :| Octets(w) && p == q + [':'] + Encode(w);
    ColonAppended(w);
    assert ModelKey(p, "") == p + [':'];
    assert ModelKey(q, w + [':']) == q + [':'] + Encode(w) + [':'];
  }

  lemma CollisionExtends(p: string, u: string, q: string, v: string)
    requires Octets(u) && Octets(v) && ModelKey(p, u) == ModelKey(q, v) && |p| > |q|
    ensures Extends(p, q)
  {
    var x := ModelKey(p, u);
    assert x[..|p|] == p && x[..|q|] == q && x[|q|] == ':';
    var w := p[|q| + 1..];
    assert p == q + [':'] + w;
    assert x[|q| + 1..] == Encode(v) && x[|q| + 1..] == w + [':'] + Encode(u);
    var a, b := CutAtColon(v, w, Encode(u));
  }

  /** Two different provider keys can name the same model key exactly when one is the other, a
      colon, and an encoded text. */
  lemma CollideIff(p: string, q: string)
    requires p != q
    ensures Collide(p, q) <==> Extends(p, q) || Extends(q, p)
  {
    if u, v :| Octets(u) && Octets(v) && ModelKey(p, u) == ModelKey(q, v) {
      SameLength(p, u, q, v);
      if |p| > |q| { CollisionExtends(p, u, q, v); } else { CollisionExtends(q, v, p, u); }
    }
    if Extends(p, q) { ExtensionCollides(p, q); }
    if Extends(q, p) {
      ExtensionCollides(q, p);
      var u, v :| Octets(u) && Octets(v) && ModelKey(q, u) == ModelKey(p, v);
      assert ModelKey(p, v) == ModelKey(q, u);
    }
  }

  lemma SameLength(p: string, u: string, q: string, v: string)
    requires Octets(u) && Octets(v) && ModelKey(p, u) == ModelKey(q, v) && p != q
    ensures |p| != |q|
  {
    assert ModelKey(p, u)[..|p|] == p && ModelKey(q, v)[..|q|] == q;
  }

  // ---- provider keys ----

  function Folded(name: string, alphanumeric: char -> bool): (s: string)
    ensures |s| == |name|
  {
    seq(|name|, i requires 0 <= i < |name| => if alphanumeric(name[i]) then LowerChar(name[i]) else '_')
  }

  function TrimUnderscores(s: string): string
    decreases |s|
  {
    if s == "" then ""
    else if s[0] == '_' then TrimUnderscores(s[1..])
    else if s[|s| - 1] == '_' then TrimUnderscores(s[..|s| - 1])
    else s
  }

  function BaseKey(name: string, alphanumeric: char -> bool): string {
    var base := TrimUnderscores(Folded(name, alphanumeric));
    if base == "" then "provider" else base
  }

  lemma {:induction false} TrimmedParts(s: string) returns (i: nat, j: nat)
    ensures i <= j <= |s| && TrimUnderscores(s) == s[i..j]
    ensures forall k :: 0 <= k < i || j <= k < |s| ==> s[k] == '_'
    ensures i < j ==> s[i] != '_' && s[j - 1] != '_'
    decreases |s|
  {
    i, j := 0, |s|;
    if s != "" && s[0] == '_' {
      i, j := TrimmedParts(s[1..]);
      assert s[1..][i..j] == s[i + 1..j + 1];
      assert forall k :: 0 <= k < |s| - 1 ==> s[1..][k] == s[k + 1];
      i, j := i + 1, j + 1;
    } else if s != "" && s[|s| - 1] == '_' {
      i, j := TrimmedParts(s[..|s| - 1]);
      assert s[..|s| - 1][i..j] == s[i..j];
      assert forall k :: 0 <= k < |s| - 1 ==> s[..|s| - 1][k] == s[k];
    } else {
      assert s[0..|s|] == s;
    }
  }

  /** The base of a provider key is the name from its first to its last letter or digit, in lower case,
      with an underscore for everything else in between; `provider` for a name without any. */
  lemma BaseKeySays(name: string, alphanumeric: char -> bool) returns (i: nat, j: nat)
    requires forall c :: alphanumeric(c) ==> LowerChar(c) != '_'
    ensures i <= j <= |name| && (forall k :: 0 <= k < i || j <= k < |name| ==> !alphanumeric(name[k]))
    ensures i < j ==> alphanumeric(name[i]) && alphanumeric(name[j - 1])
    ensures var base := BaseKey(name, alphanumeric);
      if i == j then base == "provider"
      else
        && |base| == j - i
        && forall k :: 0 <= k < j - i ==>
             base[k] == if alphanumeric(name[i + k]) then LowerChar(name[i + k]) else '_'
  {
    var folded := Folded(name, alphanumeric);
    i, j := TrimmedParts(folded);
    assert forall k :: 0 <= k < |name| ==> (folded[k] == '_' <==> !alphanumeric(name[k]));
    assert forall k :: 0 <= k < j - i ==> folded[i..j][k] == folded[i + k];
  }

  /** The `i`-th name tried: the base, then `base_2`, `base_3`, ... */
  function Candidate(base: string, i: nat): string {
    if i <= 1 then base else base + "_" + Decimal(i)
  }

  /** `normalize_provider_key`: the first free candidate, or the base with a timestamp when all 999
      are taken. */
  method NormalizeProviderKey(
    name: string, existing: seq<string>, alphanumeric: char -> bool, timestamp: nat)
    returns (key: string)
    ensures var base := BaseKey(name, alphanumeric);
      if forall i :: 1 <= i < 1000 ==> Candidate(base, i) in existing then key == base + "_" + Decimal(timestamp)
      else key !in existing && exists n ::
        1 <= n < 1000 && key == Candidate(base, n) && forall i :: 1 <= i < n ==> Candidate(base, i) in existing
    ensures |existing| < 999 ==> key !in existing
  {
    var base := BaseKey(name, alphanumeric);
    if base !in existing {
      assert base == Candidate(base, 1);
      return base;
    }
    for i := 2 to 1000
      invariant forall j :: 1 <= j < i ==> Candidate(base, j) in existing
    {
      var candidate := base + "_" + Decimal(i);
      if candidate !in existing {
        assert candidate == Candidate(base, i);
        return candidate;
      }
    }
    AllTaken(base, existing);
    return base + "_" + Decimal(timestamp);
  }

  lemma CandidatesDiffer(base: string, i: nat, j: nat)
    requires 1 <= i < j
    ensures Candidate(base, i) != Candidate(base, j)
  {
    DecimalRoundTrip(i);
    DecimalRoundTrip(j);
    var x, y := Candidate(base, i), Candidate(base, j);
    assert y[|base| + 1..] == Decimal(j);
    if i > 1 { assert x[|base| + 1..] == Decimal(i); }
  }

  function FirstCandidates(base: string, n: nat): set<string> {
    set i | 1 <= i <= n :: Candidate(base, i)
  }

  lemma {:induction false} CandidatesCount(base: string, n: nat)
    ensures |FirstCandidates(base, n)| == n
  {
    if n == 0 {
      assert FirstCandidates(base, 0) == {};
    } else {
      CandidatesCount(base, n - 1);
      assert FirstCandidates(base, n) == FirstCandidates(base, n - 1) + {Candidate(base, n)};
      forall i | 1 <= i <= n - 1 ensures Candidate(base, i) != Candidate(base, n) { CandidatesDiffer(base, i, n); }
    }
  }

  lemma {:induction false} MembersAtMost(s: seq<string>)
    ensures |set x | x in s| <= |s|
  {
    if s == [] {
      assert (set x | x in s) == {};
    } else {
      MembersAtMost(s[1..]);
      assert (set x | x in s) == (set x | x in s[1..]) + {s[0]};
    }
  }

  /** With fewer names than candidates one candidate is free. */
  lemma SomeCandidateFree(base: string, existing: seq<string>, n: nat)
    requires |existing| < n
    ensures exists i :: 1 <= i <= n && Candidate(base, i) !in existing
  {
    if forall i :: 1 <= i <= n ==> Candidate(base, i) in existing {
      CandidatesCount(base, n);
      MembersAtMost(existing);
      SubsetSize(FirstCandidates(base, n), set x | x in existing);
    }
  }

  lemma AllTaken(base: string, existing: seq<string>)
    requires forall i :: 1 <= i < 1000 ==> Candidate(base, i) in existing
    ensures |existing| >= 999
  {
    if |existing| < 999 { SomeCandidateFree(base, existing, 999); }
  }

  // ---- such keys never collide ----

  lemma {:induction false} TrimKeeps(s: string)
    ensures forall c :: c in TrimUnderscores(s) ==> c in s
    decreases |s|
  {
    if s != "" {
      if s[0] == '_' { TrimKeeps(s[1..]); }
      else if s[|s| - 1] == '_' { TrimKeeps(s[..|s| - 1]); }
    }
  }

  lemma BaseColonFree(name: string, alphanumeric: char -> bool)
    requires !alphanumeric(':')
    ensures ':' !in BaseKey(name, alphanumeric)
  {
    var folded := Folded(name, alphanumeric);
    TrimKeeps(folded);
    assert forall i :: 0 <= i < |name| ==> folded[i] != ':';
  }

  /** Every key a provider name is normalized to is colon-free, so model keys of such providers
      are jointly injective. */
  lemma CandidateColonFree(name: string, alphanumeric: char -> bool, n: nat)
    requires !alphanumeric(':')
    ensures ':' !in Candidate(BaseKey(name, alphanumeric), n)
    ensures ':' !in BaseKey(name, alphanumeric) + "_" + Decimal(n)
  {
    BaseColonFree(name, alphanumeric);
    DecimalDigits(n);
  }

  // ---- credential names ----

  function Upper(c: char): char {
    if 'a' <= c <= 'z' then c - 'a' + 'A' else c
  }

  function Kept(name: string, alphanumeric: char -> bool): string {
    if name == "" then ""
    else (if alphanumeric(name[0]) || name[0] == '_' then [Upper(name[0])] else "") + Kept(name[1..], alphanumeric)
  }

  /** Of a name the letters, digits and underscores are kept, in upper case and in order. */
  lemma {:induction false} KeptSays(a: string, c: char, b: string, alphanumeric: char -> bool)
    ensures Kept(a + [c] + b, alphanumeric) ==
      Kept(a, alphanumeric) + (if alphanumeric(c) || c == '_' then [Upper(c)] else "") + Kept(b, alphanumeric)
  {
    if a == "" {
      var mid := if alphanumeric(c) || c == '_' then [Upper(c)] else "";
      assert "" + [c] + b == [c] + b && ([c] + b)[1..] == b && "" + mid == mid;
    } else {
      var own := if alphanumeric(a[0]) || a[0] == '_' then [Upper(a[0])] else "";
      var mid := if alphanumeric(c) || c == '_' then [Upper(c)] else "";
      assert (a + [c] + b)[1..] == a[1..] + [c] + b;
      KeptSays(a[1..], c, b, alphanumeric);
      Associative(own, Kept(a[1..], alphanumeric) + mid, Kept(b, alphanumeric));
      Associative(own, Kept(a[1..], alphanumeric), mid);
    }
  }

  function BaseRef(name: string, alphanumeric: char -> bool): string {
    var base := Kept(name, alphanumeric);
    if base == "" then "PROVIDER_KEY" else base + "_KEY"
  }

  /** `is_valid_credential_name`. */
  predicate Acceptable(name: string) {
    && name != "" && |name| <= 128 && !("OCG_" <= name)
    && forall i :: 0 <= i < |name| ==> 'A' <= name[i] <= 'Z' || '0' <= name[i] <= '9' || name[i] == '_'
  }

  /** Some candidate is free and acceptable. */
  predicate HasFreeRef(base: string, existing: seq<string>) {
    exists i: nat | 1 <= i < 1000 :: Candidate(base, i) !in existing && Acceptable(Candidate(base, i))
  }

  function FallbackRef(existing: seq<string>): string {
    "PROVIDER_KEY_" + Decimal(|existing| + 1)
  }

  /** `normalize_credential_ref`. */
  method NormalizeCredentialRef(name: string, existing: seq<string>, alphanumeric: char -> bool) returns (ref: string)
    ensures var base := BaseRef(name, alphanumeric);
      if !HasFreeRef(base, existing) then ref == FallbackRef(existing)
      else ref !in existing && Acceptable(ref) && exists n :: 1 <= n < 1000 && ref == Candidate(base, n)
    ensures ref !in existing <==>
      HasFreeRef(BaseRef(name, alphanumeric), existing) || FallbackRef(existing) !in existing
    ensures |existing| < 0x1_0000_0000_0000_0000 ==>
      (NameValid(ref) <==>
        !(HasFreeRef(BaseRef(name, alphanumeric), existing) && LeadsWithDigit(Kept(name, alphanumeric))))
  {
    var base := BaseRef(name, alphanumeric);
    if base !in existing && Acceptable(base) {
      assert base == Candidate(base, 1);
      RefVersusVault(name, alphanumeric, 1);
      return base;
    }
    for i := 2 to 1000
      invariant forall j :: 1 <= j < i ==> Candidate(base, j) in existing || !Acceptable(Candidate(base, j))
    {
      var candidate := base + "_" + Decimal(i);
      if candidate !in existing && Acceptable(candidate) {
        assert candidate == Candidate(base, i);
        RefVersusVault(name, alphanumeric, i);
        return candidate;
      }
    }
    FallbackValid(existing);
    return "PROVIDER_KEY_" + Decimal(|existing| + 1);
  }

  /** The set-up check and the Vault's own differ exactly on leading digits and reserved names. */
  lemma AcceptableVersusVault(name: string)
    ensures NameValid(name) <==> Acceptable(name) && !('0' <= name[0] <= '9') && name !in RESERVED
  {}

  predicate LeadsWithDigit(s: string) {
    s != "" && '0' <= s[0] <= '9'
  }

  lemma BaseRefParts(name: string, alphanumeric: char -> bool)
    ensures var base, kept := BaseRef(name, alphanumeric), Kept(name, alphanumeric);
      && |base| >= 5 && base[|base| - 4..] == "_KEY"
      && base[0] == if kept == "" then 'P' else kept[0]
  {
    var base, kept := BaseRef(name, alphanumeric), Kept(name, alphanumeric);
    if kept == "" {
      assert base == "PROVIDER" + "_KEY";
    }
  }

  /** No candidate is a reserved name: those end neither in `_KEY` nor in a digit. */
  lemma CandidateNotReserved(name: string, alphanumeric: char -> bool, i: nat)
    requires 1 <= i
    ensures var c := Candidate(BaseRef(name, alphanumeric), i);
      c != "" && c[0] == BaseRef(name, alphanumeric)[0] && c !in RESERVED
  {
    BaseRefParts(name, alphanumeric);
    var base := BaseRef(name, alphanumeric);
    var c := Candidate(base, i);
    if i <= 1 {
      assert c[|c| - 4..][3] == 'Y' && c[|c| - 4..][2] == 'E' && c[|c| - 4..][1] == 'K';
      assert c[|c| - 2] == 'E' && c[|c| - 3] == 'K';
    } else {
      DecimalDigits(i);
      assert c[|c| - 1] == Decimal(i)[|Decimal(i)| - 1];
    }
    ReservedEnds(c);
  }

  lemma ReservedEnds(c: string)
    requires |c| >= 5 && (('0' <= c[|c| - 1] <= '9') || (c[|c| - 2] == 'E' && c[|c| - 3] == 'K'))
    ensures c !in RESERVED
  {}

  lemma RefVersusVault(name: string, alphanumeric: char -> bool, i: nat)
    requires 1 <= i && Acceptable(Candidate(BaseRef(name, alphanumeric), i))
    ensures NameValid(Candidate(BaseRef(name, alphanumeric), i)) <==> !LeadsWithDigit(Kept(name, alphanumeric))
  {
    CandidateNotReserved(name, alphanumeric, i);
    BaseRefParts(name, alphanumeric);
    AcceptableVersusVault(Candidate(BaseRef(name, alphanumeric), i));
  }

  lemma {:induction false} DecimalWidth(n: nat, k: nat)
    requires k > 0 && n < Pow10(k)
    ensures |Decimal(n)| <= k
  {
    assert Pow10(1) == 10 * Pow10(0);
    if n >= 10 && k > 1 { DecimalWidth(n / 10, k - 1); }
  }

  lemma TwentyDigits()
    ensures Pow10(3) == 1000 && Pow10(20) > 0x1_0000_0000_0000_0000
  {
    assert Pow10(3) == 1000 by { assert Pow10(2) == 100; }
    assert Pow10(6) == 1_000_000 by { assert Pow10(5) == 100_000 by { assert Pow10(4) == 10_000; } }
    assert Pow10(9) == 1_000_000_000 by { assert Pow10(8) == 100_000_000 by { assert Pow10(7) == 10_000_000; } }
    assert Pow10(12) == 1_000_000_000_000 by {
      assert Pow10(11) == 100_000_000_000 by { assert Pow10(10) == 10_000_000_000; }
    }
    assert Pow10(14) == 100_000_000_000_000 by { assert Pow10(13) == 10_000_000_000_000; }
    assert Pow10(16) == 10_000_000_000_000_000 by { assert Pow10(15) == 1_000_000_000_000_000; }
    assert Pow10(18) == 1_000_000_000_000_000_000 by { assert Pow10(17) == 100_000_000_000_000_000; }
    assert Pow10(20) == 100_000_000_000_000_000_000 by { assert Pow10(19) == 10_000_000_000_000_000_000; }
  }

  lemma FallbackValid(existing: seq<string>)
    ensures |existing| < 0x1_0000_0000_0000_0000 ==> NameValid(FallbackRef(existing))
  {
    var n := |existing| + 1;
    DecimalDigits(n);
    if |existing| < 0x1_0000_0000_0000_0000 {
      TwentyDigits();
      DecimalWidth(n, 20);
      NumberedValid(Decimal(n));
    }
  }

  lemma NumberedValid(digits: string)
    requires 0 < |digits| <= 20 && forall c :: c in digits ==> '0' <= c <= '9'
    ensures NameValid("PROVIDER_KEY_" + digits)
  {
    var head, ref := "PROVIDER_KEY_", "PROVIDER_KEY_" + digits;
    DigitsKept(digits);
    AsciiKeptConcat(head, digits);
    assert AsciiKept(head) && |head| == 13;
    assert ref[0] == head[0] == 'P' && ref[|ref| - 1] == digits[|digits| - 1] && digits[|digits| - 1] in digits;
    ReservedEnds(ref);
  }

  /** Every character kept of the name is one the set-up check takes. */
  predicate AsciiKept(kept: string) {
    forall i :: 0 <= i < |kept| ==> 'A' <= kept[i] <= 'Z' || '0' <= kept[i] <= '9' || kept[i] == '_'
  }

  /** Which candidates the set-up check takes, in terms of the provider's name. */
  lemma CandidateAcceptableIff(name: string, alphanumeric: char -> bool, i: nat)
    requires 1 <= i
    ensures var kept, c := Kept(name, alphanumeric), Candidate(BaseRef(name, alphanumeric), i);
      Acceptable(c) <==> AsciiKept(kept) && !("OCG_" <= BaseRef(name, alphanumeric)) && |c| <= 128
  {
    var base := BaseRef(name, alphanumeric);
    BaseRefParts(name, alphanumeric);
    CandidateKept(name, alphanumeric, i);
    assert Candidate(base, i)[..4] == base[..4];
  }

  lemma AsciiKeptConcat(a: string, b: string)
    ensures AsciiKept(a + b) <==> AsciiKept(a) && AsciiKept(b)
  {
    assert forall i :: 0 <= i < |a| ==> (a + b)[i] == a[i];
    assert forall i :: 0 <= i < |b| ==> (a + b)[|a| + i] == b[i];
  }

  lemma DigitsKept(digits: string)
    requires forall c :: c in digits ==> '0' <= c <= '9'
    ensures AsciiKept(digits)
  {
    assert forall i :: 0 <= i < |digits| ==> digits[i] in digits;
  }

  lemma BaseKept(name: string, alphanumeric: char -> bool)
    ensures AsciiKept(BaseRef(name, alphanumeric)) <==> AsciiKept(Kept(name, alphanumeric))
  {
    if Kept(name, alphanumeric) == "" {
      assert AsciiKept("PROVIDER_KEY");
    } else {
      AsciiKeptConcat(Kept(name, alphanumeric), "_KEY");
      assert AsciiKept("_KEY");
    }
  }

  /** What a candidate adds to the name is acceptable. */
  lemma CandidateKept(name: string, alphanumeric: char -> bool, i: nat)
    ensures AsciiKept(Candidate(BaseRef(name, alphanumeric), i)) <==> AsciiKept(Kept(name, alphanumeric))
  {
    var base := BaseRef(name, alphanumeric);
    BaseKept(name, alphanumeric);
    if i > 1 {
      DecimalDigits(i);
      DigitsKept(Decimal(i));
      assert AsciiKept("_");
      AsciiKeptConcat("_", Decimal(i));
      AsciiKeptConcat(base, "_" + Decimal(i));
      assert base + "_" + Decimal(i) == base + ("_" + Decimal(i));
    }
  }

  /** With fewer than 999 references and a name short enough, a candidate is found exactly when the
      name is made of acceptable characters and does not make a reserved prefix. */
  lemma HasFreeRefIff(name: string, existing: seq<string>, alphanumeric: char -> bool)
    requires |existing| < 999 && |BaseRef(name, alphanumeric)| <= 124
    ensures HasFreeRef(BaseRef(name, alphanumeric), existing) <==>
      AsciiKept(Kept(name, alphanumeric)) && !("OCG_" <= BaseRef(name, alphanumeric))
  {
    var base := BaseRef(name, alphanumeric);
    SomeCandidateFree(base, existing, 999);
    var i :| 1 <= i <= 999 && Candidate(base, i) !in existing;
    CandidateAcceptableIff(name, alphanumeric, i);
    TwentyDigits();
    DecimalWidth(i, 3);
    if HasFreeRef(base, existing) {
      var j: nat :| 1 <= j < 1000 && Candidate(base, j) !in existing && Acceptable(Candidate(base, j));
      CandidateAcceptableIff(name, alphanumeric, j);
    }
  }

  predicate AnyLetter(c: char) {
    'a' <= c <= 'z' || 'A' <= c <= 'Z' || '0' <= c <= '9' || c as int >= 0xC0
  }

  /** A name with a letter outside ASCII takes the fallback, which can be a name in use. */
  lemma FallbackCollides()
    ensures !HasFreeRef(BaseRef([0xE9 as char], AnyLetter), ["PROVIDER_KEY_2"])
    ensures FallbackRef(["PROVIDER_KEY_2"]) == "PROVIDER_KEY_2"
  {
    var name := [0xE9 as char];
    assert name[1..] == "" && Kept("", AnyLetter) == "";
    assert Kept(name, AnyLetter) == [0xE9 as char] + "" == [0xE9 as char];
    assert !AsciiKept(Kept(name, AnyLetter));
    HasFreeRefIff(name, ["PROVIDER_KEY_2"], AnyLetter);
    assert Decimal(2) == "2";
  }

  predicate AsciiDigit(c: char) {
    '0' <= c <= '9'
  }

  /** So a provider whose name starts with a digit gets a credential name the Vault refuses. */
  lemma DigitNameRefused()
    ensures BaseRef("1", AsciiDigit) == "1_KEY" && Acceptable("1_KEY") && !NameValid("1_KEY")
  {
    assert "1"[1..] == "";
    assert Kept("", AsciiDigit) == "";
    assert Kept("1", AsciiDigit) == ['1'] + "";
    assert ['1'] + "" == "1" && "1" + "_KEY" == "1_KEY";
    assert "1_KEY"[..4] == "1_KE" && "OCG_"[0] == 'O';
  }
}
