/** The part of UTF-8 decoding `decode_utf8_prefix` of `src/provider_loop.rs` relies on, as
    section 3 of RFC 3629 and the error classification of Rust's decoder define it. */
module Utf8 {
  import Strings

  type Bytes = seq<int>

  /** How a non-empty byte sequence begins: a scalar of that many bytes, a scalar cut short by
      the end of the input, or that many bytes of garbage. */
  datatype Head = Scalar(len: nat) | Truncated | Broken(len: nat)

  predicate Continuation(b: int) {
    0x80 <= b <= 0xBF
  }

  /** Number of bytes the lead byte announces; 0 for a byte that cannot lead. */
  function Announced(b: int): nat {
    if 0 <= b < 0x80 then 1
    else if 0xC2 <= b <= 0xDF then 2
    else if 0xE0 <= b <= 0xEF then 3
    else if 0xF0 <= b <= 0xF4 then 4
    else 0
  }

  predicate SecondFits(lead: int, b: int) {
    && Continuation(b)
    && (lead == 0xE0 ==> 0xA0 <= b)
    && (lead == 0xED ==> b <= 0x9F)
    && (lead == 0xF0 ==> 0x90 <= b)
    && (lead == 0xF4 ==> b <= 0x8F)
  }

  function First(raw: Bytes): (h: Head)
    requires raw != []
    ensures !h.Truncated? ==> 1 <= h.len <= |raw|
  {
    var n := Announced(raw[0]);
    if n == 0 then Broken(1)
    else if n == 1 then Scalar(1)
    else if |raw| < 2 then Truncated
    else if !SecondFits(raw[0], raw[1]) then Broken(1)
    else if n == 2 then Scalar(2)
    else if |raw| < 3 then Truncated
    else if !Continuation(raw[2]) then Broken(2)
    else if n == 3 then Scalar(3)
    else if |raw| < 4 then Truncated
    else if !Continuation(raw[3]) then Broken(3)
    else Scalar(4)
  }

  predicate Valid(s: Bytes) {
    s == [] || (First(s).Scalar? && Valid(s[First(s).len..]))
  }

  /** `valid_up_to`: length of the longest valid prefix. */
  function ValidUpTo(raw: Bytes): (v: nat)
    ensures v <= |raw|
  {
    if raw == [] || !First(raw).Scalar? then 0
    else First(raw).len + ValidUpTo(raw[First(raw).len..])
  }

  /** `error_len().unwrap_or(0)`: bytes dropped after the valid prefix. */
  function Skip(raw: Bytes): (k: nat)
    ensures ValidUpTo(raw) + k <= |raw|
  {
    var rest := raw[ValidUpTo(raw)..];
    if rest == [] || First(rest).Truncated? then 0
    else if First(rest).Broken? then First(rest).len
    else 0
  }

  lemma FirstOfPrefix(a: Bytes, b: Bytes)
    requires a != [] && First(a + b).Scalar?
    ensures First(a) == First(a + b) || First(a).Truncated?
  {}

  lemma {:induction false} ValidUpToSplit(raw: Bytes)
    requires raw != [] && First(raw).Scalar?
    ensures var n := First(raw).len;
      raw[ValidUpTo(raw)..] == raw[n..][ValidUpTo(raw[n..])..]
        && raw[..ValidUpTo(raw)] == raw[..n] + raw[n..][..ValidUpTo(raw[n..])]
  {}

  /** Cut anywhere, a valid text drops nothing: what is left undecoded continues validly with
      the bytes that are still to come. */
  lemma {:induction false} PrefixOfValid(a: Bytes, b: Bytes)
    requires Valid(a + b)
    ensures Skip(a) == 0 && Valid(a[ValidUpTo(a)..] + b)
    decreases |a|
  {
    if a != [] {
      FirstOfPrefix(a, b);
      if First(a).Scalar? {
        var n := First(a).len;
        assert (a + b)[n..] == a[n..] + b;
        PrefixOfValid(a[n..], b);
        ValidUpToSplit(a);
      }
    }
  }

  /** The undecoded rest of a text never starts a complete scalar. */
  lemma {:induction false} RestIsShort(a: Bytes)
    ensures var rest := a[ValidUpTo(a)..]; rest == [] || !First(rest).Scalar?
  {
    if a != [] && First(a).Scalar? {
      RestIsShort(a[First(a).len..]);
      ValidUpToSplit(a);
    }
  }

  // ---- text that is not valid ----

  /** The complete characters of a text, without its broken sequences and a cut-off end. */
  function Lossy(s: Bytes): Bytes {
    if s == [] || First(s).Truncated? then []
    else if First(s).Scalar? then s[..First(s).len] + Lossy(s[First(s).len..])
    else Lossy(s[First(s).len..])
  }

  lemma FirstStable(a: Bytes, b: Bytes)
    requires a != [] && !First(a).Truncated?
    ensures First(a + b) == First(a)
  {}

  /** What one decoding step takes, and what it leaves. */
  function Ahead(raw: Bytes): Bytes {
    raw[..ValidUpTo(raw)]
  }

  function Behind(raw: Bytes): Bytes {
    raw[ValidUpTo(raw) + Skip(raw)..]
  }

  lemma LossyStep(a: Bytes, b: Bytes)
    requires a != [] && First(a).Scalar?
    ensures var n := First(a).len; Lossy(a + b) == a[..n] + Lossy(a[n..] + b)
  {
    var n := First(a).len;
    FirstStable(a, b);
    assert (a + b)[n..] == a[n..] + b && (a + b)[..n] == a[..n];
  }

  lemma AheadStep(a: Bytes)
    requires a != [] && First(a).Scalar?
    ensures var n := First(a).len; Ahead(a) == a[..n] + Ahead(a[n..]) && Behind(a) == Behind(a[n..])
  {
    ValidUpToSplit(a);
  }

  lemma StepStops(a: Bytes, b: Bytes)
    requires a == [] || !First(a).Scalar?
    ensures Ahead(a) == [] && Lossy(a + b) == Lossy(Behind(a) + b)
  {
    if a != [] && First(a).Broken? {
      FirstStable(a, b);
      assert (a + b)[First(a).len..] == a[First(a).len..] + b;
    } else {
      assert Behind(a) == a;
    }
  }

  /** One decoding step drops nothing but a broken sequence, whatever is still to come. */
  lemma {:induction false} LossySplits(a: Bytes, b: Bytes)
    ensures Lossy(a + b) == Ahead(a) + Lossy(Behind(a) + b)
    decreases |a|
  {
    if a != [] && First(a).Scalar? {
      var n := First(a).len;
      LossySplits(a[n..], b);
      LossyStep(a, b);
      AheadStep(a);
      Strings.Associative(a[..n], Ahead(a[n..]), Lossy(Behind(a) + b));
    } else {
      StepStops(a, b);
    }
  }

  /** Where nothing is skipped, what is left has no complete character. */
  lemma NothingBehind(a: Bytes)
    requires |Behind(a)| == |a| || Skip(a) == 0
    ensures Lossy(Behind(a)) == [] && Ahead(Behind(a)) == []
  {
    RestIsShort(a);
  }

  lemma {:induction false} AheadSplits(a: Bytes, b: Bytes)
    ensures |Ahead(a + b)| == |Ahead(a)| + if Skip(a) == 0 then |Ahead(Behind(a) + b)| else 0
    decreases |a|
  {
    if a != [] && First(a).Scalar? {
      AheadSplits(a[First(a).len..], b);
      AheadOfMore(a, b);
      AheadStep(a);
      ValidUpToSplit(a);
    } else if a != [] && First(a).Broken? {
      FirstStable(a, b);
    } else {
      assert Behind(a) == a;
    }
  }

  lemma AheadOfMore(a: Bytes, b: Bytes)
    requires a != [] && First(a).Scalar?
    ensures var n := First(a).len; |Ahead(a + b)| == n + |Ahead(a[n..] + b)|
  {
    FirstStable(a, b);
    assert (a + b)[First(a).len..] == a[First(a).len..] + b;
  }

  lemma {:induction false} ValidIffWhole(s: Bytes)
    ensures Valid(s) <==> ValidUpTo(s) == |s|
  {
    if s != [] && First(s).Scalar? { ValidIffWhole(s[First(s).len..]); }
  }

  // ---- the encoding it decodes ----

  /** A Unicode scalar value. */
  predicate IsScalar(c: int) {
    0 <= c < 0xD800 || 0xE000 <= c < 0x11_0000
  }

  /** Its encoding, as the table of section 3 of RFC 3629 has it. */
  function Encode(c: int): Bytes
    requires IsScalar(c)
  {
    if c < 0x80 then [c]
    else if c < 0x800 then [0xC0 + c / 64, 0x80 + c % 64]
    else if c < 0x1_0000 then [0xE0 + c / 4096, 0x80 + c / 64 % 64, 0x80 + c % 64]
    else [0xF0 + c / 262144, 0x80 + c / 4096 % 64, 0x80 + c / 64 % 64, 0x80 + c % 64]
  }

  /** The text begins with the encoding of a scalar value, of `n` bytes. */
  ghost predicate Begins(s: Bytes, n: nat) {
    exists c :: IsScalar(c) && |Encode(c)| == n && Encode(c) <= s
  }

  lemma EncodedIsScalar(c: int, rest: Bytes)
    requires IsScalar(c)
    ensures First(Encode(c) + rest) == Scalar(|Encode(c)|)
  {
    var s := Encode(c) + rest;
    assert s[0] == Encode(c)[0];
    if c >= 0x80 { assert s[1] == Encode(c)[1]; }
    if c >= 0x800 { assert s[2] == Encode(c)[2]; }
    if c >= 0x1_0000 { assert s[3] == Encode(c)[3]; }
  }

  lemma TwoBytes(s: Bytes)
    requires s != [] && First(s) == Scalar(2)
    ensures Begins(s, 2)
  {
    var c := (s[0] - 0xC0) * 64 + (s[1] - 0x80);
    assert c / 64 == s[0] - 0xC0 && c % 64 == s[1] - 0x80;
    assert IsScalar(c) && Encode(c) == s[..2];
  }

  lemma ThreeBytes(s: Bytes)
    requires s != [] && First(s) == Scalar(3)
    ensures Begins(s, 3)
  {
    var a, b, d := s[0] - 0xE0, s[1] - 0x80, s[2] - 0x80;
    var c := a * 4096 + b * 64 + d;
    assert c / 64 == a * 64 + b && c / 4096 == a && c / 64 % 64 == b && c % 64 == d;
    assert IsScalar(c) && c >= 0x800 && Encode(c) == s[..3];
  }

  lemma FourBytes(s: Bytes)
    requires s != [] && First(s) == Scalar(4)
    ensures Begins(s, 4)
  {
    var a, b, d, e := s[0] - 0xF0, s[1] - 0x80, s[2] - 0x80, s[3] - 0x80;
    var c := a * 262144 + b * 4096 + d * 64 + e;
    assert c / 64 == a * 4096 + b * 64 + d && c / 4096 == a * 64 + b && c / 262144 == a;
    assert c / 4096 % 64 == b && c / 64 % 64 == d && c % 64 == e;
    assert IsScalar(c) && c >= 0x1_0000 && Encode(c) == s[..4];
  }

  /** The decoder finds a scalar of `n` bytes exactly where one is encoded. */
  lemma ScalarIff(s: Bytes, n: nat)
    requires s != []
    ensures First(s) == Scalar(n) <==> Begins(s, n)
  {
    if First(s) == Scalar(n) {
      match n
      case 1 => assert Encode(s[0]) <= s;
      case 2 => TwoBytes(s);
      case 3 => ThreeBytes(s);
      case _ => FourBytes(s);
    }
    if c :| IsScalar(c) && |Encode(c)| == n && Encode(c) <= s {
      EncodedIsScalar(c, s[n..]);
      assert s == Encode(c) + s[n..];
    }
  }

  /** The bytes can still become a scalar, with more to come. */
  ghost predicate Unfinished(s: Bytes) {
    s != [] && exists c :: IsScalar(c) && s < Encode(c)
  }

  /** How a scalar that was begun may go on. */
  function Completion(s: Bytes): Bytes
    requires s != [] && First(s).Truncated?
  {
    var second := if s[0] == 0xE0 then 0xA0 else if s[0] == 0xF0 then 0x90 else 0x80;
    var fourth := if Announced(s[0]) == 4 then [0x80] else [];
    if |s| == 1 then [second] + ((if Announced(s[0]) >= 3 then [0x80] else []) + fourth)
    else if |s| == 2 then [0x80] + fourth
    else [0x80]
  }

  lemma Completed(s: Bytes)
    requires s != [] && First(s).Truncated?
    ensures First(s + Completion(s)) == Scalar(|s + Completion(s)|) && Completion(s) != []
  {
    var t := s + Completion(s);
    assert forall i :: 0 <= i < |s| ==> t[i] == s[i];
    assert forall i :: 0 <= i < |Completion(s)| ==> t[|s| + i] == Completion(s)[i];
  }

  /** It waits for more exactly where the bytes are a proper beginning of an encoding. */
  lemma TruncatedIff(s: Bytes)
    requires s != []
    ensures First(s).Truncated? <==> Unfinished(s)
  {
    if First(s).Truncated? {
      var t := s + Completion(s);
      Completed(s);
      ScalarIff(t, |t|);
      var c :| IsScalar(c) && |Encode(c)| == |t| && Encode(c) <= t;
      assert Encode(c) == t && s < t;
    }
    if c :| IsScalar(c) && s < Encode(c) {
      var rest := Encode(c)[|s|..];
      assert Encode(c) == s + rest;
      EncodedIsScalar(c, []);
      assert Encode(c) + [] == Encode(c);
      FirstOfPrefix(s, rest);
    }
  }

  /** And it drops the longest beginning of an encoding, or one byte that begins none. */
  lemma BrokenDropsMost(s: Bytes, n: nat)
    requires s != [] && First(s) == Broken(n)
    ensures 1 <= n <= |s| && (n == 1 || Unfinished(s[..n]))
    ensures forall m :: n < m <= |s| ==> !Unfinished(s[..m])
    ensures forall m :: !Begins(s, m)
  {
    if n > 1 { TruncatedIff(s[..n]); }
    forall m | n < m <= |s| ensures !Unfinished(s[..m]) { TruncatedIff(s[..m]); }
    forall m: nat ensures !Begins(s, m) { ScalarIff(s, m); }
  }
}
