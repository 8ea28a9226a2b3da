/** Target resolution of `src/edit.rs`: one unique-match splice, with the line-ending recovery. */
module Splice {
  import opened Options
  import opened Strings

  datatype Kind = Replace | InsertBefore | InsertAfter | Append

  datatype Conflict =
    | InvalidRequest
    | MissingTarget
    | AmbiguousTarget
    | StaleRevision
    | ConcurrentModification
    | UnsupportedOperation
    | IOFailure

  datatype Request = Request(kind: Kind, expected: Option<string>, target: Option<string>, content: string)

  datatype Resolved = Resolved(next: string, recovered: bool) | Refused(conflict: Conflict)

  // ---- searching ----

  /** The first occurrence at or after `from`; `|text| + 1` when there is none. */
  function FindFrom(text: string, part: string, from: nat): (i: nat)
    ensures OccursAt(text, part, i) || i == |text| + 1
    ensures OccursAt(text, part, i) ==> from <= i
    ensures forall k :: from <= k && k < i ==> !OccursAt(text, part, k)
    decreases |text| + 1 - from
  {
    if from > |text| then |text| + 1
    else if OccursAt(text, part, from) then from
    else FindFrom(text, part, from + 1)
  }

  /** `replace('\n', "\r\n")`. */
  function ToCrlf(s: string): string {
    if s == [] then []
    else (if s[0] == '\n' then "\r\n" else [s[0]]) + ToCrlf(s[1..])
  }

  /** `replace("\r\n", "\n")`. */
  function ToLf(s: string): string {
    if s == [] then []
    else if |s| >= 2 && s[0] == '\r' && s[1] == '\n' then ['\n'] + ToLf(s[2..])
    else [s[0]] + ToLf(s[1..])
  }

  /** The needle that is looked for, and whether it is a recovered one. */
  function Needle(text: string, target: string): (r: (string, bool)) {
    if Contains(text, target) then (target, false)
    else if Contains(target, "\n") && Contains(text, "\r\n") && !Contains(target, "\r\n") then (ToCrlf(target), true)
    else if Contains(target, "\r\n") then (ToLf(target), true)
    else ([], false)
  }

  /** `resolve`. Of the match iterator only its first two positions are looked at, and the
      second one starts after the end of the first. */
  function Resolve(text: string, request: Request): Resolved {
    if request.target.None? then
      if request.kind.Append? then Resolved(text + request.content, false) else Refused(InvalidRequest)
    else if request.target.value == [] then Refused(InvalidRequest)
    else
      var (needle, recovered) := Needle(text, request.target.value);
      if needle == [] then Refused(MissingTarget) else Placed(text, needle, recovered, request.kind, request.content)
  }

  /** The splice at the match of a needle. */
  function Placed(text: string, needle: string, recovered: bool, kind: Kind, content: string): Resolved
    requires needle != []
  {
    var at := FindFrom(text, needle, 0);
    if at > |text| then Refused(MissingTarget)
    else if FindFrom(text, needle, at + |needle|) <= |text| then Refused(AmbiguousTarget)
    else if kind.Append? then Refused(InvalidRequest)
    else
      var position := if kind.InsertAfter? then at + |needle| else at;
      var end := if kind.Replace? then at + |needle| else position;
      Resolved(text[..position] + content + text[end..], recovered)
  }

  // ---- what a success means ----

  /** `needle` is matched once: it occurs, and everything else it matches overlaps the
      leftmost occurrence. */
  ghost predicate Unique(text: string, needle: string, at: int) {
    && OccursAt(text, needle, at)
    && forall k :: OccursAt(text, needle, k) ==> at <= k < at + |needle|
  }

  /** What stands in place of the match after each operation. */
  function Around(kind: Kind, needle: string, content: string): string
    requires !kind.Append?
  {
    match kind
    case Replace => content
    case InsertBefore => content + needle
    case InsertAfter => needle + content
  }

  lemma UniqueIff(text: string, needle: string, at: nat)
    requires needle != [] && at == FindFrom(text, needle, 0) <= |text|
    ensures FindFrom(text, needle, at + |needle|) > |text| <==> Unique(text, needle, at)
  {
    var second := FindFrom(text, needle, at + |needle|);
    if second <= |text| { assert OccursAt(text, needle, second); }
    if second > |text| {
      forall k | OccursAt(text, needle, k) ensures at <= k < at + |needle| {}
    }
  }

  lemma UniqueIsFirst(text: string, needle: string, at: nat)
    requires needle != [] && Unique(text, needle, at)
    ensures FindFrom(text, needle, 0) == at
  {
    var i := FindFrom(text, needle, 0);
    assert OccursAt(text, needle, i) ==> at <= i;
  }

  /** At a unique match one range is replaced and every other character stays. */
  lemma PlacedAt(text: string, needle: string, recovered: bool, kind: Kind, content: string, at: nat)
    requires needle != [] && !kind.Append? && Unique(text, needle, at)
    ensures Placed(text, needle, recovered, kind, content) ==
      Resolved(text[..at] + Around(kind, needle, content) + text[at + |needle|..], recovered)
  {
    UniqueIsFirst(text, needle, at);
    UniqueIff(text, needle, at);
    SpliceForms(text, needle, at, content);
  }

  lemma PlacedIff(text: string, needle: string, recovered: bool, kind: Kind, content: string)
    requires needle != [] && !kind.Append?
    ensures Placed(text, needle, recovered, kind, content).Resolved? <==> exists at :: Unique(text, needle, at)
  {
    if at: nat :| Unique(text, needle, at) { PlacedAt(text, needle, recovered, kind, content, at); }
    var first := FindFrom(text, needle, 0);
    if first <= |text| { UniqueIff(text, needle, first); }
  }

  /** What is left of the text around a match, with the replacement in between. */
  function Spliced(text: string, at: int, needle: string, middle: string): string
    requires 0 <= at && at + |needle| <= |text|
  {
    text[..at] + middle + text[at + |needle|..]
  }

  /** A targeted edit succeeds exactly when its needle has a unique match, and then one range of
      the text is replaced and every other character stays. */
  lemma {:induction false} ResolveIffUnique(text: string, request: Request)
    requires request.target.Some? && request.target.value != [] && !request.kind.Append?
    ensures var (needle, recovered) := Needle(text, request.target.value);
      && (Resolve(text, request).Resolved? <==> needle != [] && exists at :: Unique(text, needle, at))
      && (forall at :: needle != [] && Unique(text, needle, at) ==>
            Resolve(text, request) ==
            Resolved(Spliced(text, at, needle, Around(request.kind, needle, request.content)), recovered))
  {
    var (needle, recovered) := Needle(text, request.target.value);
    if needle != [] {
      PlacedIff(text, needle, recovered, request.kind, request.content);
      forall at | Unique(text, needle, at)
        ensures Placed(text, needle, recovered, request.kind, request.content) ==
          Resolved(Spliced(text, at, needle, Around(request.kind, needle, request.content)), recovered)
      {
        PlacedAt(text, needle, recovered, request.kind, request.content, at);
      }
    }
  }

  lemma SpliceForms(text: string, needle: string, at: nat, content: string)
    requires OccursAt(text, needle, at)
    ensures text[..at] + content + text[at..] == text[..at] + (content + needle) + text[at + |needle|..]
    ensures text[..at + |needle|] + content + text[at + |needle|..] ==
      text[..at] + (needle + content) + text[at + |needle|..]
  {
    assert text[at..] == text[at..at + |needle|] + text[at + |needle|..];
    assert text[..at + |needle|] == text[..at] + text[at..at + |needle|];
  }

  lemma PlacedInserts(text: string, needle: string, recovered: bool, content: string)
    requires needle != []
    ensures Placed(text, needle, recovered, InsertBefore, content) ==
      Placed(text, needle, recovered, Replace, content + needle)
    ensures Placed(text, needle, recovered, InsertAfter, content) ==
      Placed(text, needle, recovered, Replace, needle + content)
  {
    var at := FindFrom(text, needle, 0);
    if at <= |text| { SpliceForms(text, needle, at, content); }
  }

  /** An insert is a replace that puts the needle back. */
  lemma {:induction false} InsertsAreReplaces(text: string, request: Request)
    requires request.target.Some? && request.target.value != []
    requires request.kind.InsertBefore? || request.kind.InsertAfter?
    ensures var needle := Needle(text, request.target.value).0;
      Resolve(text, request) ==
      Resolve(text, request.(kind := Replace, content := Around(request.kind, needle, request.content)))
  {
    var (needle, recovered) := Needle(text, request.target.value);
    if needle != [] { PlacedInserts(text, needle, recovered, request.content); }
  }

  lemma NeedleItself(text: string, part: string, at: nat)
    requires OccursAt(text, part, at)
    ensures Needle(text, part) == (part, false)
  {}

  lemma SplicedParts(text: string, at: nat, matched: string, content: string)
    requires at + |matched| <= |text|
    ensures var next := Spliced(text, at, matched, content);
      OccursAt(next, content, at) && next[..at] == text[..at] && next[at + |content|..] == text[at + |matched|..]
  {}

  /** Where the reverse splice goes elsewhere and still gives the text back, the text has the matched
      needle there as well. */
  lemma ElsewhereMatches(text: string, at: nat, matched: string, content: string, p: nat)
    requires OccursAt(text, matched, at) && OccursAt(Spliced(text, at, matched, content), content, p)
    requires Spliced(Spliced(text, at, matched, content), p, content, matched) == text
    ensures OccursAt(text, matched, p)
  {
    SplicedParts(Spliced(text, at, matched, content), p, content, matched);
  }

  lemma ReverseAt(text: string, matched: string, content: string, at: nat)
    requires matched != [] && content != [] && OccursAt(text, matched, at)
    requires Unique(Spliced(text, at, matched, content), content, at)
    ensures Placed(Spliced(text, at, matched, content), content, false, Replace, matched) == Resolved(text, false)
  {
    var next := Spliced(text, at, matched, content);
    SplicedParts(text, at, matched, content);
    PlacedAt(next, content, false, Replace, matched, at);
    assert text == text[..at] + matched + text[at + |matched|..];
  }

  lemma {:induction false} ReverseMustBeAt(text: string, matched: string, content: string, at: nat)
    requires matched != [] && content != [] && Unique(text, matched, at)
    requires Placed(Spliced(text, at, matched, content), content, false, Replace, matched) == Resolved(text, false)
    ensures Unique(Spliced(text, at, matched, content), content, at)
  {
    var next := Spliced(text, at, matched, content);
    SplicedParts(text, at, matched, content);
    PlacedIff(next, content, false, Replace, matched);
    var p: nat :| Unique(next, content, p);
    PlacedAt(next, content, false, Replace, matched, p);
    ElsewhereMatches(text, at, matched, content, p);
  }

  /** A replace, by a recovered needle or not, is undone by the reverse exact replace, of the content
      by what was matched, if and only if the content is not empty and, where it was put, is the
      unique match in the new text: nothing starts a match to its left, and no match clears it. */
  lemma {:induction false} ReversesIff(
    text: string, target: string, content: string, expected: Option<string>, at: nat)
    requires target != [] && Needle(text, target).0 != [] && Unique(text, Needle(text, target).0, at)
    ensures var matched := Needle(text, target).0; var next := Spliced(text, at, matched, content);
      && Resolve(text, Request(Replace, expected, Some(target), content)) ==
          Resolved(next, Needle(text, target).1)
      && (Resolve(next, Request(Replace, expected, Some(content), matched)) == Resolved(text, false) <==>
          content != [] && Unique(next, content, at))
  {
    var (matched, recovered) := Needle(text, target);
    PlacedAt(text, matched, recovered, Replace, content, at);
    if content != [] {
      SplicedParts(text, at, matched, content);
      var next := Spliced(text, at, matched, content);
      NeedleItself(next, content, at);
      if Unique(next, content, at) {
        ReverseAt(text, matched, content, at);
      } else if Placed(next, content, false, Replace, matched) == Resolved(text, false) {
        ReverseMustBeAt(text, matched, content, at);
      }
    }
  }

  /** No two occurrences, overlaps counted. */
  ghost predicate OccursOnce(text: string, part: string) {
    forall i, j :: OccursAt(text, part, i) && OccursAt(text, part, j) ==> i == j
  }

  /** It is enough that the new content is not empty and occurs nowhere else, overlaps counted. */
  lemma {:induction false} ReverseRestores(text: string, target: string, content: string, expected: Option<string>)
    requires target != [] && content != []
    requires Resolve(text, Request(Replace, expected, Some(target), content)).Resolved?
    requires OccursOnce(Resolve(text, Request(Replace, expected, Some(target), content)).next, content)
    ensures var next := Resolve(text, Request(Replace, expected, Some(target), content)).next;
      var matched := Needle(text, target).0;
      && (Contains(text, target) ==> matched == target)
      && Resolve(next, Request(Replace, expected, Some(content), matched)) == Resolved(text, false)
  {
    var (matched, recovered) := Needle(text, target);
    PlacedIff(text, matched, recovered, Replace, content);
    var at: nat :| Unique(text, matched, at);
    ReversesIff(text, target, content, expected, at);
    SplicedParts(text, at, matched, content);
    var next := Spliced(text, at, matched, content);
    assert forall k :: OccursAt(next, content, k) ==> k == at;
  }

  /** An edit that is not undone: the new content matches once from the left, but not where it was put. */
  lemma {:induction false} ReverseNeedsUniqueness()
    ensures Resolve("axa", Request(Replace, None, Some("xa"), "aa")) == Resolved("aaa", false)
    ensures Resolve("aaa", Request(Replace, None, Some("aa"), "xa")) == Resolved("xaa", false)
  {
    assert "axa"[0..2][0] == 'a' && "axa"[1..3] == "xa";
    assert !OccursAt("axa", "xa", 0) && OccursAt("axa", "xa", 1);
    assert FindFrom("axa", "xa", 0) == 1 && FindFrom("axa", "xa", 3) == 4;
    assert "aaa"[0..2] == "aa";
    assert OccursAt("aaa", "aa", 0) && !OccursAt("aaa", "aa", 2) && !OccursAt("aaa", "aa", 3);
    assert FindFrom("aaa", "aa", 0) == 0 && FindFrom("aaa", "aa", 2) == 4;
    assert "axa"[..1] + "aa" + "axa"[3..] == "aaa";
    assert "aaa"[..0] + "xa" + "aaa"[2..] == "xaa";
  }

  /** Occurring once is more than it takes: here the new content occurs twice, the second time
      overlapping itself, and the edit is undone. */
  lemma {:induction false} ReverseDespiteOverlap()
    ensures !OccursOnce("aaa", "aa")
    ensures Resolve("ba", Request(Replace, None, Some("b"), "aa")) == Resolved("aaa", false)
    ensures Resolve("aaa", Request(Replace, None, Some("aa"), "b")) == Resolved("ba", false)
  {
    assert OccursAt("aaa", "aa", 0) && OccursAt("aaa", "aa", 1);
    assert "ba"[0..1] == "b" && OccursAt("ba", "b", 0);
    forall k | OccursAt("ba", "b", k) ensures k == 0 { assert "ba"[k..k + 1][0] == "ba"[k]; }
    assert Unique("ba", "b", 0);
    assert forall k :: OccursAt("aaa", "aa", k) ==> 0 <= k < 2;
    NeedleItself("ba", "b", 0);
    assert Spliced("ba", 0, "b", "aa") == "aaa";
    ReversesIff("ba", "b", "aa", None, 0);
  }

  // ---- the line-ending recovery ----

  predicate HasCrlf(s: string) {
    exists i :: 0 <= i < |s| - 1 && s[i] == '\r' && s[i + 1] == '\n'
  }

  lemma ContainsCrlf(s: string)
    ensures Contains(s, "\r\n") <==> HasCrlf(s)
  {
    var i := FindFrom(s, "\r\n", 0);
    if i <= |s| { assert s[i..i + 2][0] == '\r' && s[i..i + 2][1] == '\n'; }
    if HasCrlf(s) {
      var j :| 0 <= j < |s| - 1 && s[j] == '\r' && s[j + 1] == '\n';
      assert s[j..j + 2] == "\r\n";
      assert OccursAt(s, "\r\n", j);
    }
  }

  lemma HasCrlfTail(s: string)
    requires s != []
    ensures HasCrlf(s[1..]) ==> HasCrlf(s)
  {
    if i :| 0 <= i < |s[1..]| - 1 && s[1..][i] == '\r' && s[1..][i + 1] == '\n' {
      assert s[i + 1] == '\r' && s[i + 1 + 1] == '\n';
    }
  }

  lemma {:induction false} ToLfUndoesToCrlf(s: string)
    requires !HasCrlf(s)
    ensures ToLf(ToCrlf(s)) == s
  {
    if s != [] {
      HasCrlfTail(s);
      ToLfUndoesToCrlf(s[1..]);
      var rest := ToCrlf(s[1..]);
      assert s[0] == '\r' && |s| > 1 ==> s[1] != '\n';
      if s[0] == '\n' {
        assert ToCrlf(s) == ['\r', '\n'] + rest && ToCrlf(s)[2..] == rest;
      } else {
        assert ToCrlf(s) == [s[0]] + rest && ToCrlf(s)[1..] == rest;
        if rest != [] { assert rest[0] == if s[1] == '\n' then '\r' else s[1]; }
      }
      assert s == [s[0]] + s[1..];
    }
  }

  /** A recovered needle differs from the target in line endings only: folding `\r\n` to `\n`
      turns one of the two into the other. */
  lemma {:induction false} RecoveryKeepsLines(text: string, target: string)
    requires Needle(text, target).1
    ensures var needle := Needle(text, target).0;
      !Contains(text, target) && (ToLf(needle) == target || ToLf(target) == needle)
  {
    ContainsCrlf(target);
    if !HasCrlf(target) { ToLfUndoesToCrlf(target); }
  }

  // ---- exactly what a target resolves to ----

  /** Lines with a separator between each two. */
  function Joined(lines: seq<string>, separator: string): string {
    if lines == [] then ""
    else if |lines| == 1 then lines[0]
    else lines[0] + (separator + Joined(lines[1..], separator))
  }

  ghost predicate Free(lines: seq<string>, part: string) {
    forall i :: 0 <= i < |lines| ==> !Contains(lines[i], part)
  }

  /** `b` is `a` with every `before` made an `after`, and nothing else changed. */
  ghost predicate Relined(a: string, b: string, before: string, after: string) {
    exists lines :: Free(lines, before) && a == Joined(lines, before) && b == Joined(lines, after)
  }

  /** What is looked for in the text: the target itself, or else the target in the text's line ends. */
  ghost predicate Sought(text: string, target: string, needle: string, recovered: bool) {
    if Contains(text, target) then needle == target && !recovered
    else if Contains(target, "\n") && !Contains(target, "\r\n") && Contains(text, "\r\n") then
      recovered && Relined(target, needle, "\n", "\r\n")
    else recovered && Contains(target, "\r\n") && Relined(target, needle, "\r\n", "\n")
  }

  lemma {:induction false} SplitLines(s: string, separator: string) returns (lines: seq<string>)
    requires separator != ""
    ensures lines != [] && Free(lines, separator) && s == Joined(lines, separator)
    decreases |s|
  {
    var at := FindFrom(s, separator, 0);
    if at > |s| {
      lines := [s];
    } else {
      var head, rest := s[..at], s[at + |separator|..];
      forall k | OccursAt(head, separator, k) ensures false {
        assert s[k..k + |separator|] == head[k..k + |separator|];
        assert OccursAt(s, separator, k);
      }
      var more := SplitLines(rest, separator);
      lines := [head] + more;
      assert lines[1..] == more;
      assert s == head + (s[at..at + |separator|] + rest);
    }
  }

  lemma {:induction false} ToCrlfSkips(a: string, b: string)
    requires !Contains(a, "\n")
    ensures ToCrlf(a + b) == a + ToCrlf(b)
  {
    if a == "" {
      assert a + b == b;
    } else {
      assert OccursAt(a, "\n", 0) <==> a[0] == '\n' by { assert a[0..1] == [a[0]]; }
      assert (a + b)[1..] == a[1..] + b;
      TailFree(a, "\n");
      ToCrlfSkips(a[1..], b);
      assert [a[0]] + (a[1..] + ToCrlf(b)) == a + ToCrlf(b);
    }
  }

  lemma TailFree(a: string, part: string)
    requires a != "" && !Contains(a, part)
    ensures !Contains(a[1..], part)
  {
    forall k | OccursAt(a[1..], part, k) ensures false {
      assert a[k + 1..k + 1 + |part|] == a[1..][k..k + |part|];
      assert OccursAt(a, part, k + 1);
    }
  }

  lemma ToCrlfEnd(rest: string)
    ensures ToCrlf("\n" + rest) == "\r\n" + ToCrlf(rest)
  {
    assert ("\n" + rest)[1..] == rest;
  }

  lemma {:induction false} ToCrlfRelines(lines: seq<string>)
    requires Free(lines, "\n")
    ensures ToCrlf(Joined(lines, "\n")) == Joined(lines, "\r\n")
    decreases |lines|
  {
    if lines != [] {
      assert lines[0] + "" == lines[0];
      ToCrlfSkips(lines[0], "");
      if |lines| > 1 {
        ToCrlfSkips(lines[0], "\n" + Joined(lines[1..], "\n"));
        ToCrlfEnd(Joined(lines[1..], "\n"));
        ToCrlfRelines(lines[1..]);
      }
    }
  }

  lemma CrlfAt(s: string)
    ensures OccursAt(s, "\r\n", 0) <==> |s| >= 2 && s[0] == '\r' && s[1] == '\n'
  {
    if |s| >= 2 { assert s[0..2] == [s[0], s[1]]; }
  }

  lemma {:induction false} ToLfSkips(a: string, b: string)
    requires !Contains(a, "\r\n") && (b == "" || "\r\n" <= b)
    ensures ToLf(a + b) == a + ToLf(b)
  {
    if a == "" {
      assert a + b == b;
    } else {
      CrlfAt(a);
      var s := a + b;
      assert |a| >= 2 ==> s[1] == a[1];
      assert |a| == 1 && b != "" ==> s[1] == b[0] == '\r';
      assert s[1..] == a[1..] + b;
      TailFree(a, "\r\n");
      ToLfSkips(a[1..], b);
      assert [a[0]] + (a[1..] + ToLf(b)) == a + ToLf(b);
    }
  }

  lemma ToLfEnd(rest: string)
    ensures ToLf("\r\n" + rest) == "\n" + ToLf(rest)
  {
    assert ("\r\n" + rest)[2..] == rest;
  }

  lemma {:induction false} ToLfRelines(lines: seq<string>)
    requires Free(lines, "\r\n")
    ensures ToLf(Joined(lines, "\r\n")) == Joined(lines, "\n")
    decreases |lines|
  {
    if lines != [] {
      assert lines[0] + "" == lines[0];
      ToLfSkips(lines[0], "");
      if |lines| > 1 {
        ToLfSkips(lines[0], "\r\n" + Joined(lines[1..], "\r\n"));
        ToLfEnd(Joined(lines[1..], "\r\n"));
        ToLfRelines(lines[1..]);
      }
    }
  }

  lemma RelinedIff(a: string, b: string)
    ensures Relined(a, b, "\n", "\r\n") <==> b == ToCrlf(a)
    ensures Relined(a, b, "\r\n", "\n") <==> b == ToLf(a)
  {
    forall lines | Free(lines, "\n") && a == Joined(lines, "\n") ensures ToCrlf(a) == Joined(lines, "\r\n") {
      ToCrlfRelines(lines);
    }
    forall lines | Free(lines, "\r\n") && a == Joined(lines, "\r\n") ensures ToLf(a) == Joined(lines, "\n") {
      ToLfRelines(lines);
    }
    var l := SplitLines(a, "\n");
    var m := SplitLines(a, "\r\n");
  }

  /** What is sought is what the search uses. */
  lemma SoughtIff(text: string, target: string, needle: string, recovered: bool)
    requires target != ""
    ensures Sought(text, target, needle, recovered) <==> needle != "" && Needle(text, target) == (needle, recovered)
  {
    RelinedIff(target, needle);
    ToLfNotEmpty(target);
  }

  lemma ToLfNotEmpty(s: string)
    ensures s != "" ==> ToLf(s) != "" && ToCrlf(s) != ""
  {}

  /** The needle occurs again past one of its matches. */
  ghost predicate Again(text: string, needle: string) {
    exists i, j :: OccursAt(text, needle, i) && OccursAt(text, needle, j) && i + |needle| <= j
  }

  /** A targeted edit by the text and the target alone. It replaces one range at the unique match of what
      is sought, it is refused as ambiguous when that occurs again past a match, and as missing when it
      does not occur. */
  lemma {:induction false} ResolvesExactly(text: string, request: Request, needle: string, recovered: bool)
    requires request.target.Some? && request.target.value != "" && !request.kind.Append?
    requires Sought(text, request.target.value, needle, recovered)
    ensures forall at :: Unique(text, needle, at) ==>
      Resolve(text, request) ==
      Resolved(Spliced(text, at, needle, Around(request.kind, needle, request.content)), recovered)
    ensures !Contains(text, needle) ==> Resolve(text, request) == Refused(MissingTarget)
    ensures Again(text, needle) ==> Resolve(text, request) == Refused(AmbiguousTarget)
  {
    SoughtIff(text, request.target.value, needle, recovered);
    ResolveIffUnique(text, request);
    PlacedRefuses(text, needle, recovered, request.kind, request.content);
  }

  /** Where there is nothing to be sought, the target is missing. */
  lemma NothingSought(text: string, request: Request)
    requires request.target.Some? && request.target.value != ""
    requires forall needle, recovered :: !Sought(text, request.target.value, needle, recovered)
    ensures Resolve(text, request) == Refused(MissingTarget)
  {
    var (needle, recovered) := Needle(text, request.target.value);
    SoughtIff(text, request.target.value, needle, recovered);
  }

  lemma PlacedRefuses(text: string, needle: string, recovered: bool, kind: Kind, content: string)
    requires needle != "" && !kind.Append?
    ensures !Contains(text, needle) ==> Placed(text, needle, recovered, kind, content) == Refused(MissingTarget)
    ensures Again(text, needle) ==> Placed(text, needle, recovered, kind, content) == Refused(AmbiguousTarget)
  {
    var first := FindFrom(text, needle, 0);
    if first <= |text| { assert OccursAt(text, needle, first); }
    if i, j :| OccursAt(text, needle, i) && OccursAt(text, needle, j) && i + |needle| <= j {
      assert first <= i;
      assert FindFrom(text, needle, first + |needle|) <= j;
    }
  }

  /** The three outcomes are all there are: what is sought is one text, and it occurs not at all, again
      past a match, or uniquely. */
  lemma {:induction false} OutcomesAreAll(text: string, target: string, needle: string, recovered: bool)
    requires target != "" && Sought(text, target, needle, recovered)
    ensures forall n, r :: Sought(text, target, n, r) ==> n == needle && r == recovered
    ensures !Contains(text, needle) || Again(text, needle) || exists at :: Unique(text, needle, at)
  {
    forall n, r ensures Sought(text, target, n, r) <==> n != "" && (n, r) == Needle(text, target) {
      SoughtIff(text, target, n, r);
    }
    var first := FindFrom(text, needle, 0);
    if first <= |text| {
      UniqueIff(text, needle, first);
      var second := FindFrom(text, needle, first + |needle|);
      if second <= |text| { assert OccursAt(text, needle, second); }
    }
  }
}
