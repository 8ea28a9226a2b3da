/** The canonical summary of a round, `ChatStreamSummary::apply` of
    `src/openai_compatible/stream.rs`, and what a finished Messages round leaves in it. */
module ChatSummary {
  import opened Options
  import opened AnthropicStream
  import opened AnthropicStreamLaws

  datatype ToolCall = ToolCall(index: nat, id: string, name: string, args: string)

  datatype Summary = Summary(text: string, reasoning: string, calls: seq<ToolCall>)

  const EMPTY := Summary("", "", [])

  /** Where the binary search over the call indices ends. */
  function Position(calls: seq<ToolCall>, k: nat): (p: nat)
    ensures p <= |calls|
  {
    if calls == [] || calls[0].index >= k then 0 else 1 + Position(calls[1..], k)
  }

  function Fresh(k: nat): ToolCall {
    ToolCall(k, "", "", "")
  }

  /** What one event does to the slot of its call. */
  function Told(call: ToolCall, e: Canonical): ToolCall {
    match e
    case ToolStart(k, id, name) =>
      ToolCall(call.index, id, name, if call.id != [] && call.id != id then [] else call.args)
    case ToolArgs(k, id, delta) => call.(id := if call.id == [] then id else call.id, args := call.args + delta)
    case ToolComplete(k, id, name, args) => ToolCall(call.index, id, name, args)
    case _ => call
  }

  function Update(calls: seq<ToolCall>, k: nat, e: Canonical): seq<ToolCall> {
    var p := Position(calls, k);
    if p < |calls| && calls[p].index == k then calls[p := Told(calls[p], e)]
    else calls[..p] + [Told(Fresh(k), e)] + calls[p..]
  }

  function Apply(s: Summary, e: Canonical): Summary {
    match e
    case TextDelta(delta) => s.(text := s.text + delta)
    case ReasoningDelta(delta) => s.(reasoning := s.reasoning + delta)
    case ToolStart(k, _, _) => s.(calls := Update(s.calls, k, e))
    case ToolArgs(k, _, _) => s.(calls := Update(s.calls, k, e))
    case ToolComplete(k, _, _, _) => s.(calls := Update(s.calls, k, e))
    case Metadata => s
    case Failure(_) => s
  }

  function Folded(log: seq<Canonical>): Summary {
    if log == [] then EMPTY else Apply(Folded(log[..|log| - 1]), log[|log| - 1])
  }

  /** The slot of one call, computed from its own events alone. */
  function Tell(story: seq<Canonical>, k: nat): ToolCall {
    if story == [] then Fresh(k) else Told(Tell(story[..|story| - 1], k), story[|story| - 1])
  }

  /** A start that is repeated keeps the arguments so far; that of another call on the slot drops them. */
  lemma StartAgain(call: ToolCall, k: nat, id: string, name: string)
    requires call.id != ""
    ensures Told(call, ToolStart(k, id, name)) ==
      ToolCall(call.index, id, name, if id == call.id then call.args else "")
  {}

  ghost predicate Sorted(calls: seq<ToolCall>) {
    forall i, j :: 0 <= i < j < |calls| ==> calls[i].index < calls[j].index
  }

  predicate Listed(calls: seq<ToolCall>, k: nat) {
    exists i | 0 <= i < |calls| :: calls[i].index == k
  }

  lemma {:induction false} PositionSorted(calls: seq<ToolCall>, k: nat)
    requires Sorted(calls)
    ensures var p := Position(calls, k);
      && (forall i :: 0 <= i < p ==> calls[i].index < k)
      && (forall i :: p <= i < |calls| ==> calls[i].index >= k)
  {
    if calls != [] && calls[0].index < k { PositionSorted(calls[1..], k); }
  }

  /** Interleaving is immaterial: each call's slot is told by that call's events only. */
  ghost predicate Faithful(calls: seq<ToolCall>, log: seq<Canonical>) {
    && Sorted(calls)
    && (forall c :: c in calls ==> c == Tell(Story(log, c.index), c.index))
    && (forall k: nat :: Listed(calls, k) <==> Story(log, k) != [])
  }

  /** An update touches the slot of its own call, inserting it in its place if need be. */
  lemma {:induction false} UpdateShape(calls: seq<ToolCall>, k: nat, e: Canonical)
    requires Sorted(calls) && About(e, k)
    ensures var more := Update(calls, k, e);
      && Sorted(more)
      && Listed(more, k) && (forall j: nat :: j != k ==> (Listed(calls, j) <==> Listed(more, j)))
      && (forall c :: c in more && c.index != k ==> c in calls)
      && (forall c, d :: c in more && c.index == k && d in calls && d.index == k ==> c == Told(d, e))
      && (forall c :: c in more && c.index == k && !Listed(calls, k) ==> c == Told(Fresh(k), e))
  {
    var more := Update(calls, k, e);
    var p := Position(calls, k);
    PositionSorted(calls, k);
    var found := p < |calls| && calls[p].index == k;
    assert more[p].index == k && (found ==> more[p] == Told(calls[p], e)) && (!found ==> more[p] == Told(Fresh(k), e));
    FoundIsListed(calls, k, p);
    UpdateSorted(calls, more, p, found);
    forall j: nat | j != k ensures Listed(calls, j) <==> Listed(more, j) {
      ListedElsewhere(calls, more, p, found, j);
    }
    OwnEntry(calls, more, p, found, k);
  }

  lemma FoundIsListed(calls: seq<ToolCall>, k: nat, p: nat)
    requires Sorted(calls) && p == Position(calls, k)
    ensures Listed(calls, k) <==> p < |calls| && calls[p].index == k
    ensures p < |calls| && calls[p].index == k ==> forall d :: d in calls && d.index == k ==> d == calls[p]
  {
    PositionSorted(calls, k);
  }

  lemma OwnEntry(calls: seq<ToolCall>, more: seq<ToolCall>, p: nat, found: bool, k: nat)
    requires Sorted(more) && p <= |calls| && p < |more| && more[p].index == k && (found ==> p < |calls|)
    requires more == if found then calls[p := more[p]] else calls[..p] + [more[p]] + calls[p..]
    ensures Listed(more, k)
    ensures forall c :: c in more && c.index == k ==> c == more[p]
    ensures forall c :: c in more && c.index != k ==> c in calls
  {
    forall c | c in more && c.index == k ensures c == more[p] {
      var i :| 0 <= i < |more| && more[i] == c;
    }
    forall c | c in more && c.index != k ensures c in calls {
      var i :| 0 <= i < |more| && more[i] == c;
      assert c == calls[if i < p || found then i else i - 1];
    }
  }

  lemma UpdateSorted(calls: seq<ToolCall>, more: seq<ToolCall>, p: nat, found: bool)
    requires Sorted(calls) && p <= |calls| && p < |more| && (found ==> p < |calls| && calls[p].index == more[p].index)
    requires more == if found then calls[p := more[p]] else calls[..p] + [more[p]] + calls[p..]
    requires !found ==> (forall i :: 0 <= i < p ==> calls[i].index < more[p].index)
                        && (forall i :: p <= i < |calls| ==> calls[i].index > more[p].index)
    ensures Sorted(more)
  {}

  lemma StoriesSnoc(log: seq<Canonical>, k: nat, e: Canonical)
    requires About(e, k)
    ensures forall j: nat :: Story(log + [e], j) == if j == k then Story(log, j) + [e] else Story(log, j)
  {
    forall j: nat ensures Story(log + [e], j) == if j == k then Story(log, j) + [e] else Story(log, j) {
      StorySnoc(log, e, j);
    }
  }

  lemma OwnTold(calls: seq<ToolCall>, log: seq<Canonical>, k: nat, e: Canonical, c: ToolCall)
    requires Faithful(calls, log) && About(e, k) && c in Update(calls, k, e) && c.index == k
    ensures c == Tell(Story(log, k) + [e], k)
  {
    UpdateShape(calls, k, e);
    var story := Story(log, k);
    assert (story + [e])[..|story|] == story;
    assert Listed(calls, k) <==> story != [];
    if Listed(calls, k) {
      var i :| 0 <= i < |calls| && calls[i].index == k;
      assert calls[i] in calls;
    }
  }

  lemma {:induction false} UpdateFaithful(calls: seq<ToolCall>, log: seq<Canonical>, k: nat, e: Canonical)
    requires Faithful(calls, log) && About(e, k)
    ensures Faithful(Update(calls, k, e), log + [e])
  {
    var more := Update(calls, k, e);
    UpdateShape(calls, k, e);
    StoriesSnoc(log, k, e);
    forall c | c in more ensures c == Tell(Story(log + [e], c.index), c.index) {
      if c.index == k { OwnTold(calls, log, k, e, c); } else { assert c in calls; }
    }
    forall j: nat ensures Listed(more, j) <==> Story(log + [e], j) != [] {
      assert Listed(calls, j) <==> Story(log, j) != [];
    }
  }

  lemma ListedElsewhere(calls: seq<ToolCall>, more: seq<ToolCall>, p: nat, found: bool, j: nat)
    requires p <= |calls| && p < |more| && more[p].index != j && (found ==> p < |calls| && calls[p].index != j)
    requires more == if found then calls[p := more[p]] else calls[..p] + [more[p]] + calls[p..]
    ensures Listed(calls, j) <==> Listed(more, j)
  {
    if Listed(calls, j) {
      var i :| 0 <= i < |calls| && calls[i].index == j;
      assert more[if i < p || found then i else i + 1] == calls[i];
    }
    if Listed(more, j) {
      var i :| 0 <= i < |more| && more[i].index == j;
      assert more[i] == calls[if i < p || found then i else i - 1];
    }
  }

  lemma {:induction false} FoldedFaithful(log: seq<Canonical>)
    ensures Faithful(Folded(log).calls, log)
  {
    if log != [] {
      var n := |log| - 1;
      FoldedFaithful(log[..n]);
      var e := log[n];
      assert log[..n] + [e] == log;
      if e.ToolStart? || e.ToolArgs? || e.ToolComplete? {
        UpdateFaithful(Folded(log[..n]).calls, log[..n], e.index, e);
      } else {
        UnrelatedEmission(log[..n], e);
      }
    }
  }

  lemma {:induction false} TellOpen(story: seq<Canonical>, k: nat, id: string, name: string, args: string)
    requires Open(story, k, id, name, args)
    ensures Tell(story, k) == ToolCall(k, id, name, args)
    decreases |story|
  {
    if |story| == 1 {
      assert story[..0] == [];
    } else {
      var delta := story[|story| - 1].delta;
      TellOpen(story[..|story| - 1], k, id, name, args[..|args| - |delta|]);
      assert args[..|args| - |delta|] + delta == args;
    }
  }

  lemma TellComplete(story: seq<Canonical>, k: nat)
    requires Complete(story, k)
    ensures var last := story[|story| - 1]; Tell(story, k) == ToolCall(k, last.id, last.name, last.args)
  {
    var last := story[|story| - 1];
    var args :| Open(story[..|story| - 1], k, last.id, last.name, args);
    TellOpen(story[..|story| - 1], k, last.id, last.name, args);
  }

  lemma ListedFront(calls: seq<ToolCall>, k: nat)
    requires calls != [] && Sorted(calls)
    ensures var m := |calls| - 1; Listed(calls[..m], k) <==> Listed(calls, k) && k != calls[m].index
  {
    var m := |calls| - 1;
    if Listed(calls, k) && k != calls[m].index {
      var i :| 0 <= i < |calls| && calls[i].index == k;
      assert calls[..m][i].index == k;
    }
    if Listed(calls[..m], k) {
      var i :| 0 <= i < m && calls[..m][i].index == k;
      assert calls[i].index == k;
    }
  }

  /** Indices 0 to n-1, each listed once and in order, are the positions. */
  lemma {:induction false} SortedIsDense(calls: seq<ToolCall>, n: nat)
    requires Sorted(calls) && forall k: nat :: Listed(calls, k) <==> k < n
    ensures |calls| == n && forall i :: 0 <= i < n ==> calls[i].index == i
    decreases n
  {
    if n == 0 {
      if calls != [] { assert Listed(calls, calls[0].index); }
    } else {
      assert Listed(calls, n - 1);
      var m := |calls| - 1;
      assert Listed(calls, calls[m].index);
      assert calls[m].index == n - 1;
      forall k: nat ensures Listed(calls[..m], k) <==> k < n - 1 {
        ListedFront(calls, k);
      }
      SortedIsDense(calls[..m], n - 1);
      assert calls == calls[..m] + [calls[m]];
    }
  }

  lemma {:induction false} StartHasStory(log: seq<Canonical>, k: nat)
    requires k in Starts(log)
    ensures Story(log, k) != []
  {
    var n := |log| - 1;
    if !(log[n].ToolStart? && log[n].index == k) { StartHasStory(log[..n], k); }
  }

  lemma EveryStartListed(core: Core, log: seq<Canonical>, k: nat)
    requires Inv(core, log)
    ensures Story(log, k) != [] <==> k < core.next
  {
    if k < core.next {
      assert Iota(core.next)[k] == k;
      StartHasStory(log, k);
    }
  }

  /** What a finished round hands on: one tool call per start, in order of their numbers, told by its
      own events alone; a completed one has the id, name and arguments its completion announced, and
      without a reused index all of them are completed. */
  lemma {:induction false} FinishedRoundCalls(events: seq<Event>)
    requires Run(NEW, [], events).Ran? && Finishes(Run(NEW, [], events).core)
    ensures var r := Run(NEW, [], events); var calls := Folded(r.log).calls;
      && |calls| == r.core.next
      && (forall k: nat :: k < r.core.next ==> calls[k] == Tell(Story(r.log, k), k))
      && (forall k: nat :: k < r.core.next && Completed(r.log, k) ==>
            var last := Story(r.log, k)[|Story(r.log, k)| - 1];
            last.ToolComplete? && calls[k] == ToolCall(k, last.id, last.name, last.args))
      && (NoReuse(NEW, events) <==> forall k: nat :: k < r.core.next ==> Completed(r.log, k))
  {
    var r := Run(NEW, [], events);
    var calls := Folded(r.log).calls;
    ToolCallsReassembled(events);
    NewInv();
    RunKeepsInv(NEW, [], events);
    FoldedFaithful(r.log);
    forall k: nat ensures Listed(calls, k) <==> k < r.core.next { EveryStartListed(r.core, r.log, k); }
    SortedIsDense(calls, r.core.next);
    forall k: nat | k < r.core.next ensures calls[k] == Tell(Story(r.log, k), k) { assert calls[k] in calls; }
    forall k: nat | k < r.core.next && Completed(r.log, k)
      ensures var last := Story(r.log, k)[|Story(r.log, k)| - 1];
        last.ToolComplete? && calls[k] == ToolCall(k, last.id, last.name, last.args)
    {
      TellComplete(Story(r.log, k), k);
    }
  }
}
