/** The incremental event-stream decoder of `src/provider_loop.rs`, fed with arbitrary chunks. */
module Sse {
  import opened Options
  import opened Utf8

  const LF := 10
  const CR := 13
  const DATA: Bytes := [100, 97, 116, 97, 58]        // "data:"
  const DONE: Bytes := [91, 68, 79, 78, 69, 93]      // "[DONE]"

  /** `SseAccumulator`. Text is kept as its UTF-8 bytes. */
  datatype Acc = Acc(raw: Bytes, text: Text)
  datatype Text = Text(line: Bytes, data: seq<Bytes>, done: bool)

  /** Events produced on the way to a new state, or a payload that is not JSON. */
  datatype Reply<S, V> = Reply(state: S, events: seq<V>) | Bad

  // ---- one line, one byte ----

  predicate StartsWith(s: Bytes, p: Bytes) {
    |p| <= |s| && s[..|p|] == p
  }

  /** `trim_end_matches('\r')`. */
  function TrimCr(s: Bytes): Bytes {
    if s != [] && s[|s| - 1] == CR then TrimCr(s[..|s| - 1]) else s
  }

  /** Length of the white space character a text starts with, 0 for any other start. */
  function SpaceAhead(s: Bytes): (n: nat)
    ensures n <= |s|
  {
    if s == [] then 0
    else if 9 <= s[0] <= 13 || s[0] == 32 then 1
    else if |s| >= 2 && s[0] == 0xC2 && s[1] in {0x85, 0xA0} then 2
    else if |s| >= 3 && s[..3] == [0xE1, 0x9A, 0x80] then 3
    else if |s| >= 3 && s[0] == 0xE2 && s[1] == 0x80 && (0x80 <= s[2] <= 0x8A || s[2] in {0xA8, 0xA9, 0xAF}) then 3
    else if |s| >= 3 && (s[..3] == [0xE2, 0x81, 0x9F] || s[..3] == [0xE3, 0x80, 0x80]) then 3
    else 0
  }

  predicate Blank(s: Bytes)
    decreases |s|
  {
    s == [] || (SpaceAhead(s) > 0 && Blank(s[SpaceAhead(s)..]))
  }

  /** `payload.trim() == "[DONE]"`. */
  predicate IsDone(payload: Bytes)
    decreases |payload|
  {
    if SpaceAhead(payload) > 0 then IsDone(payload[SpaceAhead(payload)..])
    else StartsWith(payload, DONE) && Blank(payload[|DONE|..])
  }

  function Join(lines: seq<Bytes>): Bytes {
    if lines == [] then []
    else if |lines| == 1 then lines[0]
    else lines[0] + [LF] + Join(lines[1..])
  }

  function EndEvent<V>(parse: Bytes -> Option<V>, t: Text): Reply<Text, V> {
    if t.data == [] then Reply(t, [])
    else
      var payload := Join(t.data);
      var clear := t.(data := []);
      if IsDone(payload) then Reply(clear.(done := true), [])
      else match parse(payload)
        case None => Bad
        case Some(value) => Reply(clear, [value])
  }

  function StripSpace(s: Bytes): Bytes {
    if s != [] && s[0] == 32 then s[1..] else s
  }

  function HandleLine<V>(parse: Bytes -> Option<V>, t: Text, line: Bytes): Reply<Text, V> {
    if line == [] then EndEvent(parse, t)
    else if StartsWith(line, DATA) then Reply(t.(data := t.data + [StripSpace(line[|DATA|..])]), [])
    else Reply(t, [])
  }

  function Push<V>(parse: Bytes -> Option<V>, t: Text, b: int): Reply<Text, V> {
    if b == LF then HandleLine(parse, t.(line := []), TrimCr(t.line))
    else Reply(t.(line := t.line + [b]), [])
  }

  function Then<S, V>(events: seq<V>, rest: Reply<S, V>): Reply<S, V> {
    if rest.Bad? then Bad else Reply(rest.state, events + rest.events)
  }

  /** The decoder one byte at a time: the reference all chunkings are measured against. */
  function Fold<V>(parse: Bytes -> Option<V>, t: Text, s: Bytes): Reply<Text, V>
    decreases |s|
  {
    if s == [] then Reply(t, [])
    else
      var first := Push(parse, t, s[0]);
      if first.Bad? then Bad else Then(first.events, Fold(parse, first.state, s[1..]))
  }

  /** `finish`: a residue without a newline is a last line, and a last event needs no blank line. */
  function Flush<V>(parse: Bytes -> Option<V>, t: Text): Reply<Text, V> {
    var last := if t.line == [] then Reply(t, []) else HandleLine(parse, t.(line := []), TrimCr(t.line));
    if last.Bad? then Bad else Then(last.events, EndEvent(parse, last.state))
  }

  /** One whole-body decode. */
  function Whole<V>(parse: Bytes -> Option<V>, body: Bytes): Option<seq<V>> {
    var all := Fold(parse, START, body);
    if all.Bad? then None else Ending(parse, all.state, all.events)
  }

  const START := Text([], [], false)

  function Ending<V>(parse: Bytes -> Option<V>, t: Text, events: seq<V>): Option<seq<V>> {
    var flushed := Flush(parse, t);
    if flushed.Bad? then None else Some(events + flushed.events)
  }

  /** `consume`. */
  function Feed<V>(parse: Bytes -> Option<V>, acc: Acc, chunk: Bytes): Reply<Acc, V> {
    var raw := acc.raw + chunk;
    var v := ValidUpTo(raw);
    var folded := Fold(parse, acc.text, raw[..v]);
    if folded.Bad? then Bad else Reply(Acc(raw[v + Skip(raw)..], folded.state), folded.events)
  }

  /** A round in event-stream mode: chunks are read until `[DONE]` was seen or they run out. */
  function Round<V>(parse: Bytes -> Option<V>, acc: Acc, chunks: seq<Bytes>, events: seq<V>): Option<seq<V>>
    decreases |chunks|
  {
    if chunks == [] then Ending(parse, acc.text, events)
    else
      var fed := Feed(parse, acc, chunks[0]);
      if fed.Bad? then None
      else if fed.state.text.done then Ending(parse, fed.state.text, events + fed.events)
      else Round(parse, fed.state, chunks[1..], events + fed.events)
  }

  // ---- the implementation ----

  predicate NoLf(s: Bytes) {
    LF !in s
  }

  class SseAccumulator {
    var raw: Bytes
    var line: Bytes
    var data: seq<Bytes>
    var done: bool

    ghost predicate Valid() reads this {
      NoLf(line)
    }

    ghost function View(): Acc reads this {
      Acc(raw, Text(line, data, done))
    }

    constructor ()
      ensures Valid() && View() == Acc([], START)
    {
      raw, line, data, done := [], [], [], false;
    }

    /** `None` is the error of a payload that is not JSON; it ends the round. */
    method Consume<V>(parse: Bytes -> Option<V>, chunk: Bytes) returns (events: Option<seq<V>>)
      requires Valid()
      modifies this
      ensures var fed := Feed(parse, old(View()), chunk);
        if fed.Bad? then events.None? else Valid() && View() == fed.state && events == Some(fed.events)
    {
      raw := raw + chunk;
      var v, k := ValidUpTo(raw), Skip(raw);
      var decoded := raw[..v];
      raw := raw[v + k..];
      ghost var before := Text(line, data, done);
      FoldCarried(parse, before, decoded);
      line := line + decoded;
      events := DrainCompleteLines(parse);
    }

    method DrainCompleteLines<V>(parse: Bytes -> Option<V>) returns (events: Option<seq<V>>)
      modifies this`line, this`data, this`done
      ensures var all := Fold(parse, Text([], old(data), old(done)), old(line));
        if all.Bad? then events.None?
        else Valid() && Text(line, data, done) == all.state && events == Some(all.events)
    {
      var sofar: seq<V> := [];
      var position := FindLf(line);
      ghost var all := Fold(parse, Text([], data, done), line);
      while position < |line|
        invariant position == FindLf(line)
        invariant all == Then(sofar, Fold(parse, Text([], data, done), line))
        decreases |line|
      {
        var text := TrimCr(line[..position]);
        FoldLine(parse, Text([], data, done), line, position);
        ghost var rest := line[position + 1..];
        line := line[position + 1..];
        ghost var handled := HandleLine(parse, Text([], data, done), text);
        var more := Handle(parse, text);
        if more.None? { return None; }
        ThenThen(sofar, handled.events, Fold(parse, Text([], data, done), rest));
        sofar := sofar + more.value;
        position := FindLf(line);
      }
      FoldNoLf(parse, Text([], data, done), line);
      assert [] + line == line && sofar + [] == sofar;
      assert line[..|line|] == line;
      events := Some(sofar);
    }

    method Handle<V>(parse: Bytes -> Option<V>, text: Bytes) returns (events: Option<seq<V>>)
      modifies this`data, this`done
      ensures var handled := HandleLine(parse, Text([], old(data), old(done)), text);
        if handled.Bad? then events.None?
        else Text([], data, done) == handled.state && events == Some(handled.events)
    {
      if text == [] {
        events := Close(parse);
      } else {
        if StartsWith(text, DATA) { data := data + [StripSpace(text[|DATA|..])]; }
        events := Some([]);
      }
    }

    method Close<V>(parse: Bytes -> Option<V>) returns (events: Option<seq<V>>)
      modifies this`data, this`done
      ensures var closed := EndEvent(parse, Text([], old(data), old(done)));
        if closed.Bad? then events.None?
        else Text([], data, done) == closed.state && events == Some(closed.events)
    {
      if data == [] { return Some([]); }
      var payload := Join(data);
      data := [];
      if IsDone(payload) {
        done := true;
        return Some([]);
      }
      var value := parse(payload);
      if value.None? { return None; }
      return Some([value.value]);
    }

    method Finish<V>(parse: Bytes -> Option<V>) returns (events: Option<seq<V>>)
      requires Valid()
      modifies this`line, this`data, this`done
      ensures events == Ending(parse, old(View().text), [])
    {
      FoldNoLf(parse, Text([], data, done), line);
      assert [] + line == line;
      var drained := DrainCompleteLines(parse);
      var residue := line;
      line := [];
      var last: Option<seq<V>> := Some([]);
      if residue != [] { last := Handle(parse, TrimCr(residue)); }
      if last.None? { return None; }
      var closed := Close(parse);
      if closed.None? { return None; }
      events := Some([] + (last.value + closed.value));
    }
  }

  function FindLf(s: Bytes): (i: nat)
    ensures i <= |s|
    ensures i < |s| ==> s[i] == LF
    ensures NoLf(s[..i])
  {
    if s == [] || s[0] == LF then 0 else 1 + FindLf(s[1..])
  }

  lemma ThenThen<S, V>(a: seq<V>, b: seq<V>, r: Reply<S, V>)
    ensures Then(a, Then(b, r)) == Then(a + b, r)
  {
    if r.Reply? { assert a + (b + r.events) == a + b + r.events; }
  }

  lemma ThenNothing<S, V>(r: Reply<S, V>)
    ensures Then([], r) == r
  {}

  lemma NoLfSplits(s: Bytes)
    requires NoLf(s) && s != []
    ensures s[0] != LF && NoLf(s[1..])
  {}

  lemma GrowLine(t: Text, s: Bytes)
    requires s != []
    ensures t.line + [s[0]] + s[1..] == t.line + s
  {}

  /** Text without a newline only lengthens the partial line. */
  lemma {:induction false} FoldNoLf<V>(parse: Bytes -> Option<V>, t: Text, s: Bytes)
    requires NoLf(s)
    ensures Fold(parse, t, s) == Reply(t.(line := t.line + s), [])
    decreases |s|
  {
    if s == [] {
      assert t.line + s == t.line;
    } else {
      var grown := t.(line := t.line + [s[0]]);
      NoLfSplits(s);
      assert Push(parse, t, s[0]) == Reply(grown, []);
      FoldNoLf(parse, grown, s[1..]);
      GrowLine(t, s);
      ThenNothing(Fold(parse, grown, s[1..]));
    }
  }

  /** Decoding is additive. */
  lemma {:induction false} FoldConcat<V>(parse: Bytes -> Option<V>, t: Text, a: Bytes, b: Bytes)
    ensures var first := Fold(parse, t, a);
      Fold(parse, t, a + b) == if first.Bad? then Bad else Then(first.events, Fold(parse, first.state, b))
    decreases |a|
  {
    if a == [] {
      assert a + b == b;
      ThenNothing(Fold(parse, t, b));
    } else {
      assert (a + b)[1..] == a[1..] + b;
      var step := Push(parse, t, a[0]);
      if step.Reply? {
        FoldConcat(parse, step.state, a[1..], b);
        var rest := Fold(parse, step.state, a[1..]);
        if rest.Reply? { ThenThen(step.events, rest.events, Fold(parse, rest.state, b)); }
      }
    }
  }

  /** A carried partial line may as well be decoded again with what follows it. */
  lemma {:induction false} FoldCarried<V>(parse: Bytes -> Option<V>, t: Text, s: Bytes)
    requires NoLf(t.line)
    ensures Fold(parse, t.(line := []), t.line + s) == Fold(parse, t, s)
  {
    FoldConcat(parse, t.(line := []), t.line, s);
    FoldNoLf(parse, t.(line := []), t.line);
    assert [] + t.line == t.line;
    ThenNothing(Fold(parse, t, s));
  }

  lemma {:induction false} FoldLine<V>(parse: Bytes -> Option<V>, t: Text, s: Bytes, i: nat)
    requires t.line == [] && i < |s| && s[i] == LF && NoLf(s[..i])
    ensures var handled := HandleLine(parse, t, TrimCr(s[..i]));
      Fold(parse, t, s) == if handled.Bad? then Bad else Then(handled.events, Fold(parse, handled.state, s[i + 1..]))
  {
    assert s == s[..i] + s[i..] && s[i..][0] == LF && s[i..][1..] == s[i + 1..];
    FoldConcat(parse, t, s[..i], s[i..]);
    FoldNoLf(parse, t, s[..i]);
    assert [] + s[..i] == s[..i];
    ThenNothing(Fold(parse, t.(line := s[..i]), s[i..]));
  }
}
