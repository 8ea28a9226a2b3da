/** What recovery may and may not do to a call. */
module CallRecoveryLaws {
  import opened Options
  import opened Strings
  import opened CallSchema
  import opened CallSchemaLaws
  import opened CallRecovery

  // ---- bindings ----

  predicate Establishes(registry: seq<Definition>, call: Call, tool: string, field: string) {
    var b := Established(registry, call);
    b.Some? && b.value.tool == tool && b.value.field == field
  }

  lemma MatchesExtends(bindings: seq<Binding>, b: Binding, tool: string, field: string)
    ensures Matches(bindings + [b], tool, field) ==
      Matches(bindings, tool, field) + if b.tool == tool && b.field == field then [b] else []
  {
    assert (bindings + [b])[..|bindings|] == bindings;
  }

  lemma {:induction false} MatchesMembers(bindings: seq<Binding>, tool: string, field: string, b: Binding)
    ensures b in Matches(bindings, tool, field) <==> b in bindings && b.tool == tool && b.field == field
  {
    if bindings != [] {
      var n := |bindings| - 1;
      MatchesMembers(bindings[..n], tool, field, b);
      assert bindings == bindings[..n] + [bindings[n]];
    }
  }

  /** The values bound for a target: one binding per distinct value, in order of first appearance. */
  ghost predicate Indexes(registry: seq<Definition>, calls: seq<Call>, tool: string, field: string, m: seq<Binding>) {
    && (forall x :: x in m ==>
        exists i :: 0 <= i < |calls| && Establishes(registry, calls[i], tool, field)
          && Established(registry, calls[i]) == Some(x))
    && (forall i :: 0 <= i < |calls| && Establishes(registry, calls[i], tool, field) ==>
        HasValue(m, Established(registry, calls[i]).value.value))
    && (forall i, j :: 0 <= i < j < |m| ==> m[i].value != m[j].value)
    && (m != [] ==>
        exists i :: FirstFor(registry, calls, tool, field, i) && Established(registry, calls[i]) == Some(m[0]))
  }

  ghost predicate HasValue(m: seq<Binding>, v: string) {
    exists i :: 0 <= i < |m| && m[i].value == v
  }

  /** Call `i` is the first to establish the target. */
  ghost predicate FirstFor(registry: seq<Definition>, calls: seq<Call>, tool: string, field: string, i: int) {
    && 0 <= i < |calls| && Establishes(registry, calls[i], tool, field)
    && forall j :: 0 <= j < i ==> !Establishes(registry, calls[j], tool, field)
  }

  lemma BoundIffValue(bindings: seq<Binding>, b: Binding)
    ensures Bound(bindings, b) <==> HasValue(Matches(bindings, b.tool, b.field), b.value)
  {
    var m := Matches(bindings, b.tool, b.field);
    if Bound(bindings, b) {
      var i :| 0 <= i < |bindings| && SameTarget(bindings[i], b);
      MatchesMembers(bindings, b.tool, b.field, bindings[i]);
      var j :| 0 <= j < |m| && m[j] == bindings[i];
      assert m[j].value == b.value;
    }
    if HasValue(m, b.value) {
      var j :| 0 <= j < |m| && m[j].value == b.value;
      MatchesMembers(bindings, b.tool, b.field, m[j]);
      var i :| 0 <= i < |bindings| && bindings[i] == m[j];
      assert SameTarget(bindings[i], b);
    }
  }

  lemma KeepsIndex(
    registry: seq<Definition>, calls: seq<Call>, call: Call, tool: string, field: string, m: seq<Binding>)
    requires Indexes(registry, calls, tool, field, m)
    requires Establishes(registry, call, tool, field) ==> HasValue(m, Established(registry, call).value.value)
    ensures Indexes(registry, calls + [call], tool, field, m)
  {
    var all := calls + [call];
    assert forall i :: 0 <= i < |calls| ==> all[i] == calls[i];
    if m != [] {
      var i :| FirstFor(registry, calls, tool, field, i) && Established(registry, calls[i]) == Some(m[0]);
      assert FirstFor(registry, all, tool, field, i);
    }
    forall x | x in m
      ensures exists i ::
        0 <= i < |all| && Establishes(registry, all[i], tool, field) && Established(registry, all[i]) == Some(x)
    {
      var i :| 0 <= i < |calls| && Establishes(registry, calls[i], tool, field)
        && Established(registry, calls[i]) == Some(x);
      assert all[i] == calls[i];
    }
  }

  lemma GrowsIndex(
    registry: seq<Definition>, calls: seq<Call>, call: Call, tool: string, field: string, m: seq<Binding>, b: Binding)
    requires Indexes(registry, calls, tool, field, m)
    requires Establishes(registry, call, tool, field) && Established(registry, call) == Some(b) && !HasValue(m, b.value)
    ensures Indexes(registry, calls + [call], tool, field, m + [b])
  {
    var all, n := calls + [call], m + [b];
    assert forall i :: 0 <= i < |calls| ==> all[i] == calls[i];
    assert all[|calls|] == call && n[|m|] == b;
    forall i | 0 <= i < |all| && Establishes(registry, all[i], tool, field)
      ensures HasValue(n, Established(registry, all[i]).value.value)
    {
      if i < |calls| {
        var k :| 0 <= k < |m| && m[k].value == Established(registry, calls[i]).value.value;
        assert n[k] == m[k];
      }
    }
    if m != [] {
      var i :| FirstFor(registry, calls, tool, field, i) && Established(registry, calls[i]) == Some(m[0]);
      assert FirstFor(registry, all, tool, field, i) && n[0] == m[0];
    } else {
      assert FirstFor(registry, all, tool, field, |calls|);
    }
    forall x | x in n
      ensures exists i ::
        0 <= i < |all| && Establishes(registry, all[i], tool, field) && Established(registry, all[i]) == Some(x)
    {
      if x in m {
        var i :| 0 <= i < |calls| && Establishes(registry, calls[i], tool, field)
          && Established(registry, calls[i]) == Some(x);
        assert all[i] == calls[i];
      }
    }
  }

  lemma HarvestStep(registry: seq<Definition>, before: seq<Call>, call: Call, tool: string, field: string)
    ensures var m := Matches(Harvest(registry, before), tool, field);
      Matches(Harvest(registry, before + [call]), tool, field) ==
      if Establishes(registry, call, tool, field) && !HasValue(m, Established(registry, call).value.value)
      then m + [Established(registry, call).value] else m
  {
    assert (before + [call])[..|before|] == before;
    var b := Established(registry, call);
    var bindings := Harvest(registry, before);
    if b.Some? {
      BoundIffValue(bindings, b.value);
      MatchesExtends(bindings, b.value, tool, field);
      assert Matches(bindings, tool, field) + [] == Matches(bindings, tool, field);
    }
  }

  lemma {:induction false} HarvestIndexes(registry: seq<Definition>, calls: seq<Call>, tool: string, field: string)
    ensures Indexes(registry, calls, tool, field, Matches(Harvest(registry, calls), tool, field))
  {
    if calls != [] {
      var n := |calls| - 1;
      var before, call := calls[..n], calls[n];
      HarvestIndexes(registry, before, tool, field);
      assert calls == before + [call];
      HarvestStep(registry, before, call, tool, field);
      var m := Matches(Harvest(registry, before), tool, field);
      if Establishes(registry, call, tool, field) && !HasValue(m, Established(registry, call).value.value) {
        GrowsIndex(registry, before, call, tool, field, m, Established(registry, call).value);
      } else {
        KeepsIndex(registry, before, call, tool, field, m);
      }
    }
  }

  ghost predicate Agreed(registry: seq<Definition>, calls: seq<Call>, tool: string, field: string) {
    && (exists i :: 0 <= i < |calls| && Establishes(registry, calls[i], tool, field))
    && forall i, j ::
        0 <= i < |calls| && 0 <= j < |calls|
        && Establishes(registry, calls[i], tool, field) && Establishes(registry, calls[j], tool, field) ==>
          Established(registry, calls[i]).value.value == Established(registry, calls[j]).value.value
  }

  /** A tool's target is bound exactly when its completed calls named it and all named the same
      one; the binding is that of the first such call. */
  lemma {:induction false} BoundIffAgreed(registry: seq<Definition>, calls: seq<Call>, tool: string, field: string)
    ensures var b := UniqueTarget(Harvest(registry, calls), tool, field);
      && (b.Some? <==> Agreed(registry, calls, tool, field))
      && (b.Some? ==> exists i :: FirstFor(registry, calls, tool, field, i) && Established(registry, calls[i]) == b)
  {
    var m := Matches(Harvest(registry, calls), tool, field);
    HarvestIndexes(registry, calls, tool, field);
    if |m| == 1 {
      assert forall v :: HasValue(m, v) ==> v == m[0].value;
      assert m[0] in m;
    } else if |m| > 1 {
      assert m[0] in m && m[1] in m && m[0].value != m[1].value;
    }
  }

  // ---- what is repaired ----

  function Undeclared(schema: Schema, fields: Fields): set<string> {
    fields.Keys - schema.kinds.Keys
  }

  /** A field recovery counts as missing. */
  predicate Lacks(schema: Schema, fields: Fields, f: string) {
    || (f in schema.required && f !in fields)
    || (f in schema.kinds && f in fields && NullLike(schema.kinds[f], fields[f]))
  }

  /** The text the target is filled with, if it is. */
  function Refill(d: Definition, fields: Fields, bindings: seq<Binding>): Option<Binding> {
    if d.target.Some? && Lacks(d.schema, fields, d.target.value) then UniqueTarget(bindings, d.name, d.target.value)
      else None
  }

  lemma RefillIs(d: Definition, arguments: Arguments, bindings: seq<Binding>)
    requires arguments.Arguments?
    ensures Rebinding(d, Classification(Errors(d.schema, arguments.order, arguments.fields)).missing, bindings) ==
      Refill(d, arguments.fields, bindings)
  {
    if d.target.Some? {
      var missing := Classification(Errors(d.schema, arguments.order, arguments.fields)).missing;
      MissingIff(d.schema, arguments.order, arguments.fields, d.target.value);
      NamedIsListed(missing, d.target.value);
    }
  }

  lemma NamedIsListed(issues: seq<Issue>, f: string)
    ensures Names(issues, f) <==> exists i :: 0 <= i < |issues| && issues[i].field == f
  {
    if e :| e in issues && e.field == f {
      var i :| 0 <= i < |issues| && issues[i] == e;
      assert issues[i].field == f;
    }
  }

  /** One undeclared field dealt with: renamed where an alias says so and its canonical field is
      free, dropped otherwise. */
  function Cleared(d: Definition, fields: Fields, u: string): Fields
    requires u in fields
  {
    var canonical := RenameOf(d.renames, u);
    if canonical.Some? && canonical.value !in fields then (fields - {u})[canonical.value := fields[u]] else fields - {u}
  }

  predicate Renames(d: Definition, fields: Fields, u: string) {
    u in fields && RenameOf(d.renames, u).Some? && RenameOf(d.renames, u).value !in fields
  }

  function Filled(d: Definition, fields: Fields, binding: Option<Binding>): Fields {
    if binding.Some? && d.target.Some? then fields[d.target.value := Text(binding.value.value)] else fields
  }

  function RenameRecord(d: Definition, fields: Fields, u: string): seq<Repair> {
    if Renames(d, fields, u) then [ArgumentRenamed(d.name, u, RenameOf(d.renames, u).value)] else []
  }

  function RefillRecord(d: Definition, binding: Option<Binding>): seq<Repair> {
    if binding.Some? && d.target.Some?
      then [TargetRebound(d.name, d.target.value, binding.value.value, binding.value.callId)] else []
  }

  ghost predicate RepairIs(
    d: Definition, fields: Fields, named: seq<Repair>, binding: Option<Binding>, u: Option<string>, repaired: Fields,
    repairs: seq<Repair>) {
    if u.None? then
      && Undeclared(d.schema, fields) == {}
      && repaired == Filled(d, fields, binding) && repairs == named + RefillRecord(d, binding)
    else
      && u.value in Undeclared(d.schema, fields)
      && repaired == Filled(d, Cleared(d, fields, u.value), binding)
      && repairs == named + RenameRecord(d, fields, u.value) + RefillRecord(d, binding)
  }

  lemma FirstUndeclared(d: Definition, arguments: Arguments) returns (u: Option<string>)
    requires arguments.Arguments? && ValidArguments(arguments)
    ensures var unexpected := Classification(Errors(d.schema, arguments.order, arguments.fields)).unexpected;
      if u.None? then unexpected == [] && Undeclared(d.schema, arguments.fields) == {}
      else unexpected == [Issue(u.value, Unexpected, false)] && u.value in Undeclared(d.schema, arguments.fields)
  {
    UnexpectedIsFirst(d.schema, arguments.order, arguments.fields);
    UndeclaredErrorIs(d.schema, arguments.order);
    var unexpected := UndeclaredError(d.schema, arguments.order);
    u := if unexpected == [] then None else Some(unexpected[0].field);
  }

  /** The repair of arguments that do not fit, in terms of the first undeclared field. */
  lemma {:induction false} RepairedIs(
    d: Definition, arguments: Arguments, named: seq<Repair>, bindings: seq<Binding>)
    returns (u: Option<string>)
    requires arguments.Arguments? && ValidArguments(arguments)
    ensures var (repaired, repairs) :=
      Repaired(d, arguments, named, Classification(Errors(d.schema, arguments.order, arguments.fields)), bindings);
      RepairIs(d, arguments.fields, named, Refill(d, arguments.fields, bindings), u, repaired, repairs)
  {
    var issues := Classification(Errors(d.schema, arguments.order, arguments.fields));
    u := FirstUndeclared(d, arguments);
    RefillIs(d, arguments, bindings);
    if u.Some? {
      OneRename(d, arguments.fields, named, issues.unexpected[0]);
    }
    RefilledIs(d, arguments, named, issues, bindings);
  }

  lemma RefilledIs(
    d: Definition, arguments: Arguments, named: seq<Repair>, issues: InvalidArguments, bindings: seq<Binding>)
    requires arguments.Arguments?
    ensures var (fields, repairs) := Renamed(d, arguments.fields, named, issues.unexpected);
      var binding := Rebinding(d, issues.missing, bindings);
      Repaired(d, arguments, named, issues, bindings) ==
        (Filled(d, fields, binding), repairs + RefillRecord(d, binding))
  {
    var (fields, repairs) := Renamed(d, arguments.fields, named, issues.unexpected);
    assert repairs + [] == repairs;
  }

  lemma OneRename(d: Definition, fields: Fields, named: seq<Repair>, e: Issue)
    requires e.field in fields
    ensures Renamed(d, fields, named, [e]) == (Cleared(d, fields, e.field), named + RenameRecord(d, fields, e.field))
  {
    assert [e][1..] == [];
    assert named + [] == named;
  }

  // ---- dispatch ----

  ghost predicate OnlyResolved(named: seq<Repair>) {
    forall r :: r in named ==> r.ToolResolved?
  }

  lemma FitsLacksNothing(d: Definition, fields: Fields, bindings: seq<Binding>)
    requires FitsSchema(d.schema, fields)
    ensures Refill(d, fields, bindings).None? && Undeclared(d.schema, fields) == {}
  {
    if d.target.Some? && d.target.value in fields {
      NullLikeMisfits(d.schema.kinds[d.target.value], fields[d.target.value]);
    }
  }

  lemma SettledFit(d: Definition, arguments: Arguments, named: seq<Repair>, bindings: seq<Binding>, reference: string)
    requires ValidArguments(arguments)
    ensures arguments.NotAnObject? ==> !Settled(d, arguments, named, bindings, reference).Dispatch?
    ensures arguments.Arguments? && FitsSchema(d.schema, arguments.fields) ==>
      Settled(d, arguments, named, bindings, reference) == Dispatch(d, arguments.fields, named)
  {
    if arguments.Arguments? { NoErrorsIffFits(d.schema, arguments.order, arguments.fields); }
  }

  lemma SettledUnfit(d: Definition, arguments: Arguments, named: seq<Repair>, bindings: seq<Binding>, reference: string)
    requires ValidArguments(arguments) && arguments.Arguments? && !FitsSchema(d.schema, arguments.fields)
    ensures var (repaired, repairs) :=
      Repaired(d, arguments, named, Classification(Errors(d.schema, arguments.order, arguments.fields)), bindings);
      var out := Settled(d, arguments, named, bindings, reference);
      if FitsSchema(d.schema, repaired) then out == Dispatch(d, repaired, repairs) else out.ConstrainedRepair?
  {
    NoErrorsIffFits(d.schema, arguments.order, arguments.fields);
    var (repaired, repairs) :=
      Repaired(d, arguments, named, Classification(Errors(d.schema, arguments.order, arguments.fields)), bindings);
    NoErrorsIffFits(d.schema, AsArguments(repaired).order, AsArguments(repaired).fields);
  }

  /** Valid arguments reached by the repair of at most one undeclared field. */
  ghost predicate Shape(
    d: Definition, fields: Fields, named: seq<Repair>, bindings: seq<Binding>, u: Option<string>, out: Fields,
    repairs: seq<Repair>) {
    && FitsSchema(d.schema, out)
    && RepairIs(d, fields, named, Refill(d, fields, bindings), u, out, repairs)
    && Undeclared(d.schema, fields) == (if u.Some? then {u.value} else {})
  }

  lemma ShapeFit(d: Definition, fields: Fields, named: seq<Repair>, bindings: seq<Binding>)
    requires FitsSchema(d.schema, fields)
    ensures Shape(d, fields, named, bindings, None, fields, named)
  {
    FitsLacksNothing(d, fields, bindings);
    assert named + [] == named;
  }

  lemma ShapeUnfit(
    d: Definition, fields: Fields, named: seq<Repair>, bindings: seq<Binding>, u: Option<string>, out: Fields,
    repairs: seq<Repair>)
    requires RepairIs(d, fields, named, Refill(d, fields, bindings), u, out, repairs) && FitsSchema(d.schema, out)
    ensures Shape(d, fields, named, bindings, u, out, repairs)
  {
    if u.Some? {
      var cleared := Cleared(d, fields, u.value);
      assert fields.Keys - {u.value} <= cleared.Keys;
      assert cleared.Keys <= Filled(d, cleared, Refill(d, fields, bindings)).Keys;
    }
  }

  /** Whatever is dispatched is valid, and is the one repair of at most one undeclared field. */
  lemma {:induction false} DispatchIs(
    d: Definition, arguments: Arguments, named: seq<Repair>, bindings: seq<Binding>, reference: string)
    returns (u: Option<string>)
    requires ValidArguments(arguments) && Settled(d, arguments, named, bindings, reference).Dispatch?
    ensures arguments.Arguments?
    ensures var out := Settled(d, arguments, named, bindings, reference);
      out.definition == d && Shape(d, arguments.fields, named, bindings, u, out.arguments, out.repairs)
  {
    SettledFit(d, arguments, named, bindings, reference);
    if FitsSchema(d.schema, arguments.fields) {
      u := None;
      ShapeFit(d, arguments.fields, named, bindings);
    } else {
      SettledUnfit(d, arguments, named, bindings, reference);
      u := RepairedIs(d, arguments, named, bindings);
      var (repaired, repairs) :=
        Repaired(d, arguments, named, Classification(Errors(d.schema, arguments.order, arguments.fields)), bindings);
      ShapeUnfit(d, arguments.fields, named, bindings, u, repaired, repairs);
    }
  }

  /** Exactly when a call is dispatched: at most one of its fields is undeclared, and with that
      field renamed or dropped and the target refilled the arguments are valid. */
  lemma {:induction false} DispatchedIff(
    d: Definition, arguments: Arguments, named: seq<Repair>, bindings: seq<Binding>, reference: string)
    requires ValidArguments(arguments) && arguments.Arguments?
    ensures Settled(d, arguments, named, bindings, reference).Dispatch? <==>
      var binding := Refill(d, arguments.fields, bindings);
      || (Undeclared(d.schema, arguments.fields) == {} && FitsSchema(d.schema, Filled(d, arguments.fields, binding)))
      || (exists u :: u in arguments.fields && Undeclared(d.schema, arguments.fields) == {u}
                      && FitsSchema(d.schema, Filled(d, Cleared(d, arguments.fields, u), binding)))
  {
    if Settled(d, arguments, named, bindings, reference).Dispatch? {
      var u := DispatchIs(d, arguments, named, bindings, reference);
      if u.Some? { assert u.value in Undeclared(d.schema, arguments.fields); }
    } else {
      NotDispatched(d, arguments, named, bindings, reference);
    }
  }

  lemma {:induction false} NotDispatched(
    d: Definition, arguments: Arguments, named: seq<Repair>, bindings: seq<Binding>, reference: string)
    requires ValidArguments(arguments) && arguments.Arguments?
      && !Settled(d, arguments, named, bindings, reference).Dispatch?
    ensures var binding := Refill(d, arguments.fields, bindings);
      && (Undeclared(d.schema, arguments.fields) == {} ==> !FitsSchema(d.schema, Filled(d, arguments.fields, binding)))
      && (forall u :: u in arguments.fields && Undeclared(d.schema, arguments.fields) == {u} ==>
            !FitsSchema(d.schema, Filled(d, Cleared(d, arguments.fields, u), binding)))
  {
    SettledFit(d, arguments, named, bindings, reference);
    SettledUnfit(d, arguments, named, bindings, reference);
    var u := RepairedIs(d, arguments, named, bindings);
    assert u.Some? ==> forall w :: Undeclared(d.schema, arguments.fields) == {w} ==> w == u.value;
  }

  // ---- the repairs account for every change ----

  function Redo(r: Repair, fields: Fields): Fields {
    match r
    case ToolResolved(_, _, _) => fields
    case ArgumentRenamed(_, from, to) => if from in fields then (fields - {from})[to := fields[from]] else fields
    case TargetRebound(_, field, value, _) => fields[field := Text(value)]
  }

  function Replay(repairs: seq<Repair>, fields: Fields): Fields {
    if repairs == [] then fields else Redo(repairs[|repairs| - 1], Replay(repairs[..|repairs| - 1], fields))
  }

  function Restrict(schema: Schema, fields: Fields): Fields {
    map f | f in fields && f in schema.kinds :: fields[f]
  }

  lemma ReplayExtends(repairs: seq<Repair>, r: Repair, fields: Fields)
    ensures Replay(repairs + [r], fields) == Redo(r, Replay(repairs, fields))
  {
    assert (repairs + [r])[..|repairs|] == repairs;
  }

  lemma {:induction false} ReplayResolved(named: seq<Repair>, fields: Fields)
    requires OnlyResolved(named)
    ensures Replay(named, fields) == fields
  {
    if named != [] {
      assert named[|named| - 1] in named;
      ReplayResolved(named[..|named| - 1], fields);
    }
  }

  lemma ReplayRename(d: Definition, named: seq<Repair>, fields: Fields, u: string)
    requires OnlyResolved(named) && u in fields
    ensures Replay(named + RenameRecord(d, fields, u), fields) ==
      if Renames(d, fields, u) then Cleared(d, fields, u) else fields
  {
    ReplayResolved(named, fields);
    if Renames(d, fields, u) {
      RedoRename(d, fields, u);
      ReplayExtends(named, RenameRecord(d, fields, u)[0], fields);
    } else {
      assert named + [] == named;
    }
  }

  lemma RedoRename(d: Definition, fields: Fields, u: string)
    requires Renames(d, fields, u)
    ensures Redo(RenameRecord(d, fields, u)[0], fields) == Cleared(d, fields, u)
  {}

  lemma ReplayRefill(d: Definition, repairs: seq<Repair>, fields: Fields, binding: Option<Binding>)
    ensures Replay(repairs + RefillRecord(d, binding), fields) == Filled(d, Replay(repairs, fields), binding)
  {
    if RefillRecord(d, binding) != [] {
      ReplayExtends(repairs, RefillRecord(d, binding)[0], fields);
    } else {
      assert repairs + [] == repairs;
    }
  }

  lemma RestrictFit(schema: Schema, fields: Fields, out: Fields)
    requires out.Keys <= schema.kinds.Keys
    requires forall f :: f in schema.kinds ==> (f in out <==> f in fields) && (f in out ==> out[f] == fields[f])
    ensures Restrict(schema, fields) == out
  {}

  lemma FilledAgrees(d: Definition, a: Fields, b: Fields, binding: Option<Binding>, f: string)
    requires (f in a <==> f in b) && (f in a ==> a[f] == b[f])
    ensures var x, y := Filled(d, a, binding), Filled(d, b, binding); (f in x <==> f in y) && (f in x ==> x[f] == y[f])
  {}

  /** What is dispatched is the original with the recorded repairs replayed in order and
      undeclared fields dropped. */
  lemma {:induction false} DispatchIsReplay(
    d: Definition, arguments: Arguments, named: seq<Repair>, bindings: seq<Binding>, reference: string)
    requires ValidArguments(arguments) && OnlyResolved(named)
      && Settled(d, arguments, named, bindings, reference).Dispatch?
    ensures var out := Settled(d, arguments, named, bindings, reference);
      FitsSchema(d.schema, out.arguments) && out.arguments == Restrict(d.schema, Replay(out.repairs, arguments.fields))
  {
    var out := Settled(d, arguments, named, bindings, reference);
    var u := DispatchIs(d, arguments, named, bindings, reference);
    var fields, binding := arguments.fields, Refill(d, arguments.fields, bindings);
    if u.None? {
      ReplayResolved(named, fields);
      ReplayRefill(d, named, fields, binding);
      RestrictFit(d.schema, Filled(d, fields, binding), out.arguments);
    } else {
      assert u.value in Undeclared(d.schema, fields);
      ReplayRename(d, named, fields, u.value);
      ReplayRefill(d, named + RenameRecord(d, fields, u.value), fields, binding);
      var replayed := if Renames(d, fields, u.value) then Cleared(d, fields, u.value) else fields;
      forall f | f in d.schema.kinds
        ensures (f in out.arguments <==> f in Filled(d, replayed, binding))
          && (f in out.arguments ==> out.arguments[f] == Filled(d, replayed, binding)[f]) {
        FilledAgrees(d, Cleared(d, fields, u.value), replayed, binding, f);
      }
      RestrictFit(d.schema, Filled(d, replayed, binding), out.arguments);
    }
  }

  // ---- provenance ----

  /** Field `f` was renamed from the declared alias `u`. */
  predicate CameFrom(d: Definition, fields: Fields, u: string, f: string) {
    u in Undeclared(d.schema, fields) && RenameOf(d.renames, u) == Some(f) && f !in fields
  }

  /** Every dispatched field is the same-named one, or came from a declared alias with the rename
      on record, or is the bound target with the rebinding on record. */
  lemma {:induction false} FieldProvenance(
    d: Definition, arguments: Arguments, named: seq<Repair>, bindings: seq<Binding>, reference: string, f: string)
    requires ValidArguments(arguments) && Settled(d, arguments, named, bindings, reference).Dispatch?
    requires f in Settled(d, arguments, named, bindings, reference).arguments
    ensures arguments.Arguments?
    ensures var out := Settled(d, arguments, named, bindings, reference);
      Sourced(d, arguments.fields, bindings, out.arguments, out.repairs, f)
  {
    var u := DispatchIs(d, arguments, named, bindings, reference);
    var out := Settled(d, arguments, named, bindings, reference);
    ShapeProvenance(d, arguments.fields, named, bindings, u, out.arguments, out.repairs, f);
  }

  ghost predicate Sourced(
    d: Definition, fields: Fields, bindings: seq<Binding>, out: Fields, repairs: seq<Repair>, f: string)
    requires f in out
  {
    || (f in fields && out[f] == fields[f])
    || (exists u ::
        u in fields && CameFrom(d, fields, u, f) && out[f] == fields[u] && ArgumentRenamed(d.name, u, f) in repairs)
    || (d.target == Some(f) && Lacks(d.schema, fields, f)
        && exists b ::
            UniqueTarget(bindings, d.name, f) == Some(b) && out[f] == Text(b.value)
            && TargetRebound(d.name, f, b.value, b.callId) in repairs)
  }

  lemma ShapeProvenance(
    d: Definition, fields: Fields, named: seq<Repair>, bindings: seq<Binding>, u: Option<string>, out: Fields,
    repairs: seq<Repair>, f: string)
    requires Shape(d, fields, named, bindings, u, out, repairs) && f in out
    ensures Sourced(d, fields, bindings, out, repairs, f)
  {
    var binding := Refill(d, fields, bindings);
    if d.target == Some(f) && binding.Some? {
      assert RefillRecord(d, binding)[0] in repairs;
      assert UniqueTarget(bindings, d.name, f) == binding;
    } else if u.Some? && RenameOf(d.renames, u.value) == Some(f) && f !in fields {
      assert RenameRecord(d, fields, u.value)[0] in repairs;
    }
  }

  /** A supplied declared field is always dispatched, and its value is unchanged exactly when it
      does not count as absent. */
  lemma {:induction false} SuppliedSurvives(
    d: Definition, arguments: Arguments, named: seq<Repair>, bindings: seq<Binding>, reference: string, f: string)
    requires ValidArguments(arguments) && Settled(d, arguments, named, bindings, reference).Dispatch?
    requires f in arguments.fields && f in d.schema.kinds
    ensures var out := Settled(d, arguments, named, bindings, reference).arguments;
      && f in out
      && (out[f] == arguments.fields[f] <==> !NullLike(d.schema.kinds[f], arguments.fields[f]))
      && (out[f] != arguments.fields[f] ==> d.target == Some(f))
  {
    var u := DispatchIs(d, arguments, named, bindings, reference);
    var out := Settled(d, arguments, named, bindings, reference);
    ShapeSupplied(d, arguments.fields, named, bindings, u, out.arguments, out.repairs, f);
  }

  lemma ShapeSupplied(
    d: Definition, fields: Fields, named: seq<Repair>, bindings: seq<Binding>, u: Option<string>, out: Fields,
    repairs: seq<Repair>, f: string)
    requires Shape(d, fields, named, bindings, u, out, repairs) && f in fields && f in d.schema.kinds
    ensures f in out
    ensures out[f] == fields[f] <==> !NullLike(d.schema.kinds[f], fields[f])
    ensures out[f] != fields[f] ==> d.target == Some(f)
  {
    NullLikeMisfits(d.schema.kinds[f], fields[f]);
    assert Fits(d.schema.kinds[f], out[f]);
    if u.Some? {
      assert u.value in Undeclared(d.schema, fields);
      assert f in Cleared(d, fields, u.value) && Cleared(d, fields, u.value)[f] == fields[f];
    }
  }

  /** A value renamed into a field survives exactly when that field is not a required target bound
      to something else: the test for a missing target looks at the arguments before renaming. */
  lemma {:induction false} RenamedSurvivesIff(
    d: Definition, arguments: Arguments, named: seq<Repair>, bindings: seq<Binding>, reference: string, u: string,
    f: string)
    requires ValidArguments(arguments) && Settled(d, arguments, named, bindings, reference).Dispatch?
    requires u in arguments.fields && CameFrom(d, arguments.fields, u, f)
    ensures var out := Settled(d, arguments, named, bindings, reference).arguments;
      && f in out
      && (out[f] == arguments.fields[u] <==>
            !(d.target == Some(f) && f in d.schema.required
              && exists b :: UniqueTarget(bindings, d.name, f) == Some(b) && Text(b.value) != arguments.fields[u]))
  {
    var v := DispatchIs(d, arguments, named, bindings, reference);
    assert u in Undeclared(d.schema, arguments.fields);
    var binding := Refill(d, arguments.fields, bindings);
    if d.target == Some(f) && f in d.schema.required { assert UniqueTarget(bindings, d.name, f) == binding; }
  }

  // ---- what recovery cannot do ----

  /** Two undeclared fields are never repaired: only the first is ever seen, and validation runs
      only once more. */
  lemma {:induction false} TwoUndeclaredNeverDispatch(
    d: Definition, arguments: Arguments, named: seq<Repair>, bindings: seq<Binding>, reference: string, u: string,
    v: string)
    requires ValidArguments(arguments) && arguments.Arguments?
    requires u in Undeclared(d.schema, arguments.fields) && v in Undeclared(d.schema, arguments.fields) && u != v
    ensures Settled(d, arguments, named, bindings, reference).ConstrainedRepair?
  {
    var bad := Undeclared(d.schema, arguments.fields);
    assert FitsSchema(d.schema, arguments.fields) ==> bad == {};
    SettledUnfit(d, arguments, named, bindings, reference);
    if Settled(d, arguments, named, bindings, reference).Dispatch? {
      var w := DispatchIs(d, arguments, named, bindings, reference);
    }
  }

  lemma {:induction false} Outstanding(d: Definition, fields: Fields)
    ensures var issues := Classification(Errors(d.schema, AsArguments(fields).order, fields));
      issues.missing + issues.invalid == [] <==> Present(d.schema, fields) && Typed(d.schema, fields)
  {
    var order := AsArguments(fields).order;
    var errors := Errors(d.schema, order, fields);
    var r, f := RequiredErrors(d.schema.required, fields), FieldErrors(d.schema, SortedKeys(fields.Keys), fields);
    RequiredErrorsAre(d.schema.required, fields);
    UndeclaredErrorIs(d.schema, order);
    FieldErrorsAre(d.schema, SortedKeys(fields.Keys), fields);
    TypedIff(d.schema, fields);
    NothingReported(errors);
    if r != [] { assert r[0] in errors && !IsUnexpected(r[0]); }
    if f != [] { assert f[0] in errors && !IsUnexpected(f[0]); }
  }

  lemma NothingReported(errors: seq<Issue>)
    ensures Classification(errors).missing + Classification(errors).invalid == [] <==>
      forall e :: e in errors ==> IsUnexpected(e)
  {
    var firsts := Firsts(errors);
    var c := Classification(errors);
    assert c.missing + c.invalid == [] <==> c.missing == [] && c.invalid == [];
    SelectEmpty(firsts);
    forall e ensures e in firsts ==> e in errors { FirstsCover(errors, e); }
    if e :| e in errors && !IsUnexpected(e) {
      FirstsCover(errors, e);
      var i :| 0 <= i < |errors| && errors[i] == e;
      assert Same(errors[i], e);
      var j :| 0 <= j < |firsts| && Same(firsts[j], e);
      assert firsts[j] in firsts && !IsUnexpected(firsts[j]);
    }
  }

  lemma SelectEmpty(firsts: seq<Issue>)
    ensures Select(firsts, IsMissing) == [] && AsMissing(Select(Select(firsts, IsInvalid), NullTyped)) == []
      && Select(Select(firsts, IsInvalid), Keeps) == []
      <==> forall e :: e in firsts ==> IsUnexpected(e)
  {
    var invalid := Select(firsts, IsInvalid);
    forall e
      ensures e in Select(firsts, IsMissing) <==> e in firsts && IsMissing(e)
      ensures e in invalid <==> e in firsts && IsInvalid(e)
      ensures e in Select(invalid, NullTyped) <==> e in invalid && NullTyped(e)
      ensures e in Select(invalid, Keeps) <==> e in invalid && Keeps(e)
    {
      SelectMembers(firsts, IsMissing, e);
      SelectMembers(firsts, IsInvalid, e);
      SelectMembers(invalid, NullTyped, e);
      SelectMembers(invalid, Keeps, e);
    }
    NonEmpty(Select(firsts, IsMissing));
    NonEmpty(Select(invalid, NullTyped));
    NonEmpty(Select(invalid, Keeps));
  }

  lemma NonEmpty(s: seq<Issue>)
    ensures s == [] <==> forall e :: e !in s
  {
    if s != [] { assert s[0] in s; }
  }

  /** The first undeclared field in document order. */
  function FirstStray(schema: Schema, order: seq<string>): (u: Option<string>)
    ensures u.Some? ==> u.value in order && u.value !in schema.kinds
    ensures u.None? ==> forall k :: k in order ==> k in schema.kinds
  {
    if order == [] then None
    else if order[0] !in schema.kinds then Some(order[0])
    else
      var u := FirstStray(schema, order[1..]);
      assert order == [order[0]] + order[1..];
      u
  }

  lemma {:induction false} StrayIsReported(schema: Schema, order: seq<string>)
    ensures UndeclaredError(schema, order) ==
      if FirstStray(schema, order).None? then [] else [Issue(FirstStray(schema, order).value, Unexpected, false)]
  {
    if order != [] { StrayIsReported(schema, order[1..]); }
  }

  /** The arguments with their first undeclared field dealt with and the target refilled. */
  function Mended(d: Definition, arguments: Arguments, bindings: seq<Binding>): Fields
    requires arguments.Arguments?
  {
    var u := FirstStray(d.schema, arguments.order);
    var cleared :=
      if u.Some? && u.value in arguments.fields then Cleared(d, arguments.fields, u.value) else arguments.fields;
    Filled(d, cleared, Refill(d, arguments.fields, bindings))
  }

  lemma {:induction false} RepairedIsMended(
    d: Definition, arguments: Arguments, named: seq<Repair>, bindings: seq<Binding>)
    requires arguments.Arguments? && ValidArguments(arguments)
    ensures Mended(d, arguments, bindings) ==
      Repaired(d, arguments, named, Classification(Errors(d.schema, arguments.order, arguments.fields)), bindings).0
  {
    var issues := Classification(Errors(d.schema, arguments.order, arguments.fields));
    UnexpectedIsFirst(d.schema, arguments.order, arguments.fields);
    StrayIsReported(d.schema, arguments.order);
    RefillIs(d, arguments, bindings);
    RefilledIs(d, arguments, named, issues, bindings);
    if issues.unexpected != [] { OneRename(d, arguments.fields, named, issues.unexpected[0]); }
  }

  /** The model is asked for no field at all if and only if, with the first undeclared field dealt
      with and the target refilled, undeclared fields are left and nothing else is wrong. */
  lemma {:induction false} AsksForNothingIff(
    d: Definition, arguments: Arguments, named: seq<Repair>, bindings: seq<Binding>, reference: string)
    requires ValidArguments(arguments) && arguments.Arguments?
    ensures var mended := Mended(d, arguments, bindings);
      Settled(d, arguments, named, bindings, reference) == ConstrainedRepair(d.name, [], reference) <==>
      !Declared(d.schema, mended) && Present(d.schema, mended) && Typed(d.schema, mended)
  {
    var mended := Mended(d, arguments, bindings);
    FitsSchemaParts(d.schema, mended);
    SettledFit(d, arguments, named, bindings, reference);
    if FitsSchema(d.schema, arguments.fields) {
      MendedFit(d, arguments, bindings);
    } else {
      RepairedIsMended(d, arguments, named, bindings);
      SettledAsks(d, arguments, named, bindings, reference);
    }
  }

  lemma MendedFit(d: Definition, arguments: Arguments, bindings: seq<Binding>)
    requires arguments.Arguments? && ValidArguments(arguments) && FitsSchema(d.schema, arguments.fields)
    ensures Mended(d, arguments, bindings) == arguments.fields
  {
    FitsLacksNothing(d, arguments.fields, bindings);
  }

  lemma {:induction false} SettledAsks(
    d: Definition, arguments: Arguments, named: seq<Repair>, bindings: seq<Binding>, reference: string)
    requires ValidArguments(arguments) && arguments.Arguments? && !FitsSchema(d.schema, arguments.fields)
    ensures var issues := Classification(Errors(d.schema, arguments.order, arguments.fields));
      var repaired := Repaired(d, arguments, named, issues, bindings).0;
      Settled(d, arguments, named, bindings, reference) == ConstrainedRepair(d.name, [], reference) <==>
      !FitsSchema(d.schema, repaired) && Present(d.schema, repaired) && Typed(d.schema, repaired)
  {
    NoErrorsIffFits(d.schema, arguments.order, arguments.fields);
    var issues := Classification(Errors(d.schema, arguments.order, arguments.fields));
    var repaired := Repaired(d, arguments, named, issues, bindings).0;
    NoErrorsIffFits(d.schema, AsArguments(repaired).order, AsArguments(repaired).fields);
    Outstanding(d, repaired);
  }

  // ---- the edit tool ----

  /** An append to `b`, spelled with the declared alias `path`, is dispatched as an append to `a`
      once `a` is the only file edited so far. */
  lemma RebindingOverwritesRename() returns (arguments: Arguments, bindings: seq<Binding>)
    ensures ValidArguments(arguments) && arguments.Arguments?
    ensures "path" in arguments.fields && arguments.fields["path"] == Text("b") && "file" !in arguments.fields
    ensures var out := Settled(EDIT, arguments, [], bindings, "");
      out.Dispatch? && "file" in out.arguments && out.arguments["file"] == Text("a")
  {
    var fields := AppendTo("path", "b");
    arguments := Arguments(["operation", "content", "path"], fields);
    var b := Binding("filesystem.edit", "file", "a", "call-1");
    bindings := [b];
    MatchesExtends([], b, "filesystem.edit", "file");
    assert [] + [b] == [b];
    assert UniqueTarget(bindings, "filesystem.edit", "file") == Some(b);
    AppendRepaired(b);
    DispatchedIff(EDIT, arguments, [], bindings, "");
    var u := DispatchIs(EDIT, arguments, [], bindings, "");
  }

  function AppendTo(field: string, file: string): Fields {
    map["operation" := Text("append"), "content" := Text("x"), field := Text(file)]
  }

  lemma AppendRepaired(b: Binding)
    ensures Undeclared(EDIT.schema, AppendTo("path", "b")) == {"path"}
    ensures Lacks(EDIT.schema, AppendTo("path", "b"), "file")
    ensures Filled(EDIT, Cleared(EDIT, AppendTo("path", "b"), "path"), Some(b)) == AppendTo("file", b.value)
    ensures FitsSchema(EDIT.schema, AppendTo("file", b.value))
  {
    assert EDIT.schema.required[1] == "file";
    assert RenameOf(EDIT.renames, "path") == Some("file");
  }

  /** An append that is right but for two undeclared fields. */
  const STRAYS := Arguments(
    ["mode", "operation", "content", "file", "force"],
    map["mode" := Text("fast"), "operation" := Text("append"), "content" := Text("x"), "file" := Text("a"),
      "force" := Flag(true)])

  const STRAYED :=
    map["operation" := Text("append"), "content" := Text("x"), "file" := Text("a"), "force" := Flag(true)]

  lemma StraysValid()
    ensures ValidArguments(STRAYS)
  {}

  lemma StraysFirst()
    ensures FirstStray(EDIT.schema, STRAYS.order) == Some("mode") && Refill(EDIT, STRAYS.fields, []).None?
  {
    assert STRAYS.order[0] == "mode" && "mode" !in EDIT.schema.kinds;
    assert EDIT.target == Some("file") && STRAYS.fields["file"] == Text("a");
  }

  lemma StraysCleared()
    ensures Cleared(EDIT, STRAYS.fields, "mode") == STRAYED
  {
    assert RenameOf(EDIT.renames, "mode").None?;
    assert STRAYS.fields - {"mode"} == STRAYED;
  }

  lemma StraysMend()
    ensures Mended(EDIT, STRAYS, []) == STRAYED
  {
    StraysFirst();
    StraysCleared();
  }

  lemma StrayedIsElseRight()
    ensures !Declared(EDIT.schema, STRAYED) && Present(EDIT.schema, STRAYED) && Typed(EDIT.schema, STRAYED)
  {
    assert "force" in STRAYED && "force" !in EDIT.schema.kinds;
    forall k | k in STRAYED && k in EDIT.schema.kinds ensures Fits(EDIT.schema.kinds[k], STRAYED[k]) {}
    assert EDIT.schema.required == ["operation", "file"];
  }

  /** For such a call the model is asked for no field at all. */
  lemma AsksForNothing(reference: string)
    ensures Settled(EDIT, STRAYS, [], [], reference) == ConstrainedRepair("filesystem.edit", [], reference)
  {
    StraysValid();
    StraysMend();
    StrayedIsElseRight();
    AsksForNothingIff(EDIT, STRAYS, [], [], reference);
  }

  // ---- recovery as a whole ----

  /** A dispatched call is of the resolved tool, with valid arguments that are the replay of the
      recorded repairs. */
  lemma RecoverySound(
    registry: seq<Definition>, requested: string, arguments: Arguments, bindings: seq<Binding>, reference: string)
    requires ValidArguments(arguments) && Recovery(registry, requested, arguments, bindings, reference).Dispatch?
    ensures arguments.Arguments?
    ensures var out := Recovery(registry, requested, arguments, bindings, reference);
      && ResolveTool(registry, requested).Some? && out.definition == ResolveTool(registry, requested).value.0
      && FitsSchema(out.definition.schema, out.arguments)
      && out.arguments == Restrict(out.definition.schema, Replay(out.repairs, arguments.fields))
      && (requested != out.definition.name ==>
          out.repairs != []
            && out.repairs[0] == ToolResolved(requested, out.definition.name, ResolveTool(registry, requested).value.1))
  {
    var (d, confidence) := ResolveTool(registry, requested).value;
    var named := Announced(requested, d, confidence);
    var u := DispatchIs(d, arguments, named, bindings, reference);
    DispatchIsReplay(d, arguments, named, bindings, reference);
  }

  // ---- names ----

  lemma {:induction false} AliasedMembers(registry: seq<Definition>, requested: string)
    ensures forall d :: d in Aliased(registry, requested) <==> d in registry && requested in d.aliases
  {
    if registry != [] {
      AliasedMembers(registry[1..], requested);
      assert registry == [registry[0]] + registry[1..];
    }
  }

  lemma {:induction false} FoldedMembers(registry: seq<Definition>, folded: string)
    ensures forall d :: d in Folded(registry, folded) <==> d in registry && FoldsTo(d, folded)
  {
    if registry != [] {
      FoldedMembers(registry[1..], folded);
      assert registry == [registry[0]] + registry[1..];
    }
  }

  lemma {:induction false} GetFinds(registry: seq<Definition>, name: string)
    ensures Get(registry, name).Some? <==> exists d :: d in registry && d.name == name
    ensures Get(registry, name).Some? ==>
      Get(registry, name).value in registry && Get(registry, name).value.name == name
  {
    if registry != [] { GetFinds(registry[1..], name); }
  }

  /** A resolved tool is registered and answers to the request; no second tool claims the name as
      an alias, and a folded match is unique. */
  lemma ResolvedAnswers(registry: seq<Definition>, requested: string)
    ensures ResolveTool(registry, requested).Some? ==>
      var (d, confidence) := ResolveTool(registry, requested).value;
      && d in registry
      && (forall x, y :: x in registry && y in registry && requested in x.aliases && requested in y.aliases ==> x == y)
      && match confidence
         case Exact => d.name == requested
         case Alias => requested in d.aliases && forall x :: x in registry ==> x.name != requested
         case Normalized =>
           FoldsTo(d, Fold(requested)) && forall x :: x in registry && FoldsTo(x, Fold(requested)) ==> x == d
  {
    GetFinds(registry, requested);
    AliasedMembers(registry, requested);
    FoldedMembers(registry, Fold(requested));
    OneMember(Aliased(registry, requested));
    OneMember(Folded(registry, Fold(requested)));
  }

  lemma OneMember(s: seq<Definition>)
    ensures |s| == 1 ==> s[0] in s && forall d :: d in s ==> d == s[0]
    ensures |s| == 0 ==> forall d :: d !in s
  {}
}
