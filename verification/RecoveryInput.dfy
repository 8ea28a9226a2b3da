/** Call recovery against its inputs: which calls bind a target, which tool a name stands for, and what
    the model is asked for. */
module RecoveryInput {
  import opened Options
  import opened Strings
  import opened CallSchema
  import opened CallSchemaLaws
  import opened CallRecovery
  import opened CallRecoveryLaws

  // ---- what a call establishes ----

  /** `d` is what the registry has under `name`: the first definition of that name. */
  ghost predicate Registered(registry: seq<Definition>, name: string, d: Definition) {
    exists i ::
      && 0 <= i < |registry| && registry[i] == d && d.name == name
      && forall j :: 0 <= j < i ==> registry[j].name != name
  }

  lemma {:induction false} GetIff(registry: seq<Definition>, name: string, d: Definition)
    ensures Get(registry, name) == Some(d) <==> Registered(registry, name, d)
  {
    if registry != [] {
      var rest := registry[1..];
      GetIff(rest, name, d);
      if registry[0].name == name {
        if Registered(registry, name, d) {
          var i :| 0 <= i < |registry| && registry[i] == d && forall j :: 0 <= j < i ==> registry[j].name != name;
          assert i == 0;
        }
      } else {
        if Registered(rest, name, d) {
          var i :| 0 <= i < |rest| && rest[i] == d && forall j :: 0 <= j < i ==> rest[j].name != name;
          assert registry[i + 1] == d;
          forall j | 0 <= j < i + 1 ensures registry[j].name != name { if j > 0 { assert registry[j] == rest[j - 1]; } }
        }
        if Registered(registry, name, d) {
          var i :| 0 <= i < |registry| && registry[i] == d && forall j :: 0 <= j < i ==> registry[j].name != name;
          assert i > 0 && rest[i - 1] == d;
          forall j | 0 <= j < i - 1 ensures rest[j].name != name { assert rest[j] == registry[j + 1]; }
        }
      }
    }
  }

  /** A completed native call of a registered tool with a target, whose request gives the target a
      non-empty text. */
  ghost predicate Told(registry: seq<Definition>, call: Call, b: Binding) {
    && call.state == "completed" && call.request.Request? && call.request.kind == Some("native_tool")
    && call.request.name.Some? && call.request.arguments.Some? && call.id == b.callId
    && (exists d :: Registered(registry, call.request.name.value, d) && d.target == Some(b.field) && d.name == b.tool)
    && b.field in call.request.arguments.value && b.value != ""
    && call.request.arguments.value[b.field] == Text(b.value)
  }

  /** Exactly such a call establishes a binding, and what it is. */
  lemma EstablishedIff(registry: seq<Definition>, call: Call, b: Binding)
    ensures Established(registry, call) == Some(b) <==> Told(registry, call, b)
  {
    if call.request.Request? && call.request.name.Some? {
      var name := call.request.name.value;
      forall d ensures Get(registry, name) == Some(d) <==> Registered(registry, name, d) { GetIff(registry, name, d); }
      if Get(registry, name).Some? { assert Registered(registry, name, Get(registry, name).value); }
    }
  }

  // ---- which tool a name stands for ----

  /** Two entries of the registry have the alias. */
  ghost predicate Contested(registry: seq<Definition>, alias: string) {
    exists i, j :: 0 <= i < j < |registry| && alias in registry[i].aliases && alias in registry[j].aliases
  }

  /** One entry, and no other, answers to the folded name. */
  ghost predicate FoldsOnce(registry: seq<Definition>, folded: string) {
    exists i :: 0 <= i < |registry| && FoldsTo(registry[i], folded)
      && forall j :: 0 <= j < |registry| && FoldsTo(registry[j], folded) ==> j == i
  }

  lemma {:induction false} AliasedCount(registry: seq<Definition>, alias: string)
    ensures |Aliased(registry, alias)| > 1 <==> Contested(registry, alias)
    ensures Aliased(registry, alias) != [] <==> exists i :: 0 <= i < |registry| && alias in registry[i].aliases
  {
    if registry != [] {
      var rest := registry[1..];
      AliasedCount(rest, alias);
      if Contested(rest, alias) {
        var i, j :| 0 <= i < j < |rest| && alias in rest[i].aliases && alias in rest[j].aliases;
        assert alias in registry[i + 1].aliases && alias in registry[j + 1].aliases;
      }
      if Contested(registry, alias) {
        var i, j :| 0 <= i < j < |registry| && alias in registry[i].aliases && alias in registry[j].aliases;
        assert alias in rest[j - 1].aliases;
        if i > 0 { assert alias in rest[i - 1].aliases; }
      }
      if i :| 0 <= i < |rest| && alias in rest[i].aliases { assert alias in registry[i + 1].aliases; }
    }
  }

  ghost predicate FoldsNever(registry: seq<Definition>, folded: string) {
    forall i :: 0 <= i < |registry| ==> !FoldsTo(registry[i], folded)
  }

  lemma FoldsRest(registry: seq<Definition>, folded: string)
    requires registry != []
    ensures FoldsNever(registry, folded) <==> !FoldsTo(registry[0], folded) && FoldsNever(registry[1..], folded)
  {
    assert forall i :: 0 <= i < |registry[1..]| ==> registry[1..][i] == registry[i + 1];
    if !FoldsTo(registry[0], folded) && FoldsNever(registry[1..], folded) {
      forall i | 0 <= i < |registry| ensures !FoldsTo(registry[i], folded) {
        if i > 0 { assert !FoldsTo(registry[1..][i - 1], folded); }
      }
    }
  }

  lemma FoldsOnceRest(registry: seq<Definition>, folded: string)
    requires registry != []
    ensures FoldsOnce(registry, folded) <==>
      if FoldsTo(registry[0], folded) then FoldsNever(registry[1..], folded) else FoldsOnce(registry[1..], folded)
  {
    var rest := registry[1..];
    assert forall i :: 0 <= i < |rest| ==> rest[i] == registry[i + 1];
    if FoldsOnce(registry, folded) {
      var i :| 0 <= i < |registry| && FoldsTo(registry[i], folded)
        && forall j :: 0 <= j < |registry| && FoldsTo(registry[j], folded) ==> j == i;
      if i > 0 {
        forall j | 0 <= j < |rest| && FoldsTo(rest[j], folded) ensures j == i - 1 {
          assert FoldsTo(registry[j + 1], folded);
        }
        assert FoldsTo(rest[i - 1], folded);
      }
    } else if FoldsTo(registry[0], folded) && FoldsNever(rest, folded) {
      FoldsFirst(registry, folded);
    } else if !FoldsTo(registry[0], folded) && FoldsOnce(rest, folded) {
      FoldsLater(registry, folded);
    }
  }

  lemma FoldsFirst(registry: seq<Definition>, folded: string)
    requires registry != [] && FoldsTo(registry[0], folded) && FoldsNever(registry[1..], folded)
    ensures FoldsOnce(registry, folded)
  {
    assert forall j :: 0 < j < |registry| ==> registry[1..][j - 1] == registry[j];
    assert forall j :: 0 < j < |registry| ==> !FoldsTo(registry[j], folded);
  }

  lemma FoldsLater(registry: seq<Definition>, folded: string)
    requires registry != [] && !FoldsTo(registry[0], folded) && FoldsOnce(registry[1..], folded)
    ensures FoldsOnce(registry, folded)
  {
    var rest := registry[1..];
    var i :| 0 <= i < |rest| && FoldsTo(rest[i], folded)
      && forall j :: 0 <= j < |rest| && FoldsTo(rest[j], folded) ==> j == i;
    forall j | 0 <= j < |registry| && FoldsTo(registry[j], folded) ensures j == i + 1 {
      assert j > 0 && FoldsTo(rest[j - 1], folded);
    }
    assert FoldsTo(registry[i + 1], folded);
  }

  lemma {:induction false} FoldedCount(registry: seq<Definition>, folded: string)
    ensures |Folded(registry, folded)| == 0 <==> FoldsNever(registry, folded)
    ensures |Folded(registry, folded)| == 1 <==> FoldsOnce(registry, folded)
  {
    if registry != [] {
      FoldedCount(registry[1..], folded);
      FoldsRest(registry, folded);
      FoldsOnceRest(registry, folded);
    }
  }

  lemma GetSome(registry: seq<Definition>, name: string)
    ensures Get(registry, name).Some? <==> exists i :: 0 <= i < |registry| && registry[i].name == name
  {
    GetFinds(registry, name);
    if i :| 0 <= i < |registry| && registry[i].name == name { assert registry[i] in registry; }
  }

  /** A name stands for a tool if and only if no two entries share it as an alias, and it is a tool's
      name, or an alias, or, spelled loosely, that of one tool alone. */
  lemma ResolvesIff(registry: seq<Definition>, requested: string)
    ensures ResolveTool(registry, requested).Some? <==>
      && !Contested(registry, requested)
      && ((exists i :: 0 <= i < |registry| && registry[i].name == requested)
          || (exists i :: 0 <= i < |registry| && requested in registry[i].aliases)
          || FoldsOnce(registry, Fold(requested)))
  {
    AliasedCount(registry, requested);
    FoldedCount(registry, Fold(requested));
    GetSome(registry, requested);
  }

  // ---- loose spelling ----

  /** Lower-case letters and digits. */
  predicate Bare(s: string) {
    forall i :: 0 <= i < |s| ==> 'a' <= s[i] <= 'z' || '0' <= s[i] <= '9'
  }

  lemma {:induction false} FoldConcat(a: string, b: string)
    ensures Fold(a + b) == Fold(a) + Fold(b)
  {
    if a == "" {
      assert a + b == b;
    } else {
      assert (a + b)[1..] == a[1..] + b;
      FoldConcat(a[1..], b);
      Associative(Fold([a[0]]), Fold(a[1..]), Fold(b));
      FoldFront(a);
      FoldFront(a + b);
    }
  }

  lemma FoldFront(s: string)
    requires s != ""
    ensures Fold(s) == Fold([s[0]]) + Fold(s[1..])
  {
    assert [s[0]][1..] == "";
  }

  lemma FoldOne(c: char)
    ensures Fold([c]) == if Alphanumeric(c) then [LowerChar(c)] else ""
  {
    assert [c][1..] == "";
  }

  /** Loose spelling ignores case and everything but letters and digits, and nothing else. */
  lemma {:induction false} LooseSpelling(a: string, c: char, b: string)
    ensures Fold(a + [c] + b) ==
      Fold(a) + (if 'A' <= c <= 'Z' then [c - 'A' + 'a']
                 else if 'a' <= c <= 'z' || '0' <= c <= '9' then [c] else "") + Fold(b)
    ensures Bare(a) ==> Fold(a) == a
  {
    FoldConcat(a + [c], b);
    FoldConcat(a, [c]);
    FoldOne(c);
    if Bare(a) { BareFolds(a); }
  }

  lemma {:induction false} BareFolds(s: string)
    requires Bare(s)
    ensures Fold(s) == s
  {
    if s != "" {
      assert forall i :: 0 <= i < |s[1..]| ==> s[1..][i] == s[i + 1];
      BareFolds(s[1..]);
      FoldFront(s);
      FoldOne(s[0]);
      assert s == [s[0]] + s[1..];
    }
  }

  // ---- what the model is asked for ----

  lemma {:induction false} FieldNames(schema: Schema, keys: seq<string>, fields: Fields, f: string)
    ensures Names(FieldErrors(schema, keys, fields), f) <==>
      f in keys && f in schema.kinds && f in fields && !Fits(schema.kinds[f], fields[f])
  {
    if keys != [] {
      var k := keys[0];
      var own := if k in schema.kinds && k in fields then ValueErrors(k, schema.kinds[k], fields[k]) else [];
      FieldNames(schema, keys[1..], fields, f);
      NamesAppend(own, FieldErrors(schema, keys[1..], fields), f);
      if k in schema.kinds && k in fields {
        ValueErrorsAre(k, schema.kinds[k], fields[k]);
        if own != [] { assert own[0] in own; }
      }
      assert f in keys <==> f == k || f in keys[1..];
    }
  }

  /** A field the model can be told about: required and absent, or declared and not of its type. */
  predicate Wrong(schema: Schema, fields: Fields, f: string) {
    (f in schema.required && f !in fields) || (f in schema.kinds && f in fields && !Fits(schema.kinds[f], fields[f]))
  }

  /** Some error names the field, the one about undeclared fields aside. */
  ghost predicate Faulted(errors: seq<Issue>, f: string) {
    exists e :: e in errors && e.field == f && !IsUnexpected(e)
  }

  lemma FaultedIff(schema: Schema, order: seq<string>, fields: Fields, f: string)
    ensures Faulted(Errors(schema, order, fields), f) <==> Wrong(schema, fields, f)
  {
    var r, u, v :=
      RequiredErrors(schema.required, fields), UndeclaredError(schema, order),
      FieldErrors(schema, SortedKeys(fields.Keys), fields);
    RequiredErrorsAre(schema.required, fields);
    UndeclaredErrorIs(schema, order);
    FieldErrorsAre(schema, SortedKeys(fields.Keys), fields);
    FieldNames(schema, SortedKeys(fields.Keys), fields, f);
    if f in schema.required && f !in fields { assert Issue(f, Missing, false) in r + u + v; }
    if e :| e in v && e.field == f { assert e in r + u + v; }
  }

  lemma ListedNames(errors: seq<Issue>, f: string)
    ensures var c := Classification(errors); Names(c.missing + c.invalid, f) <==> Faulted(errors, f)
  {
    var firsts := Firsts(errors);
    var invalid := Select(firsts, IsInvalid);
    var c := Classification(errors);
    NamesAppend(c.missing, c.invalid, f);
    NamesAppend(Select(firsts, IsMissing), AsMissing(Select(invalid, NullTyped)), f);
    NamesAsMissing(Select(invalid, NullTyped), f);
    forall e
      ensures e in Select(firsts, IsMissing) <==> e in firsts && IsMissing(e)
      ensures e in Select(invalid, NullTyped) <==> e in firsts && IsInvalid(e) && NullTyped(e)
      ensures e in Select(invalid, Keeps) <==> e in firsts && IsInvalid(e) && Keeps(e)
    {
      SelectMembers(firsts, IsMissing, e);
      SelectMembers(firsts, IsInvalid, e);
      SelectMembers(invalid, NullTyped, e);
      SelectMembers(invalid, Keeps, e);
    }
    FirstsFault(errors, f);
  }

  lemma FirstsFault(errors: seq<Issue>, f: string)
    ensures Faulted(Firsts(errors), f) <==> Faulted(errors, f)
  {
    if e :| e in Firsts(errors) && e.field == f && !IsUnexpected(e) { FirstsCover(errors, e); }
    if e :| e in errors && e.field == f && !IsUnexpected(e) {
      FirstsCover(errors, e);
      var i :| 0 <= i < |errors| && errors[i] == e;
      assert Same(errors[i], e);
      var j :| 0 <= j < |Firsts(errors)| && Same(Firsts(errors)[j], e);
      assert Firsts(errors)[j] in Firsts(errors);
    }
  }

  /** The request lists the missing fields first. */
  ghost predicate MissingFirst(fields: seq<Issue>) {
    forall i, j :: 0 <= i < j < |fields| && fields[j].defect.Missing? ==> fields[i].defect.Missing?
  }

  lemma ClassifiedInOrder(errors: seq<Issue>)
    ensures var c := Classification(errors); MissingFirst(c.missing + c.invalid)
  {
    var firsts := Firsts(errors);
    var invalid := Select(firsts, IsInvalid);
    var c := Classification(errors);
    forall i | 0 <= i < |c.missing| ensures c.missing[i].defect.Missing? {
      var m := Select(firsts, IsMissing);
      if i < |m| { SelectMembers(firsts, IsMissing, m[i]); }
    }
    forall i | 0 <= i < |c.invalid| ensures !c.invalid[i].defect.Missing? {
      SelectMembers(invalid, Keeps, c.invalid[i]);
      SelectMembers(firsts, IsInvalid, c.invalid[i]);
    }
  }

  /** What recovery makes of a call of a known tool. Arguments that are no object need reasoning; others
      are dispatched, or else the model is asked for exactly the fields that are wrong in the mended
      arguments, the missing ones first, of that tool and under that reference. */
  lemma {:induction false} AsksForWhatIsWrong(
    d: Definition, arguments: Arguments, named: seq<Repair>, bindings: seq<Binding>, reference: string)
    requires ValidArguments(arguments)
    ensures var action := Settled(d, arguments, named, bindings, reference);
      if arguments.NotAnObject? then action == NeedsReasoning(Malformed(d.name))
      else
        && (action.Dispatch? || action.ConstrainedRepair?)
        && (action.ConstrainedRepair? ==>
              && action.tool == d.name && action.reference == reference && MissingFirst(action.fields)
              && forall f :: Names(action.fields, f) <==> Wrong(d.schema, Mended(d, arguments, bindings), f))
  {
    if arguments.Arguments? {
      var action := Settled(d, arguments, named, bindings, reference);
      var issues := Classification(Errors(d.schema, arguments.order, arguments.fields));
      if action.ConstrainedRepair? {
        var mended := Mended(d, arguments, bindings);
        RepairedIsMended(d, arguments, named, bindings);
        var errors := Errors(d.schema, AsArguments(mended).order, mended);
        ClassifiedInOrder(errors);
        forall f ensures Names(action.fields, f) <==> Wrong(d.schema, mended, f) {
          ListedNames(errors, f);
          FaultedIff(d.schema, AsArguments(mended).order, mended, f);
        }
      }
    }
  }

  /** An unknown name needs reasoning, and says which name it was. */
  lemma UnknownNeedsReasoning(
    registry: seq<Definition>, requested: string, arguments: Arguments, bindings: seq<Binding>, reference: string)
    requires ResolveTool(registry, requested).None?
    ensures Recovery(registry, requested, arguments, bindings, reference) == NeedsReasoning(UnknownTool(requested))
  {}
}
