/** What classification keeps of the errors: which fields end up missing, and which one unexpected. */
module CallSchemaLaws {
  import opened Options
  import opened Strings
  import opened CallSchema

  lemma {:induction false} SelectMembers(issues: seq<Issue>, p: Issue -> bool, e: Issue)
    ensures e in Select(issues, p) <==> e in issues && p(e)
  {
    if issues != [] {
      SelectMembers(issues[..|issues| - 1], p, e);
      assert issues == issues[..|issues| - 1] + [issues[|issues| - 1]];
    }
  }

  lemma {:induction false} SelectAppend(a: seq<Issue>, b: seq<Issue>, p: Issue -> bool)
    ensures Select(a + b, p) == Select(a, p) + Select(b, p)
  {
    if b == [] {
      assert a + b == a;
    } else {
      var n := |b| - 1;
      SelectAppend(a, b[..n], p);
      assert a + b == (a + b[..n]) + [b[n]] && b == b[..n] + [b[n]];
      SelectExtends(a + b[..n], b[n], p);
    }
  }

  lemma {:induction false} SelectNone(issues: seq<Issue>, p: Issue -> bool)
    requires forall e :: e in issues ==> !p(e)
    ensures Select(issues, p) == []
  {
    if issues != [] { SelectNone(issues[..|issues| - 1], p); }
  }

  ghost predicate Disjoint(a: seq<Issue>, b: seq<Issue>) {
    forall x, y :: x in a && y in b ==> !Same(x, y)
  }

  lemma DisjointDescribed(a: seq<Issue>, b: seq<Issue>, e: Issue)
    requires Disjoint(a, b) && e in b
    ensures !Described(a, e)
  {
    forall i | 0 <= i < |a| ensures !Same(a[i], e) { assert a[i] in a; }
  }

  lemma AppendOne(a: seq<Issue>, b: seq<Issue>)
    requires b != []
    ensures var n := |b| - 1; a + b == (a + b[..n]) + [b[n]] && b == b[..n] + [b[n]] && b[n] in b
  {}

  lemma AppendFirsts(x: seq<Issue>, y: seq<Issue>, z: seq<Issue>)
    ensures x + y + z == x + (y + z)
  {}

  lemma {:induction false} FirstsAppend(a: seq<Issue>, b: seq<Issue>)
    requires Disjoint(a, b)
    ensures Firsts(a + b) == Firsts(a) + Firsts(b)
  {
    if b == [] {
      assert a + b == a;
    } else {
      var n := |b| - 1;
      var last := b[n];
      AppendOne(a, b);
      var front := b[..n];
      FirstsAppend(a, front);
      FirstsExtends(a + front, last);
      FirstsExtends(front, last);
      DisjointDescribed(a, b, last);
      DescribedSplit(a, front, last);
      AppendFirsts(Firsts(a), Firsts(front), if Described(front, last) then [] else [last]);
    }
  }

  lemma {:induction false} FirstsOfSame(s: seq<Issue>)
    requires s != [] && forall x, y :: x in s && y in s ==> Same(x, y)
    ensures Firsts(s) == [s[0]]
  {
    var n := |s| - 1;
    if n > 0 {
      FirstsOfSame(s[..n]);
      assert s[..n][0] == s[0] && s[0] in s && s[n] in s;
      assert Same(s[..n][0], s[n]);
    } else {
      assert s[..n] == [];
    }
  }

  // ---- null-typed fields ----

  ghost predicate HasNull(issues: seq<Issue>, f: string) {
    exists e :: e in issues && NullTyped(e) && e.field == f
  }

  lemma HasNullAppend(a: seq<Issue>, b: seq<Issue>, f: string)
    ensures HasNull(a + b, f) <==> HasNull(a, f) || HasNull(b, f)
  {
    if e :| e in a && NullTyped(e) && e.field == f { assert e in a + b; }
    if e :| e in b && NullTyped(e) && e.field == f { assert e in a + b; }
  }

  /** The first item that is not text. */
  function FirstOdd(items: seq<Value>): Option<Value> {
    if items == [] then None else if items[0].Text? then FirstOdd(items[1..]) else Some(items[0])
  }

  /** The values classification counts as absent. */
  predicate NullLike(kind: Kind, v: Value) {
    match kind
    case AnyText => v.Null?
    case OneOf(_) => v.Null?
    case Whole(_) => v.Null? || v == Text("null")
    case Texts => v.Null? || v == Text("null") || (v.List? && FirstOdd(v.items) == Some(Null))
  }

  lemma {:induction false} ItemErrorsStart(field: string, items: seq<Value>)
    ensures ItemErrors(field, items) == [] <==> FirstOdd(items).None?
    ensures ItemErrors(field, items) != [] ==>
      ItemErrors(field, items)[0] == Issue(field, WrongType("string"), FirstOdd(items) == Some(Null))
  {
    if items != [] && items[0].Text? { ItemErrorsStart(field, items[1..]); }
  }

  lemma ValueNull(field: string, kind: Kind, v: Value)
    ensures HasNull(Firsts(ValueErrors(field, kind, v)), field) <==> NullLike(kind, v)
  {
    var errors := ValueErrors(field, kind, v);
    if kind.Texts? && v.List? {
      ItemErrorsStart(field, v.items);
      ItemErrorsAre(field, v.items);
      if errors != [] {
        FirstsOfSame(errors);
        HasNullOne(errors[0], field);
      }
    } else {
      FewErrors(field, kind, v);
    }
  }

  lemma HasNullOne(e: Issue, f: string)
    ensures HasNull([e], f) <==> NullTyped(e) && e.field == f
  {
    assert e in [e];
  }

  lemma FirstsOfOne(e: Issue)
    ensures Firsts([e]) == [e]
  {
    assert [e][..0] == [];
  }

  lemma FirstsOfTwo(d: Issue, e: Issue)
    requires !Same(d, e)
    ensures Firsts([d, e]) == [d, e]
  {
    FirstsOfOne(d);
    assert [d, e] == [d] + [e];
    FirstsExtends([d], e);
    DescribedOne(d, e);
  }

  lemma DescribedOne(d: Issue, e: Issue)
    ensures Described([d], e) <==> Same(d, e)
  {
    assert [d][0] == d;
  }

  lemma FewErrors(field: string, kind: Kind, v: Value)
    requires !(kind.Texts? && v.List?)
    ensures HasNull(Firsts(ValueErrors(field, kind, v)), field) <==> NullLike(kind, v)
  {
    var errors := ValueErrors(field, kind, v);
    if |errors| == 1 {
      OneError(errors, field);
    } else if |errors| == 2 {
      TwoErrors(errors, field);
    }
  }

  lemma OneError(errors: seq<Issue>, field: string)
    requires |errors| == 1
    ensures HasNull(Firsts(errors), field) <==> NullTyped(errors[0]) && errors[0].field == field
  {
    assert errors == [errors[0]];
    FirstsOfOne(errors[0]);
    HasNullOne(errors[0], field);
  }

  lemma TwoErrors(errors: seq<Issue>, field: string)
    requires |errors| == 2 && !Same(errors[0], errors[1])
    ensures HasNull(Firsts(errors), field) <==>
      (NullTyped(errors[0]) && errors[0].field == field) || (NullTyped(errors[1]) && errors[1].field == field)
  {
    assert errors == [errors[0], errors[1]] && errors == [errors[0]] + [errors[1]];
    FirstsOfTwo(errors[0], errors[1]);
    HasNullOne(errors[0], field);
    HasNullOne(errors[1], field);
    HasNullAppend([errors[0]], [errors[1]], field);
  }

  lemma {:induction false} FieldNull(schema: Schema, keys: seq<string>, fields: Fields, f: string)
    requires Distinct(keys)
    ensures HasNull(Firsts(FieldErrors(schema, keys, fields)), f) <==>
      f in keys && f in schema.kinds && f in fields && NullLike(schema.kinds[f], fields[f])
  {
    if keys != [] {
      var k, rest := keys[0], keys[1..];
      var here := if k in schema.kinds && k in fields then ValueErrors(k, schema.kinds[k], fields[k]) else [];
      FieldNull(schema, rest, fields, f);
      FieldErrorsAre(schema, rest, fields);
      assert forall x :: x in rest ==> x != k;
      assert forall x :: x in keys <==> x == k || x in rest;
      if k in schema.kinds && k in fields {
        ValueErrorsAre(k, schema.kinds[k], fields[k]); ValueNull(k, schema.kinds[k], fields[k]);
      }
      FirstsAppend(here, FieldErrors(schema, rest, fields));
      HasNullAppend(Firsts(here), Firsts(FieldErrors(schema, rest, fields)), f);
      OwnNull(here, k, f);
    }
  }

  lemma OwnNull(here: seq<Issue>, k: string, f: string)
    requires forall e :: e in here ==> e.field == k
    ensures HasNull(Firsts(here), f) ==> f == k
  {
    if e :| e in Firsts(here) && NullTyped(e) && e.field == f { FirstsCover(here, e); }
  }

  // ---- what the classification holds ----

  lemma {:induction false} FirstsParts(schema: Schema, order: seq<string>, fields: Fields)
    ensures Firsts(Errors(schema, order, fields)) ==
      Firsts(RequiredErrors(schema.required, fields)) + UndeclaredError(schema, order)
        + Firsts(FieldErrors(schema, SortedKeys(fields.Keys), fields))
  {
    var r, u, f :=
      RequiredErrors(schema.required, fields), UndeclaredError(schema, order),
        FieldErrors(schema, SortedKeys(fields.Keys), fields);
    RequiredErrorsAre(schema.required, fields);
    UndeclaredErrorIs(schema, order);
    FieldErrorsAre(schema, SortedKeys(fields.Keys), fields);
    FirstsAppend(r + u, f);
    FirstsAppend(r, u);
    if u != [] { FirstsOfOne(u[0]); }
  }

  lemma FirstsKeep(errors: seq<Issue>, p: Issue -> bool)
    requires forall e :: e in errors ==> !p(e)
    ensures Select(Firsts(errors), p) == []
  {
    forall e | e in Firsts(errors) ensures !p(e) { FirstsCover(errors, e); }
    SelectNone(Firsts(errors), p);
  }

  lemma SelectMiddle(a: seq<Issue>, u: seq<Issue>, b: seq<Issue>, p: Issue -> bool)
    requires Select(a, p) == [] && Select(b, p) == []
    ensures Select(a + u + b, p) == Select(u, p)
  {
    SelectAppend(a + u, b, p);
    SelectAppend(a, u, p);
  }

  lemma SelectOne(e: Issue, p: Issue -> bool)
    requires p(e)
    ensures Select([e], p) == [e]
  {
    assert [e][..0] == [];
  }

  lemma SelectOwn(u: seq<Issue>)
    requires |u| <= 1 && forall e :: e in u ==> IsUnexpected(e)
    ensures Select(u, IsUnexpected) == u
  {
    if |u| == 1 {
      assert u == [u[0]];
      SelectOne(u[0], IsUnexpected);
    }
  }

  /** At most one undeclared field is ever reported: the first. */
  lemma {:induction false} UnexpectedIsFirst(schema: Schema, order: seq<string>, fields: Fields)
    ensures Classification(Errors(schema, order, fields)).unexpected == UndeclaredError(schema, order)
  {
    var r, u, f :=
      RequiredErrors(schema.required, fields), UndeclaredError(schema, order),
        FieldErrors(schema, SortedKeys(fields.Keys), fields);
    RequiredErrorsAre(schema.required, fields);
    UndeclaredErrorIs(schema, order);
    FieldErrorsAre(schema, SortedKeys(fields.Keys), fields);
    FirstsParts(schema, order, fields);
    OnlyMiddle(r, u, f);
  }

  lemma OnlyMiddle(r: seq<Issue>, u: seq<Issue>, f: seq<Issue>)
    requires |u| <= 1 && forall e :: e in u ==> IsUnexpected(e)
    requires (forall e :: e in r ==> !IsUnexpected(e)) && (forall e :: e in f ==> !IsUnexpected(e))
    ensures Select(Firsts(r) + u + Firsts(f), IsUnexpected) == u
  {
    FirstsKeep(r, IsUnexpected);
    FirstsKeep(f, IsUnexpected);
    SelectMiddle(Firsts(r), u, Firsts(f), IsUnexpected);
    SelectOwn(u);
  }

  ghost predicate Names(issues: seq<Issue>, f: string) {
    exists e :: e in issues && e.field == f
  }

  lemma NamesAppend(a: seq<Issue>, b: seq<Issue>, f: string)
    ensures Names(a + b, f) <==> Names(a, f) || Names(b, f)
  {
    if e :| e in a && e.field == f { assert e in a + b; }
    if e :| e in b && e.field == f { assert e in a + b; }
  }

  lemma NamesAsMissing(issues: seq<Issue>, f: string)
    ensures Names(AsMissing(issues), f) <==> Names(issues, f)
  {
    if e :| e in issues && e.field == f {
      var i :| 0 <= i < |issues| && issues[i] == e;
      assert AsMissing(issues)[i] in AsMissing(issues);
    }
    if e :| e in AsMissing(issues) && e.field == f {
      var i :| 0 <= i < |issues| && AsMissing(issues)[i] == e;
      assert issues[i] in issues;
    }
  }

  lemma NullNames(firsts: seq<Issue>, f: string)
    ensures Names(Select(Select(firsts, IsInvalid), NullTyped), f) <==> HasNull(firsts, f)
  {
    if e :| e in Select(Select(firsts, IsInvalid), NullTyped) && e.field == f {
      SelectMembers(Select(firsts, IsInvalid), NullTyped, e);
      SelectMembers(firsts, IsInvalid, e);
    }
    if e :| e in firsts && NullTyped(e) && e.field == f {
      SelectMembers(firsts, IsInvalid, e);
      SelectMembers(Select(firsts, IsInvalid), NullTyped, e);
    }
  }

  /** What is missing was required and is absent, and is reported. */
  lemma MissingErrors(schema: Schema, order: seq<string>, fields: Fields, e: Issue)
    requires IsMissing(e)
    ensures e in Errors(schema, order, fields) <==>
      e.field in schema.required && e.field !in fields && e == Issue(e.field, Missing, false)
  {
    RequiredErrorsAre(schema.required, fields);
    UndeclaredErrorIs(schema, order);
    FieldErrorsAre(schema, SortedKeys(fields.Keys), fields);
  }

  lemma FirstOfKind(errors: seq<Issue>, e: Issue) returns (d: Issue)
    requires e in errors
    ensures d in Firsts(errors) && Same(d, e)
  {
    var i :| 0 <= i < |errors| && errors[i] == e;
    assert Same(errors[i], e);
    FirstsCover(errors, e);
    var j :| 0 <= j < |Firsts(errors)| && Same(Firsts(errors)[j], e);
    d := Firsts(errors)[j];
  }

  lemma MissingNames(schema: Schema, order: seq<string>, fields: Fields, f: string)
    ensures Names(Select(Firsts(Errors(schema, order, fields)), IsMissing), f) <==> f in schema.required && f !in fields
  {
    var errors := Errors(schema, order, fields);
    if e :| e in Select(Firsts(errors), IsMissing) && e.field == f {
      SelectMembers(Firsts(errors), IsMissing, e);
      FirstsCover(errors, e);
      MissingErrors(schema, order, fields, e);
    }
    if f in schema.required && f !in fields {
      MissingErrors(schema, order, fields, Issue(f, Missing, false));
      var d := FirstOfKind(errors, Issue(f, Missing, false));
      SelectMembers(Firsts(errors), IsMissing, d);
    }
  }

  lemma NullParts(schema: Schema, order: seq<string>, fields: Fields, f: string)
    ensures HasNull(Firsts(Errors(schema, order, fields)), f) <==>
      HasNull(Firsts(FieldErrors(schema, SortedKeys(fields.Keys), fields)), f)
  {
    var r, u, v :=
      RequiredErrors(schema.required, fields), UndeclaredError(schema, order),
        FieldErrors(schema, SortedKeys(fields.Keys), fields);
    FirstsParts(schema, order, fields);
    HasNullAppend(Firsts(r) + u, Firsts(v), f);
    HasNullAppend(Firsts(r), u, f);
    RequiredErrorsAre(schema.required, fields);
    UndeclaredErrorIs(schema, order);
    if e :| e in Firsts(r) && NullTyped(e) && e.field == f { FirstsCover(r, e); }
  }

  /** The fields reported missing: the required ones that are absent, and the declared ones whose
      value counts as absent. */
  lemma MissingIff(schema: Schema, order: seq<string>, fields: Fields, f: string)
    ensures Names(Classification(Errors(schema, order, fields)).missing, f) <==>
      || (f in schema.required && f !in fields)
      || (f in schema.kinds && f in fields && NullLike(schema.kinds[f], fields[f]))
  {
    var firsts := Firsts(Errors(schema, order, fields));
    NamesAppend(Select(firsts, IsMissing), AsMissing(Select(Select(firsts, IsInvalid), NullTyped)), f);
    NamesAsMissing(Select(Select(firsts, IsInvalid), NullTyped), f);
    NullNames(firsts, f);
    MissingNames(schema, order, fields, f);
    NullParts(schema, order, fields, f);
    SortedDistinct(fields.Keys);
    FieldNull(schema, SortedKeys(fields.Keys), fields, f);
  }

  lemma NullLikeMisfits(kind: Kind, v: Value)
    ensures NullLike(kind, v) ==> !Fits(kind, v)
  {
    if v.List? { OddMisfits(v.items); }
  }

  lemma {:induction false} OddMisfits(items: seq<Value>)
    ensures FirstOdd(items).Some? ==> exists i :: 0 <= i < |items| && !items[i].Text?
  {
    if items != [] && items[0].Text? {
      OddMisfits(items[1..]);
      if i :| 0 <= i < |items| - 1 && !items[1..][i].Text? { assert !items[i + 1].Text?; }
    }
  }
}
