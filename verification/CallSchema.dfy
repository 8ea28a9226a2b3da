/** Tool arguments, the argument schemas of the native tools, and how `src/call_recovery.rs`
    classifies a schema failure. */
module CallSchema {
  import opened Options
  import opened Strings

  datatype Value =
    | Null
    | Flag(b: bool)
    | Number(n: real)
    | Text(s: string)
    | List(items: seq<Value>)
    | Object(fields: map<string, Value>)

  type Fields = map<string, Value>

  /** The field types the registry's schemas use. */
  datatype Kind = AnyText | OneOf(allowed: set<string>) | Whole(minimum: int) | Texts

  /** An object schema with `additionalProperties: false`. */
  datatype Schema = Schema(kinds: map<string, Kind>, required: seq<string>)

  datatype Defect = Missing | Unexpected | WrongType(expected: string) | Constraint(constraint: string)

  /** A schema error; `nullish` says that its offending value renders as `null`. */
  datatype Issue = Issue(field: string, defect: Defect, nullish: bool)

  predicate IsWhole(v: Value) {
    v.Number? && v.n.Floor as real == v.n
  }

  predicate Fits(kind: Kind, v: Value) {
    match kind
    case AnyText => v.Text?
    case OneOf(allowed) => v.Text? && v.s in allowed
    case Whole(minimum) => IsWhole(v) && v.n >= minimum as real
    case Texts => v.List? && forall i :: 0 <= i < |v.items| ==> v.items[i].Text?
  }

  /** The arguments are valid: nothing undeclared, nothing required absent, every value of its type. */
  predicate FitsSchema(schema: Schema, fields: Fields) {
    && fields.Keys <= schema.kinds.Keys
    && (forall k :: k in schema.required ==> k in fields)
    && (forall k :: k in fields && k in schema.kinds ==> Fits(schema.kinds[k], fields[k]))
  }

  // ---- the errors a validator reports ----

  function RequiredErrors(required: seq<string>, fields: Fields): seq<Issue> {
    if required == [] then []
    else
      (if required[0] in fields then [] else [Issue(required[0], Missing, false)])
        + RequiredErrors(required[1..], fields)
  }

  /** One error names the undeclared fields; only the first of them is read. */
  function UndeclaredError(schema: Schema, order: seq<string>): seq<Issue> {
    if order == [] then []
    else if order[0] !in schema.kinds then [Issue(order[0], Unexpected, false)]
    else UndeclaredError(schema, order[1..])
  }

  predicate RendersNull(v: Value) {
    v.Null? || v == Text("null")
  }

  function ItemErrors(field: string, items: seq<Value>): seq<Issue> {
    if items == [] then []
    else
      (if items[0].Text? then [] else [Issue(field, WrongType("string"), RendersNull(items[0]))])
        + ItemErrors(field, items[1..])
  }

  function ValueErrors(field: string, kind: Kind, v: Value): seq<Issue> {
    match kind
    case AnyText => if v.Text? then [] else [Issue(field, WrongType("string"), RendersNull(v))]
    case OneOf(allowed) =>
      (if v.Text? then [] else [Issue(field, WrongType("string"), RendersNull(v))])
      + (if v.Text? && v.s in allowed then [] else [Issue(field, Constraint("not an allowed value"), RendersNull(v))])
    case Whole(minimum) =>
      (if IsWhole(v) then [] else [Issue(field, WrongType("integer"), RendersNull(v))])
      + (if v.Number? && v.n < minimum as real then [Issue(field, Constraint("out of numeric range"), false)] else [])
    case Texts => if v.List? then ItemErrors(field, v.items) else [Issue(field, WrongType("array"), RendersNull(v))]
  }

  function FieldErrors(schema: Schema, keys: seq<string>, fields: Fields): seq<Issue> {
    if keys == [] then []
    else
      var k := keys[0];
      (if k in schema.kinds && k in fields then ValueErrors(k, schema.kinds[k], fields[k]) else [])
        + FieldErrors(schema, keys[1..], fields)
  }

  /** All errors of an object; `order` is its key order. */
  function Errors(schema: Schema, order: seq<string>, fields: Fields): seq<Issue> {
    RequiredErrors(schema.required, fields) + UndeclaredError(schema, order)
      + FieldErrors(schema, SortedKeys(fields.Keys), fields)
  }

  lemma {:induction false} RequiredErrorsAre(required: seq<string>, fields: Fields)
    ensures RequiredErrors(required, fields) == [] <==> forall k :: k in required ==> k in fields
    ensures forall e :: e in RequiredErrors(required, fields) <==>
      e.field in required && e.field !in fields && e == Issue(e.field, Missing, false)
  {
    if required != [] { RequiredErrorsAre(required[1..], fields); }
  }

  lemma {:induction false} UndeclaredErrorIs(schema: Schema, order: seq<string>)
    ensures UndeclaredError(schema, order) == [] <==> forall k :: k in order ==> k in schema.kinds
    ensures UndeclaredError(schema, order) != [] ==>
      exists k :: k in order && k !in schema.kinds && UndeclaredError(schema, order) == [Issue(k, Unexpected, false)]
  {
    if order != [] {
      UndeclaredErrorIs(schema, order[1..]);
      assert order == [order[0]] + order[1..];
    }
  }

  lemma {:induction false} ItemErrorsAre(field: string, items: seq<Value>)
    ensures ItemErrors(field, items) == [] <==> forall i :: 0 <= i < |items| ==> items[i].Text?
    ensures forall e :: e in ItemErrors(field, items) ==> e.field == field && e.defect == WrongType("string")
  {
    if items != [] {
      ItemErrorsAre(field, items[1..]);
      assert forall i :: 0 < i < |items| ==> items[i] == items[1..][i - 1];
    }
  }

  lemma ValueErrorsAre(field: string, kind: Kind, v: Value)
    ensures ValueErrors(field, kind, v) == [] <==> Fits(kind, v)
    ensures forall e :: e in ValueErrors(field, kind, v) ==>
      e.field == field && !e.defect.Missing? && !e.defect.Unexpected?
  {
    if v.List? { ItemErrorsAre(field, v.items); }
  }

  lemma {:induction false} FieldErrorsAre(schema: Schema, keys: seq<string>, fields: Fields)
    ensures FieldErrors(schema, keys, fields) == [] <==>
      forall k :: k in keys && k in schema.kinds && k in fields ==> Fits(schema.kinds[k], fields[k])
    ensures forall e :: e in FieldErrors(schema, keys, fields) ==>
      e.field in keys && e.field in schema.kinds && e.field in fields && !e.defect.Missing? && !e.defect.Unexpected?
  {
    if keys != [] {
      var k := keys[0];
      FieldErrorsAre(schema, keys[1..], fields);
      if k in schema.kinds && k in fields { ValueErrorsAre(k, schema.kinds[k], fields[k]); }
      assert forall x :: x in keys <==> x == k || x in keys[1..];
    }
  }

  predicate Declared(schema: Schema, fields: Fields) {
    forall k :: k in fields ==> k in schema.kinds
  }

  predicate Present(schema: Schema, fields: Fields) {
    forall k :: k in schema.required ==> k in fields
  }

  predicate Typed(schema: Schema, fields: Fields) {
    forall k :: k in fields && k in schema.kinds ==> Fits(schema.kinds[k], fields[k])
  }

  lemma FitsSchemaParts(schema: Schema, fields: Fields)
    ensures FitsSchema(schema, fields) <==> Declared(schema, fields) && Present(schema, fields) && Typed(schema, fields)
  {}

  lemma TypedIff(schema: Schema, fields: Fields)
    ensures FieldErrors(schema, SortedKeys(fields.Keys), fields) == [] <==> Typed(schema, fields)
  {
    FieldErrorsAre(schema, SortedKeys(fields.Keys), fields);
  }

  /** A validator reports nothing exactly for valid arguments. */
  lemma NoErrorsIffFits(schema: Schema, order: seq<string>, fields: Fields)
    requires forall k :: k in order <==> k in fields
    ensures Errors(schema, order, fields) == [] <==> FitsSchema(schema, fields)
  {
    RequiredErrorsAre(schema.required, fields);
    UndeclaredErrorIs(schema, order);
    TypedIff(schema, fields);
    FitsSchemaParts(schema, fields);
    var r, u, f :=
      RequiredErrors(schema.required, fields), UndeclaredError(schema, order),
        FieldErrors(schema, SortedKeys(fields.Keys), fields);
    assert Errors(schema, order, fields) == [] <==> r == [] && u == [] && f == [];
    assert Declared(schema, fields) <==> forall k :: k in order ==> k in schema.kinds;
  }

  // ---- classification ----

  predicate Same(a: Issue, b: Issue) {
    a.field == b.field && a.defect == b.defect
  }

  predicate Described(issues: seq<Issue>, e: Issue) {
    exists i :: 0 <= i < |issues| && Same(issues[i], e)
  }

  /** Each field once per defect, at its first report. */
  function Firsts(errors: seq<Issue>): seq<Issue> {
    if errors == [] then []
    else
      var n := |errors| - 1;
      Firsts(errors[..n]) + if Described(errors[..n], errors[n]) then [] else [errors[n]]
  }

  function Select(issues: seq<Issue>, p: Issue -> bool): seq<Issue> {
    if issues == [] then []
    else Select(issues[..|issues| - 1], p) + if p(issues[|issues| - 1]) then [issues[|issues| - 1]] else []
  }

  predicate NullTyped(e: Issue) {
    e.defect.WrongType? && e.nullish
  }

  predicate Keeps(e: Issue) {
    !NullTyped(e)
  }

  predicate IsMissing(e: Issue) {
    e.defect.Missing?
  }

  predicate IsUnexpected(e: Issue) {
    e.defect.Unexpected?
  }

  predicate IsInvalid(e: Issue) {
    e.defect.WrongType? || e.defect.Constraint?
  }

  function AsMissing(issues: seq<Issue>): (r: seq<Issue>)
    ensures |r| == |issues|
  {
    seq(|issues|, i requires 0 <= i < |issues| => Issue(issues[i].field, Missing, false))
  }

  datatype InvalidArguments = InvalidArguments(missing: seq<Issue>, invalid: seq<Issue>, unexpected: seq<Issue>)

  /** What `classify` makes of the errors: a field that renders as null where another type was
      expected is missing, not invalid. */
  function Classification(errors: seq<Issue>): InvalidArguments {
    var firsts := Firsts(errors);
    InvalidArguments(
      Select(firsts, IsMissing) + AsMissing(Select(Select(firsts, IsInvalid), NullTyped)),
      Select(Select(firsts, IsInvalid), Keeps),
      Select(firsts, IsUnexpected))
  }

  lemma SelectExtends(issues: seq<Issue>, e: Issue, p: Issue -> bool)
    ensures Select(issues + [e], p) == Select(issues, p) + if p(e) then [e] else []
  {
    assert (issues + [e])[..|issues|] == issues;
  }

  lemma FirstsExtends(errors: seq<Issue>, e: Issue)
    ensures Firsts(errors + [e]) == Firsts(errors) + if Described(errors, e) then [] else [e]
  {
    assert (errors + [e])[..|errors|] == errors;
  }

  lemma AsMissingExtends(issues: seq<Issue>, e: Issue)
    ensures AsMissing(issues + [e]) == AsMissing(issues) + [Issue(e.field, Missing, false)]
  {}

  /** Reported once means reported at all. */
  lemma {:induction false} FirstsCover(errors: seq<Issue>, e: Issue)
    ensures Described(Firsts(errors), e) <==> Described(errors, e)
    ensures e in Firsts(errors) ==> e in errors
  {
    if errors != [] {
      var n := |errors| - 1;
      var before, last := errors[..n], errors[n];
      FirstsCover(before, e);
      FirstsCover(before, last);
      DescribedSplit(before, [last], e);
      DescribedSplit(Firsts(before), [last], e);
      assert errors == before + [last];
      assert Described([last], e) ==> Same(last, e);
      if Described([last], e) && Described(before, last) {
        var i :| 0 <= i < n && Same(before[i], last);
        assert Same(before[i], e);
      }
      assert Firsts(before) + [] == Firsts(before);
    }
  }

  lemma DescribedSplit(a: seq<Issue>, b: seq<Issue>, e: Issue)
    ensures Described(a + b, e) <==> Described(a, e) || Described(b, e)
  {
    if i :| 0 <= i < |a| && Same(a[i], e) { assert Same((a + b)[i], e); }
    if i :| 0 <= i < |b| && Same(b[i], e) { assert Same((a + b)[|a| + i], e); }
  }

  /** Grouping one more error. */
  lemma GroupStep(before: seq<Issue>, e: Issue)
    ensures Described(Firsts(before), e) ==> Firsts(before + [e]) == Firsts(before)
    ensures !Described(Firsts(before), e) ==>
      && Firsts(before + [e]) == Firsts(before) + [e]
      && Select(Firsts(before + [e]), IsMissing) ==
          Select(Firsts(before), IsMissing) + (if IsMissing(e) then [e] else [])
      && Select(Firsts(before + [e]), IsInvalid) ==
          Select(Firsts(before), IsInvalid) + (if IsInvalid(e) then [e] else [])
      && Select(Firsts(before + [e]), IsUnexpected) ==
          Select(Firsts(before), IsUnexpected) + (if IsUnexpected(e) then [e] else [])
  {
    FirstsExtends(before, e);
    FirstsCover(before, e);
    SelectExtends(Firsts(before), e, IsMissing);
    SelectExtends(Firsts(before), e, IsInvalid);
    SelectExtends(Firsts(before), e, IsUnexpected);
  }

  /** The three groups of a prefix of the errors. */
  ghost predicate Grouped(
    errors: seq<Issue>, described: seq<Issue>, missing: seq<Issue>, invalid: seq<Issue>, unexpected: seq<Issue>) {
    && described == Firsts(errors)
    && missing == Select(described, IsMissing)
    && invalid == Select(described, IsInvalid)
    && unexpected == Select(described, IsUnexpected)
  }

  lemma GroupOne(
    before: seq<Issue>, e: Issue, described: seq<Issue>, missing: seq<Issue>, invalid: seq<Issue>,
    unexpected: seq<Issue>)
    requires Grouped(before, described, missing, invalid, unexpected)
    ensures Described(described, e) ==> Grouped(before + [e], described, missing, invalid, unexpected)
    ensures !Described(described, e) ==>
      Grouped(before + [e], described + [e],
              if e.defect.Missing? then missing + [e] else missing,
              if IsInvalid(e) then invalid + [e] else invalid,
              if e.defect.Unexpected? then unexpected + [e] else unexpected)
  {
    GroupStep(before, e);
    assert missing + [] == missing && invalid + [] == invalid && unexpected + [] == unexpected;
  }

  method Group(errors: seq<Issue>) returns (missing: seq<Issue>, invalid: seq<Issue>, unexpected: seq<Issue>)
    ensures Grouped(errors, Firsts(errors), missing, invalid, unexpected)
  {
    var described: seq<Issue> := [];
    missing, invalid, unexpected := [], [], [];
    for i := 0 to |errors|
      invariant Grouped(errors[..i], described, missing, invalid, unexpected)
    {
      var e := errors[i];
      assert errors[..i + 1] == errors[..i] + [e];
      GroupOne(errors[..i], e, described, missing, invalid, unexpected);
      if !Described(described, e) {
        described := described + [e];
        match e.defect {
          case Unexpected => unexpected := unexpected + [e];
          case Missing => missing := missing + [e];
          case _ => invalid := invalid + [e];
        }
      }
    }
    assert errors[..|errors|] == errors;
  }

  lemma MoreMissing(sent: seq<Issue>, invalid: seq<Issue>, e: Issue)
    ensures var before := sent + AsMissing(Select(invalid, NullTyped));
      sent + AsMissing(Select(invalid + [e], NullTyped)) ==
        if NullTyped(e) then before + [Issue(e.field, Missing, false)] else before
  {
    var nulls := Select(invalid, NullTyped);
    SelectExtends(invalid, e, NullTyped);
    AsMissingExtends(nulls, e);
    assert nulls + [] == nulls;
    assert sent + (AsMissing(nulls) + [Issue(e.field, Missing, false)]) ==
      sent + AsMissing(nulls) + [Issue(e.field, Missing, false)];
  }

  /** `classify`: group the errors, then move the null-typed ones over to the missing. */
  method Classify(errors: seq<Issue>) returns (r: InvalidArguments)
    ensures r == Classification(errors)
  {
    var sent, invalid, unexpected := Group(errors);
    var missing := sent;
    assert AsMissing([]) == [] && sent + [] == sent;
    for i := 0 to |invalid|
      invariant missing == sent + AsMissing(Select(invalid[..i], NullTyped))
    {
      assert invalid[..i + 1] == invalid[..i] + [invalid[i]];
      MoreMissing(sent, invalid[..i], invalid[i]);
      if NullTyped(invalid[i]) {
        missing := missing + [Issue(invalid[i].field, Missing, false)];
      }
    }
    assert invalid[..|invalid|] == invalid;
    r := InvalidArguments(missing, Select(invalid, Keeps), unexpected);
  }
}
