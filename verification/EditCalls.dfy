/** The construction boundary of `src/edit.rs`: from tool arguments to a canonical edit call. */
module EditCalls {
  import opened Options
  import opened Strings
  import Splice
  import opened CallSchema
  import CallRecovery

  datatype EditCall = EditCall(file: string, revision: Option<string>, kind: Splice.Kind, target: Option<string>,
    content: string, repaired: bool)

  datatype Construction = Built(call: EditCall) | Rejected(conflict: EditConflict)

  datatype EditConflict = Invalid | Unsupported

  const ALLOWED: set<string> :=
    {"operation", "file", "expectedRevision", "oldString", "old_string", "anchor", "newString", "content"}

  function TextOf(fields: Fields, key: string): Option<string> {
    if key in fields && fields[key].Text? then Some(fields[key].s) else None
  }

  function KindNamed(name: string): Option<Splice.Kind> {
    if name == "replace" then Some(Splice.Replace)
    else if name == "insertBefore" then Some(Splice.InsertBefore)
    else if name == "insertAfter" then Some(Splice.InsertAfter)
    else if name == "append" then Some(Splice.Append)
    else None
  }

  function NameOf(kind: Splice.Kind): string {
    match kind
    case Replace => "replace"
    case InsertBefore => "insertBefore"
    case InsertAfter => "insertAfter"
    case Append => "append"
  }

  predicate IsDigest(s: string) {
    |s| == 64 && forall i :: 0 <= i < 64 ==> IsHexDigit(s[i])
  }

  function Lower(s: string): (t: string)
    ensures |t| == |s|
  {
    seq(|s|, i requires 0 <= i < |s| => LowerChar(s[i]))
  }

  /** Target, content and whether the legacy alias was used. */
  datatype Parts = Parts(target: Option<string>, content: string, repaired: bool)

  function PartsOf(fields: Fields, kind: Splice.Kind): Option<Parts> {
    match kind
    case Replace =>
      if "anchor" in fields || "content" in fields || ("oldString" in fields && "old_string" in fields) then None
      else
        var alias := "old_string" in fields;
        var target, content := TextOf(fields, if alias then "old_string" else "oldString"), TextOf(fields, "newString");
        if target.None? || content.None? then None else Some(Parts(target, content.value, alias))
    case Append =>
      if "anchor" in fields || "oldString" in fields || "old_string" in fields || "newString" in fields then None
      else
        var content := TextOf(fields, "content");
        if content.None? then None else Some(Parts(None, content.value, false))
    case _ =>
      if "oldString" in fields || "old_string" in fields || "newString" in fields then None
      else
        var target, content := TextOf(fields, "anchor"), TextOf(fields, "content");
        if target.None? || content.None? then None else Some(Parts(target, content.value, false))
  }

  /** `construct_call`, for arguments that are an object. */
  function Construct(fields: Fields): Construction {
    var operation := TextOf(fields, "operation");
    if operation.None? then Rejected(Invalid)
    else if KindNamed(operation.value).None? then Rejected(Unsupported)
    else
      var kind := KindNamed(operation.value).value;
      if !(fields.Keys <= ALLOWED) then Rejected(Invalid)
      else
        var file := TextOf(fields, "file");
        if file.None? then Rejected(Invalid)
        else if "expectedRevision" in fields
          && !(fields["expectedRevision"].Text? && IsDigest(fields["expectedRevision"].s))
        then Rejected(Invalid)
        else
          var revision := if "expectedRevision" in fields then Some(Lower(fields["expectedRevision"].s)) else None;
          var parts := PartsOf(fields, kind);
          if parts.None? || file.value == "" || parts.value.target == Some("") then Rejected(Invalid)
          else Built(EditCall(file.value, revision, kind, parts.value.target, parts.value.content,
            parts.value.repaired))
  }

  /** A call the executor does not refuse as ill-formed. */
  predicate Canonical(call: EditCall) {
    && call.file != ""
    && (call.kind.Append? <==> call.target.None?) && call.target != Some("")
    && (call.revision.Some? ==> IsDigest(call.revision.value) && Lower(call.revision.value) == call.revision.value)
    && (call.repaired ==> call.kind.Replace?)
  }

  /** The arguments that spell a call. */
  function Spelled(call: EditCall): Fields {
    var common := map["operation" := Text(NameOf(call.kind)), "file" := Text(call.file)];
    var dated := if call.revision.Some? then common["expectedRevision" := Text(call.revision.value)] else common;
    var target := if call.target.Some? then Text(call.target.value) else Null;
    match call.kind
    case Replace =>
      dated[if call.repaired then "old_string" else "oldString" := target]["newString" := Text(call.content)]
    case Append => dated["content" := Text(call.content)]
    case _ => dated["anchor" := target]["content" := Text(call.content)]
  }

  lemma LowerDigest(s: string)
    requires IsDigest(s)
    ensures IsDigest(Lower(s)) && Lower(Lower(s)) == Lower(s)
  {
    forall i | 0 <= i < |s| ensures IsHexDigit(Lower(s)[i]) && LowerChar(Lower(s)[i]) == Lower(s)[i] {
      assert IsHexDigit(s[i]);
    }
  }

  lemma KindNames(kind: Splice.Kind)
    ensures KindNamed(NameOf(kind)) == Some(kind)
  {}

  /** What is built is always canonical. */
  lemma BuiltIsCanonical(fields: Fields)
    ensures Construct(fields).Built? ==> Canonical(Construct(fields).call)
  {
    if "expectedRevision" in fields && fields["expectedRevision"].Text? && IsDigest(fields["expectedRevision"].s) {
      LowerDigest(fields["expectedRevision"].s);
    }
  }

  /** Every canonical call can be spelled, and is built from its spelling. */
  lemma SpelledIsBuilt(call: EditCall)
    requires Canonical(call)
    ensures Construct(Spelled(call)) == Built(call)
  {
    KindNames(call.kind);
    SpelledParts(call);
  }

  lemma SpelledParts(call: EditCall)
    requires Canonical(call)
    ensures var f := Spelled(call);
      && f.Keys <= ALLOWED && TextOf(f, "operation") == Some(NameOf(call.kind)) && TextOf(f, "file") == Some(call.file)
      && ("expectedRevision" in f <==> call.revision.Some?)
      && (call.revision.Some? ==> f["expectedRevision"] == Text(call.revision.value))
      && PartsOf(f, call.kind) == Some(Parts(call.target, call.content, call.repaired))
  {}

  /** What is built says what the arguments say: their operation, file, target and text, with a revision
      in lower case. */
  lemma BuiltSays(fields: Fields)
    requires Construct(fields).Built?
    ensures var call := Construct(fields).call;
      && fields["operation"] == Text(NameOf(call.kind)) && fields["file"] == Text(call.file)
      && (call.revision.Some? <==> "expectedRevision" in fields)
      && (call.revision.Some? ==>
            && fields["expectedRevision"].Text? && |call.revision.value| == |fields["expectedRevision"].s|
            && forall i :: 0 <= i < |call.revision.value| ==>
                 call.revision.value[i] == LowerChar(fields["expectedRevision"].s[i]))
      && (call.repaired <==> call.kind.Replace? && "old_string" in fields)
      && match call.kind
         case Replace =>
           fields["newString"] == Text(call.content) && call.target.Some?
           && fields[if call.repaired then "old_string" else "oldString"] == Text(call.target.value)
         case Append => fields["content"] == Text(call.content) && call.target.None?
         case _ =>
           fields["content"] == Text(call.content) && call.target.Some? && fields["anchor"] == Text(call.target.value)
  {
    KindNames(Construct(fields).call.kind);
  }

  // ---- against the advertised schema ----

  const SCHEMA := CallRecovery.EDIT.schema

  /** The fields an operation takes besides `operation`, `file` and `expectedRevision`. */
  predicate ShapeFits(fields: Fields, kind: Splice.Kind) {
    match kind
    case Replace =>
      "anchor" !in fields && "content" !in fields && "newString" in fields
        && ("oldString" in fields <==> "old_string" !in fields)
    case Append =>
      "anchor" !in fields && "oldString" !in fields && "old_string" !in fields && "newString" !in fields
        && "content" in fields
    case _ =>
      "oldString" !in fields && "old_string" !in fields && "newString" !in fields && "anchor" in fields
        && "content" in fields
  }

  predicate NotBlank(fields: Fields, key: string) {
    key in fields ==> fields[key] != Text("")
  }

  lemma FitsIsTexts(fields: Fields)
    ensures FitsSchema(SCHEMA, fields) <==>
      && fields.Keys <= ALLOWED
      && (forall k :: k in fields ==> fields[k].Text?)
      && "file" in fields && "operation" in fields && KindNamed(fields["operation"].s).Some?
  {
    assert SCHEMA.kinds.Keys == ALLOWED;
    assert SCHEMA.required[0] == "operation" && SCHEMA.required[1] == "file";
    assert forall k :: k in ALLOWED && k != "operation" ==> SCHEMA.kinds[k] == AnyText;
    assert SCHEMA.kinds["operation"] == OneOf({"replace", "insertBefore", "insertAfter", "append"});
    assert "operation" in fields && fields["operation"].Text? ==>
      (fields["operation"].s in {"replace", "insertBefore", "insertAfter", "append"} <==>
        KindNamed(fields["operation"].s).Some?);
  }

  /** Construction accepts exactly the arguments that fit the advertised schema, give their operation
      the fields it takes and no others, and have a proper revision, file and target. */
  lemma {:induction false} BuiltIff(fields: Fields)
    ensures Construct(fields).Built? <==>
      && FitsSchema(SCHEMA, fields)
      && ShapeFits(fields, KindNamed(fields["operation"].s).value)
      && ("expectedRevision" in fields ==> IsDigest(fields["expectedRevision"].s))
      && NotBlank(fields, "file") && NotBlank(fields, "anchor")
      && NotBlank(fields, "oldString") && NotBlank(fields, "old_string")
  {
    FitsIsTexts(fields);
    if fields.Keys <= ALLOWED && "operation" in fields && fields["operation"].Text?
      && KindNamed(fields["operation"].s).Some? {
      PartsIff(fields, KindNamed(fields["operation"].s).value);
    }
  }

  lemma PartsIff(fields: Fields, kind: Splice.Kind)
    requires fields.Keys <= ALLOWED
    ensures PartsOf(fields, kind).Some? <==>
      && ShapeFits(fields, kind)
      && forall k :: k in fields && k in {"oldString", "old_string", "anchor", "newString", "content"} ==>
          fields[k].Text?
    ensures PartsOf(fields, kind).Some? ==> (PartsOf(fields, kind).value.target == Some("") <==>
      !(NotBlank(fields, "oldString") && NotBlank(fields, "old_string") && NotBlank(fields, "anchor")))
  {}
}
