/** Deterministic call recovery of `src/call_recovery.rs`, over the tool registry of
    `src/native_tools.rs`. */
module CallRecovery {
  import opened Options
  import opened Strings
  import opened CallSchema
  import opened CallSchemaLaws

  datatype Definition = Definition(
    name: string, aliases: seq<string>, schema: Schema, target: Option<string>, renames: seq<(string, string)>)

  /** The registry's entry for the edit tool. */
  const EDIT := Definition(
    "filesystem.edit", ["edit", "edit_file", "patch", "write_file"],
    Schema(map["operation" := OneOf({"replace", "insertBefore", "insertAfter", "append"}), "file" := AnyText,
               "expectedRevision" := AnyText, "oldString" := AnyText, "old_string" := AnyText, "anchor" := AnyText,
               "newString" := AnyText, "content" := AnyText],
           ["operation", "file"]),
    Some("file"), [("path", "file"), ("filename", "file"), ("target", "file")])

  datatype Confidence = Exact | Alias | Normalized

  // ---- bindings ----

  datatype Binding = Binding(tool: string, field: string, value: string, callId: string)

  /** The request of a call: `None` where it does not parse or lacks the member. */
  datatype Request = Unparsed | Request(kind: Option<string>, name: Option<string>, arguments: Option<Fields>)

  datatype Call = Call(id: string, state: string, request: Request)

  function Get(registry: seq<Definition>, name: string): Option<Definition> {
    if registry == [] then None else if registry[0].name == name then Some(registry[0]) else Get(registry[1..], name)
  }

  /** The binding one call establishes, if any. */
  function Established(registry: seq<Definition>, call: Call): Option<Binding> {
    if call.state != "completed" || call.request.Unparsed? || call.request.kind != Some("native_tool")
      || call.request.name.None? then None
    else
      var definition := Get(registry, call.request.name.value);
      if definition.None? || definition.value.target.None? || call.request.arguments.None? then None
      else
        var field := definition.value.target.value;
        var arguments := call.request.arguments.value;
        if field !in arguments || !arguments[field].Text? || arguments[field].s == "" then None
        else Some(Binding(definition.value.name, field, arguments[field].s, call.id))
  }

  predicate SameTarget(a: Binding, b: Binding) {
    a.tool == b.tool && a.field == b.field && a.value == b.value
  }

  predicate Bound(bindings: seq<Binding>, b: Binding) {
    exists i :: 0 <= i < |bindings| && SameTarget(bindings[i], b)
  }

  /** Every target once, bound to the first call that established it. */
  function Harvest(registry: seq<Definition>, calls: seq<Call>): seq<Binding> {
    if calls == [] then []
    else
      var n := |calls| - 1;
      var before := Harvest(registry, calls[..n]);
      var b := Established(registry, calls[n]);
      if b.None? || Bound(before, b.value) then before else before + [b.value]
  }

  /** `TargetBindings::from_calls`. */
  method FromCalls(registry: seq<Definition>, calls: seq<Call>) returns (bindings: seq<Binding>)
    ensures bindings == Harvest(registry, calls)
  {
    bindings := [];
    for i := 0 to |calls|
      invariant bindings == Harvest(registry, calls[..i])
    {
      var call := calls[i];
      assert calls[..i + 1][..i] == calls[..i];
      if call.state != "completed" { continue; }
      if call.request.Unparsed? || call.request.kind != Some("native_tool") || call.request.name.None? { continue; }
      var definition := Get(registry, call.request.name.value);
      if definition.None? || definition.value.target.None? { continue; }
      var field := definition.value.target.value;
      if call.request.arguments.None? || field !in call.request.arguments.value { continue; }
      var value := call.request.arguments.value[field];
      if !value.Text? || value.s == "" { continue; }
      var b := Binding(definition.value.name, field, value.s, call.id);
      if !Bound(bindings, b) { bindings := bindings + [b]; }
    }
    assert calls[..|calls|] == calls;
  }

  function Matches(bindings: seq<Binding>, tool: string, field: string): seq<Binding> {
    if bindings == [] then []
    else
      var last := bindings[|bindings| - 1];
      Matches(bindings[..|bindings| - 1], tool, field) + if last.tool == tool && last.field == field then [last] else []
  }

  /** `unique_target`. */
  function UniqueTarget(bindings: seq<Binding>, tool: string, field: string): Option<Binding> {
    var matches := Matches(bindings, tool, field);
    if |matches| == 1 then Some(matches[0]) else None
  }

  // ---- tool names ----

  predicate Alphanumeric(c: char) {
    'a' <= c <= 'z' || 'A' <= c <= 'Z' || '0' <= c <= '9'
  }

  function Fold(name: string): string {
    if name == "" then ""
    else
      (if !Alphanumeric(name[0]) then "" else if 'A' <= name[0] <= 'Z' then [name[0] - 'A' + 'a'] else [name[0]])
        + Fold(name[1..])
  }

  predicate FoldsTo(d: Definition, folded: string) {
    Fold(d.name) == folded || exists i :: 0 <= i < |d.aliases| && Fold(d.aliases[i]) == folded
  }

  function Aliased(registry: seq<Definition>, requested: string): seq<Definition> {
    if registry == [] then []
      else (if requested in registry[0].aliases then [registry[0]] else []) + Aliased(registry[1..], requested)
  }

  function Folded(registry: seq<Definition>, folded: string): seq<Definition> {
    if registry == [] then []
      else (if FoldsTo(registry[0], folded) then [registry[0]] else []) + Folded(registry[1..], folded)
  }

  /** `get_by_alias` and `resolve_tool`. */
  function ResolveTool(registry: seq<Definition>, requested: string): Option<(Definition, Confidence)> {
    var aliased := Aliased(registry, requested);
    var folded := Folded(registry, Fold(requested));
    var found :=
      if Get(registry, requested).Some? then Some((Get(registry, requested).value, Exact))
      else if aliased != [] then Some((aliased[0], Alias))
      else if |folded| == 1 then Some((folded[0], Normalized))
      else None;
    if |aliased| > 1 then None else found
  }

  // ---- preflight ----

  datatype Arguments = NotAnObject | Arguments(order: seq<string>, fields: Fields)

  ghost predicate ValidArguments(a: Arguments) {
    a.Arguments? ==> forall k :: k in a.order <==> k in a.fields
  }

  datatype Failure =
    | UnknownTool(requested: string)
    | Malformed(tool: string)
    | Invalid(tool: string, issues: InvalidArguments)

  /** `preflight`: `None` when the arguments can be dispatched. */
  function Preflight(d: Definition, a: Arguments): Option<Failure> {
    if a.NotAnObject? then Some(Malformed(d.name))
    else if Errors(d.schema, a.order, a.fields) == [] then None
    else Some(Invalid(d.name, Classification(Errors(d.schema, a.order, a.fields))))
  }

  // ---- recovery ----

  datatype Repair = ToolResolved(requested: string, canonical: string, confidence: Confidence)
                  | ArgumentRenamed(tool: string, from: string, to: string)
                  | TargetRebound(tool: string, field: string, value: string, fromCall: string)

  datatype Action = Dispatch(definition: Definition, arguments: Fields, repairs: seq<Repair>)
                  | ConstrainedRepair(tool: string, fields: seq<Issue>, reference: string)
                  | NeedsReasoning(failure: Failure)

  function RenameOf(renames: seq<(string, string)>, field: string): Option<string> {
    if renames == [] then None else if renames[0].0 == field then Some(renames[0].1) else RenameOf(renames[1..], field)
  }

  /** The repair of the undeclared fields `issues` names. */
  function Renamed(d: Definition, fields: Fields, repairs: seq<Repair>, issues: seq<Issue>): (Fields, seq<Repair>)
    decreases |issues|
  {
    if issues == [] then (fields, repairs)
    else
      var field := issues[0].field;
      var canonical := RenameOf(d.renames, field);
      if canonical.Some? && canonical.value !in fields && field in fields then
        Renamed(d, (fields - {field})[canonical.value := fields[field]],
          repairs + [ArgumentRenamed(d.name, field, canonical.value)], issues[1..])
      else
        Renamed(d, fields - {field}, repairs, issues[1..])
  }

  /** The value the target is bound to, if `missing` names the target and it is bound uniquely. */
  function Rebinding(d: Definition, missing: seq<Issue>, bindings: seq<Binding>): Option<Binding> {
    if d.target.Some? && (exists i :: 0 <= i < |missing| && missing[i].field == d.target.value)
    then UniqueTarget(bindings, d.name, d.target.value) else None
  }

  /** `Value::Object` of repaired fields; which key comes first no longer matters. */
  function AsArguments(fields: Fields): (a: Arguments)
    ensures ValidArguments(a)
  {
    Arguments(SortedKeys(fields.Keys), fields)
  }

  /** The renaming and rebinding of `recover`. */
  method ApplyRepairs(
    d: Definition, arguments: Arguments, named: seq<Repair>, invalid: InvalidArguments, bindings: seq<Binding>)
    returns (repaired: Fields, repairs: seq<Repair>)
    requires arguments.Arguments?
    ensures (repaired, repairs) == Repaired(d, arguments, named, invalid, bindings)
  {
    repaired, repairs := arguments.fields, named;
    for i := 0 to |invalid.unexpected|
      invariant Renamed(d, repaired, repairs, invalid.unexpected[i..]) ==
        Renamed(d, arguments.fields, named, invalid.unexpected)
    {
      var field := invalid.unexpected[i].field;
      RenamedStep(d, repaired, repairs, invalid.unexpected, i);
      var canonical := RenameOf(d.renames, field);
      if canonical.Some? && canonical.value !in repaired {
        if field in repaired {
          var value := repaired[field];
          repaired := repaired - {field};
          repairs := repairs + [ArgumentRenamed(d.name, field, canonical.value)];
          repaired := repaired[canonical.value := value];
        }
      } else {
        repaired := repaired - {field};
      }
    }
    var binding := Rebinding(d, invalid.missing, bindings);
    if binding.Some? {
      repaired := repaired[d.target.value := Text(binding.value.value)];
      repairs := repairs + [TargetRebound(d.name, d.target.value, binding.value.value, binding.value.callId)];
    }
  }

  lemma RenamedStep(d: Definition, fields: Fields, repairs: seq<Repair>, issues: seq<Issue>, i: nat)
    requires i < |issues|
    ensures var field := issues[i].field;
      var canonical := RenameOf(d.renames, field);
      Renamed(d, fields, repairs, issues[i..]) ==
        if canonical.Some? && canonical.value !in fields then
          if field in fields then
            Renamed(d, (fields - {field})[canonical.value := fields[field]],
              repairs + [ArgumentRenamed(d.name, field, canonical.value)], issues[i + 1..])
          else Renamed(d, fields, repairs, issues[i + 1..])
        else Renamed(d, fields - {field}, repairs, issues[i + 1..])
  {
    assert issues[i..][1..] == issues[i + 1..] && issues[i..][0] == issues[i];
    assert issues[i].field !in fields ==> fields - {issues[i].field} == fields;
  }

  /** `recover`: repair what can be repaired, then preflight again. */
  method Recover(
    registry: seq<Definition>, requested: string, arguments: Arguments, bindings: seq<Binding>, reference: string)
    returns (action: Action)
    ensures action == Recovery(registry, requested, arguments, bindings, reference)
  {
    var resolved := ResolveTool(registry, requested);
    if resolved.None? { return NeedsReasoning(UnknownTool(requested)); }
    var d := resolved.value.0;
    var repairs := [];
    if requested != d.name { repairs := [ToolResolved(requested, d.name, resolved.value.1)]; }
    assert repairs == Announced(requested, d, resolved.value.1);
    action := Settle(d, arguments, repairs, bindings, reference);
  }

  method Settle(
    d: Definition, arguments: Arguments, named: seq<Repair>, bindings: seq<Binding>, reference: string)
    returns (action: Action)
    ensures action == Settled(d, arguments, named, bindings, reference)
  {
    var failure := Preflight(d, arguments);
    if failure.None? { return Dispatch(d, arguments.fields, named); }
    if !failure.value.Invalid? { return NeedsReasoning(failure.value); }
    var repaired, repairs := ApplyRepairs(d, arguments, named, failure.value.issues, bindings);
    var remaining := Preflight(d, AsArguments(repaired));
    if remaining.None? { return Dispatch(d, repaired, repairs); }
    if remaining.value.Invalid? {
      return ConstrainedRepair(d.name, remaining.value.issues.missing + remaining.value.issues.invalid, reference);
    }
    return NeedsReasoning(remaining.value);
  }

  function Announced(requested: string, d: Definition, confidence: Confidence): seq<Repair> {
    if requested != d.name then [ToolResolved(requested, d.name, confidence)] else []
  }

  /** What `Recover` returns, as a function. */
  function Recovery(
    registry: seq<Definition>, requested: string, arguments: Arguments, bindings: seq<Binding>,
    reference: string): Action {
    var resolved := ResolveTool(registry, requested);
    if resolved.None? then NeedsReasoning(UnknownTool(requested))
    else
      var d := resolved.value.0;
      Settled(d, arguments, Announced(requested, d, resolved.value.1), bindings, reference)
  }

  function Settled(
    d: Definition, arguments: Arguments, named: seq<Repair>, bindings: seq<Binding>, reference: string): Action {
    var failure := Preflight(d, arguments);
    if failure.None? then Dispatch(d, arguments.fields, named)
    else if !failure.value.Invalid? then NeedsReasoning(failure.value)
    else
      var (repaired, repairs) := Repaired(d, arguments, named, failure.value.issues, bindings);
      var remaining := Preflight(d, AsArguments(repaired));
      if remaining.None? then Dispatch(d, repaired, repairs)
      else if remaining.value.Invalid? then
        ConstrainedRepair(d.name, remaining.value.issues.missing + remaining.value.issues.invalid, reference)
      else NeedsReasoning(remaining.value)
  }

  function Repaired(
    d: Definition, arguments: Arguments, named: seq<Repair>, issues: InvalidArguments,
    bindings: seq<Binding>): (Fields, seq<Repair>)
    requires arguments.Arguments?
  {
    var (fields, repairs) := Renamed(d, arguments.fields, named, issues.unexpected);
    var binding := Rebinding(d, issues.missing, bindings);
    if binding.Some? then
      (fields[d.target.value := Text(binding.value.value)],
       repairs + [TargetRebound(d.name, d.target.value, binding.value.value, binding.value.callId)])
    else (fields, repairs)
  }
}
