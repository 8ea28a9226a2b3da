/** The Profile file and the Vault as one two-store transaction (`src/profile.rs`, `src/vault.rs`).
    Reads and writes may fail at any step; a failed write leaves its store as it was, because both
    files are replaced by a rename. Locks make each operation exclusive among cooperating processes. */
module ProfileStore {
  import opened Options
  import opened Strings
  import opened Profiles

  datatype Section = ProfileSection(defaultModel: Option<string>)
                   | ModelsSection(providers: map<string, Provider>, models: map<string, Model>)
                   | Other(text: string)

  /** The top level of the YAML document. */
  type Document = map<string, Section>

  /** YAML and SHA-256. */
  datatype Codec = Codec(parse: string -> Option<Document>, render: Document -> string, hash: string -> string)

  ghost predicate Lawful(codec: Codec) {
    && (forall d :: codec.parse(codec.render(d)) == Some(d))
    && (forall a, b :: codec.hash(a) == codec.hash(b) ==> a == b)
  }

  /** `from_ocg_config`. */
  function ReadProfile(d: Document): Option<Profile> {
    if "profile" in d && d["profile"].ProfileSection? && "models" in d && d["models"].ModelsSection? then
      var p := Profile(d["profile"].defaultModel, d["models"].providers, d["models"].models);
      if Valid(p) then Some(p) else None
    else None
  }

  function WithProfile(d: Document, p: Profile): Document {
    d["profile" := ProfileSection(p.defaultModel)]["models" := ModelsSection(p.providers, p.models)]
  }

  type Credentials = map<string, string>

  datatype State = State(config: Option<string>, credentials: Credentials)

  datatype Error = BadProfile | BadCredential | Missing | Stale | InUse | Exists | Io | RollbackFailed(cause: Error)

  datatype Result = Ok(revision: string) | Stored | Removed(found: bool) | Err(error: Error)

  /** Which steps fail. */
  datatype Faults = Faults(profileLock: bool, readConfig: bool, writeConfig: bool, vaultLock: bool, readVault: bool,
    writeVault: bool, rollback: bool)

  /** What an operation does: the states its writes pass through, and what it returns. */
  datatype Outcome = Outcome(writes: seq<State>, result: Result)

  function Final(s: State, writes: seq<State>): State {
    if writes == [] then s else writes[|writes| - 1]
  }

  function ReplaceLocked(codec: Codec, s: State, expected: string, p: Profile, f: Faults): Outcome {
    if s.config.None? then Outcome([], Err(Missing))
    else if f.readConfig then Outcome([], Err(Io))
    else
      var document := codec.parse(s.config.value);
      if document.None? || ReadProfile(document.value).None? then Outcome([], Err(BadProfile))
      else if expected != codec.hash(s.config.value) then Outcome([], Err(Stale))
      else if !Valid(p) then Outcome([], Err(BadProfile))
      else if f.writeConfig then Outcome([], Err(Io))
      else
        var text := codec.render(WithProfile(document.value, p));
        Outcome([s.(config := Some(text))], Ok(codec.hash(text)))
  }

  function Replaced(codec: Codec, s: State, expected: string, p: Profile, f: Faults): Outcome {
    if !Valid(p) then Outcome([], Err(BadProfile))
    else if f.profileLock then Outcome([], Err(Io))
    else ReplaceLocked(codec, s, expected, p, f)
  }

  function ReplacedWithCredential(
    codec: Codec, s: State, expected: string, p: Profile, name: string, secret: string, f: Faults): Outcome {
    if !Valid(p) then Outcome([], Err(BadProfile))
    else if f.profileLock then Outcome([], Err(Io))
    else if !NameValid(name) || secret == "" then Outcome([], Err(BadCredential))
    else if f.vaultLock || f.readVault then Outcome([], Err(Io))
    else if name in s.credentials then Outcome([], Err(InUse))
    else if f.writeVault then Outcome([], Err(Io))
    else
      var inserted := s.(credentials := s.credentials[name := secret]);
      var commit := ReplaceLocked(codec, inserted, expected, p, f);
      if commit.result.Ok? then Outcome([inserted] + commit.writes, commit.result)
      else if f.rollback then Outcome([inserted] + commit.writes, Err(RollbackFailed(commit.result.error)))
      else
        var after := Final(inserted, commit.writes);
        Outcome([inserted] + commit.writes + [after.(credentials := inserted.credentials - {name})], commit.result)
  }

  function CredentialSet(s: State, name: string, value: string, f: Faults): Outcome {
    if !NameValid(name) || value == "" then Outcome([], Err(BadCredential))
    else if f.vaultLock || f.readVault || f.writeVault then Outcome([], Err(Io))
    else Outcome([s.(credentials := s.credentials[name := value])], Stored)
  }

  function CredentialRemoved(s: State, name: string, f: Faults): Outcome {
    if !NameValid(name) then Outcome([], Err(BadCredential))
    else if f.vaultLock || f.readVault then Outcome([], Err(Io))
    else if name !in s.credentials then Outcome([], Removed(false))
    else if f.writeVault then Outcome([], Err(Io))
    else Outcome([s.(credentials := s.credentials - {name})], Removed(true))
  }

  function Bootstrapped(codec: Codec, s: State, f: Faults): Outcome {
    if f.profileLock then Outcome([], Err(Io))
    else if s.config.Some? then Outcome([], Err(Exists))
    else if f.writeConfig then Outcome([], Err(Io))
    else
      var text := codec.render(WithProfile(map[], Profile(None, map[], map[])));
      Outcome([s.(config := Some(text))], Ok(codec.hash(text)))
  }

  /** The two files. `writes` records every state a write has left behind. */
  class Stores {
    var config: Option<string>
    var credentials: Credentials
    ghost var writes: seq<State>

    ghost function Value(): State
      reads this
    {
      State(config, credentials)
    }

    ghost predicate Did(s: State, before: seq<State>, o: Outcome)
      reads this
    {
      writes == before + o.writes && Value() == Final(s, o.writes)
    }

    method WriteConfig(text: string, fails: bool) returns (ok: bool)
      modifies this
      ensures ok == !fails
      ensures Value() == if ok then old(Value()).(config := Some(text)) else old(Value())
      ensures writes == if ok then old(writes) + [Value()] else old(writes)
    {
      if fails { return false; }
      config := Some(text);
      writes := writes + [Value()];
      return true;
    }

    method WriteVault(contents: Credentials, fails: bool) returns (ok: bool)
      modifies this
      ensures ok == !fails
      ensures Value() == if ok then old(Value()).(credentials := contents) else old(Value())
      ensures writes == if ok then old(writes) + [Value()] else old(writes)
    {
      if fails { return false; }
      credentials := contents;
      writes := writes + [Value()];
      return true;
    }

    method ReplaceUnderLock(codec: Codec, expected: string, p: Profile, f: Faults) returns (r: Result)
      modifies this
      ensures var o := ReplaceLocked(codec, old(Value()), expected, p, f);
        r == o.result && Did(old(Value()), old(writes), o)
    {
      if config.None? { return Err(Missing); }
      if f.readConfig { return Err(Io); }
      var document := codec.parse(config.value);
      if document.None? || ReadProfile(document.value).None? { return Err(BadProfile); }
      if expected != codec.hash(config.value) { return Err(Stale); }
      if !Valid(p) { return Err(BadProfile); }
      var edited := document.value;
      edited := edited["profile" := ProfileSection(p.defaultModel)];
      edited := edited["models" := ModelsSection(p.providers, p.models)];
      var serialized := codec.render(edited);
      var ok := WriteConfig(serialized, f.writeConfig);
      if !ok { return Err(Io); }
      return Ok(codec.hash(serialized));
    }

    method Replace(codec: Codec, expected: string, p: Profile, f: Faults) returns (r: Result)
      modifies this
      ensures var o := Replaced(codec, old(Value()), expected, p, f); r == o.result && Did(old(Value()), old(writes), o)
    {
      if !Valid(p) { return Err(BadProfile); }
      if f.profileLock { return Err(Io); }
      r := ReplaceUnderLock(codec, expected, p, f);
    }

    /** `replace_with_credential`: the Profile edit is the commit of the Vault's `insert_with`. */
    method ReplaceWithCredential(
      codec: Codec, expected: string, p: Profile, name: string, secret: string, f: Faults)
      returns (r: Result)
      modifies this
      ensures var o := ReplacedWithCredential(codec, old(Value()), expected, p, name, secret, f);
        r == o.result && Did(old(Value()), old(writes), o)
    {
      if !Valid(p) { return Err(BadProfile); }
      if f.profileLock { return Err(Io); }
      if !NameValid(name) || secret == "" { return Err(BadCredential); }
      if f.vaultLock || f.readVault { return Err(Io); }
      var contents := credentials;
      if name in contents { return Err(InUse); }
      contents := contents[name := secret];
      var ok := WriteVault(contents, f.writeVault);
      if !ok { return Err(Io); }
      r := ReplaceUnderLock(codec, expected, p, f);
      if r.Err? {
        contents := contents - {name};
        ok := WriteVault(contents, f.rollback);
        if !ok { r := Err(RollbackFailed(r.error)); }
      }
    }

    method SetCredential(name: string, value: string, f: Faults) returns (r: Result)
      modifies this
      ensures var o := CredentialSet(old(Value()), name, value, f); r == o.result && Did(old(Value()), old(writes), o)
    {
      if !NameValid(name) || value == "" { return Err(BadCredential); }
      if f.vaultLock || f.readVault { return Err(Io); }
      var ok := WriteVault(credentials[name := value], f.writeVault);
      if !ok { return Err(Io); }
      return Stored;
    }

    method RemoveCredential(name: string, f: Faults) returns (r: Result)
      modifies this
      ensures var o := CredentialRemoved(old(Value()), name, f); r == o.result && Did(old(Value()), old(writes), o)
    {
      if !NameValid(name) { return Err(BadCredential); }
      if f.vaultLock || f.readVault { return Err(Io); }
      var removed := name in credentials;
      if removed {
        var ok := WriteVault(credentials - {name}, f.writeVault);
        if !ok { return Err(Io); }
      }
      return Removed(removed);
    }

    method Bootstrap(codec: Codec, f: Faults) returns (r: Result)
      modifies this
      ensures var o := Bootstrapped(codec, old(Value()), f); r == o.result && Did(old(Value()), old(writes), o)
    {
      if f.profileLock { return Err(Io); }
      if config.Some? { return Err(Exists); }
      var text := codec.render(WithProfile(map[], Profile(None, map[], map[])));
      var ok := WriteConfig(text, f.writeConfig);
      if !ok { return Err(Io); }
      return Ok(codec.hash(text));
    }
  }
}
