/** When each Profile and Vault operation succeeds, told from its input and the faults it meets, and what
    it leaves. */
module ProfileOutcomes {
  import opened Options
  import opened Strings
  import opened Profiles
  import opened ProfileStore
  import opened ProfileStoreLaws

  /** The Profile file can be read as a valid Profile. */
  predicate Readable(codec: Codec, s: State) {
    s.config.Some? && ProfileOf(codec, s).Some?
  }

  /** The locked part of an edit against the text `base` goes through. */
  predicate CanCommit(codec: Codec, s: State, base: string, f: Faults) {
    Readable(codec, s) && s.config == Some(base) && !f.readConfig && !f.writeConfig
  }

  /** An edit succeeds if and only if the new Profile is valid, nothing fails, and the text presented is
      the one in the file; it is refused as stale if and only if a readable file holds another text. */
  lemma ReplacedIff(codec: Codec, s: State, base: string, p: Profile, f: Faults)
    requires Lawful(codec)
    ensures var o := Replaced(codec, s, codec.hash(base), p, f);
      && (o.result.Ok? <==> Valid(p) && !f.profileLock && CanCommit(codec, s, base, f))
      && (o.result == Err(Stale) <==>
            Valid(p) && !f.profileLock && !f.readConfig && Readable(codec, s) && s.config != Some(base))
      && (o.result == Err(Missing) <==> Valid(p) && !f.profileLock && s.config.None?)
  {}

  /** The credential can be inserted. */
  predicate CanInsert(s: State, name: string, secret: string, f: Faults) {
    && NameValid(name) && secret != "" && name !in s.credentials
    && !f.vaultLock && !f.readVault && !f.writeVault
  }

  /** The transaction succeeds if and only if both of its parts can; it fails without a trace, or as a
      failed rollback exactly when the credential went in, the edit did not, and taking it out failed. */
  lemma ReplacedWithCredentialIff(
    codec: Codec, s: State, base: string, p: Profile, name: string, secret: string, f: Faults)
    requires Lawful(codec)
    ensures var o := ReplacedWithCredential(codec, s, codec.hash(base), p, name, secret, f);
      var tried := Valid(p) && !f.profileLock && CanInsert(s, name, secret, f);
      && (o.result.Ok? <==> tried && CanCommit(codec, s, base, f))
      && (o.result.Err? && o.result.error.RollbackFailed? <==> tried && !CanCommit(codec, s, base, f) && f.rollback)
      && (o.writes != [] <==> tried)
      && (o.result == Err(InUse) <==>
            && Valid(p) && !f.profileLock && NameValid(name) && secret != "" && !f.vaultLock && !f.readVault
            && name in s.credentials)
  {
    var inserted := s.(credentials := s.credentials[name := secret]);
    SameConfigNames(codec, s, inserted);
    ReplacedIff(codec, inserted, base, p, f);
  }

  /** Setting a credential puts in exactly it, or changes nothing. */
  lemma SetIff(s: State, name: string, value: string, f: Faults)
    ensures var o := CredentialSet(s, name, value, f); var after := Final(s, o.writes);
      && (o.result.Stored? <==> NameValid(name) && value != "" && !f.vaultLock && !f.readVault && !f.writeVault)
      && after.config == s.config && (o.result.Stored? || after == s)
      && (o.result.Stored? ==>
            && after.credentials.Keys == s.credentials.Keys + {name} && after.credentials[name] == value
            && forall k :: k in s.credentials && k != name ==> after.credentials[k] == s.credentials[k])
  {}

  /** Removing one takes out exactly it, and says whether it was there. */
  lemma RemovedIff(s: State, name: string, f: Faults)
    ensures var o := CredentialRemoved(s, name, f); var after := Final(s, o.writes);
      && (o.result == Removed(true) <==>
            NameValid(name) && name in s.credentials && !f.vaultLock && !f.readVault && !f.writeVault)
      && (o.result == Removed(false) <==>
            NameValid(name) && name !in s.credentials && !f.vaultLock && !f.readVault)
      && after.config == s.config && (o.result == Removed(true) || after == s)
      && (o.result == Removed(true) ==>
            && after.credentials.Keys == s.credentials.Keys - {name}
            && forall k :: k in after.credentials ==> after.credentials[k] == s.credentials[k])
  {}

  /** Bootstrap succeeds if and only if there is no Profile yet, and then leaves a valid, empty one. */
  lemma BootstrappedIff(codec: Codec, s: State, f: Faults)
    requires Lawful(codec)
    ensures var o := Bootstrapped(codec, s, f); var after := Final(s, o.writes);
      && (o.result.Ok? <==> s.config.None? && !f.profileLock && !f.writeConfig)
      && (o.result == Err(Exists) <==> s.config.Some? && !f.profileLock)
      && after.credentials == s.credentials && (o.result.Ok? || after == s)
      && (o.result.Ok? ==>
            ProfileOf(codec, after) == Some(NO_PROFILE) && o.result.revision == codec.hash(after.config.value))
  {
    var d := WithProfile(map[], NO_PROFILE);
    assert codec.parse(codec.render(d)) == Some(d);
    WithProfileReads(map[], NO_PROFILE);
  }

  // ---- what is valid, and what can be executed ----

  /** An HTTP address whose authority, which ends at the first slash, question mark or hash, names no user. */
  ghost predicate PlainAddress(endpoint: string) {
    exists scheme, authority, rest ::
      && scheme in {"http://", "https://"} && endpoint == scheme + (authority + rest)
      && '@' !in authority && (forall c :: c in authority ==> c !in {'/', '?', '#'})
      && (rest == "" || rest[0] in {'/', '?', '#'})
  }

  lemma {:induction false} AuthoritySkips(a: string, more: string)
    requires ':' !in a
    ensures Authority(a + ("://" + more)) == Some(more)
  {
    if a == "" {
      assert "" + ("://" + more) == "://" + more && ("://" + more)[3..] == more;
    } else {
      var s := a + ("://" + more);
      assert s[0] == a[0] && a[0] in a && s[1..] == a[1..] + ("://" + more);
      AuthoritySkips(a[1..], more);
    }
  }

  lemma AuthorityBehind(scheme: string, more: string)
    requires scheme in {"http://", "https://"}
    ensures Authority(scheme + more) == Some(more)
  {
    var name := if scheme == "http://" then "http" else "https";
    assert scheme == name + "://";
    Associative(name, "://", more);
    AuthoritySkips(name, more);
  }

  lemma FirstOfIs(authority: string, rest: string)
    requires forall c :: c in authority ==> c !in {'/', '?', '#'}
    requires rest == "" || rest[0] in {'/', '?', '#'}
    ensures FirstOf(authority + rest, {'/', '?', '#'}) == |authority|
  {
    var s, i := authority + rest, FirstOf(authority + rest, {'/', '?', '#'});
    forall k | 0 <= k < |authority| ensures s[k] !in {'/', '?', '#'} {
      assert s[k] == authority[k] && authority[k] in authority;
    }
    assert rest != "" ==> s[|authority|] == rest[0];
  }

  lemma CutAddress(more: string) returns (n: nat)
    ensures n == FirstOf(more, {'/', '?', '#'}) && more == more[..n] + more[n..]
    ensures forall c :: c in more[..n] ==> c !in {'/', '?', '#'}
    ensures more[n..] == "" || more[n..][0] in {'/', '?', '#'}
  {
    n := FirstOf(more, {'/', '?', '#'});
  }

  lemma UsableIsPlain(endpoint: string)
    requires EndpointUsable(Some(endpoint))
    ensures PlainAddress(endpoint)
  {
    var scheme := if "https://" <= endpoint then "https://" else "http://";
    var more := endpoint[|scheme|..];
    assert endpoint == scheme + more;
    AuthorityBehind(scheme, more);
    var n := CutAddress(more);
    Address(endpoint, scheme, more[..n], more[n..]);
  }

  lemma Address(endpoint: string, scheme: string, authority: string, rest: string)
    requires scheme in {"http://", "https://"} && endpoint == scheme + (authority + rest)
    requires '@' !in authority && (forall c :: c in authority ==> c !in {'/', '?', '#'})
    requires rest == "" || rest[0] in {'/', '?', '#'}
    ensures PlainAddress(endpoint) && EndpointUsable(Some(endpoint))
  {
    AuthorityBehind(scheme, authority + rest);
    FirstOfIs(authority, rest);
    assert (authority + rest)[..|authority|] == authority;
    assert endpoint[..|scheme|] == scheme;
  }

  lemma EndpointIff(endpoint: string)
    ensures EndpointUsable(Some(endpoint)) <==> PlainAddress(endpoint)
  {
    if EndpointUsable(Some(endpoint)) { UsableIsPlain(endpoint); }
    if PlainAddress(endpoint) {
      var scheme, authority, rest :|
        && scheme in {"http://", "https://"} && endpoint == scheme + (authority + rest)
        && '@' !in authority && (forall c :: c in authority ==> c !in {'/', '?', '#'})
        && (rest == "" || rest[0] in {'/', '?', '#'});
      Address(endpoint, scheme, authority, rest);
    }
  }

  /** A model can be executed if and only if it has an id and a provider, the provider a plain address and,
      if it names a credential, one the Vault holds under a valid name. */
  lemma ExecutableIff(p: Profile, credentials: map<string, string>, k: string)
    ensures k in ExecutableChoices(p, credentials) <==>
      && k in p.models && p.models[k].id != "" && p.models[k].provider in p.providers
      && var provider := p.providers[p.models[k].provider];
         && provider.endpoint.Some? && PlainAddress(provider.endpoint.value)
         && (provider.credentialRef.Some? ==>
               var ref := provider.credentialRef.value;
               NameValid(ref) && ref in credentials && credentials[ref] != "")
  {
    if k in p.models && p.models[k].provider in p.providers {
      var endpoint := p.providers[p.models[k].provider].endpoint;
      if endpoint.Some? { EndpointIff(endpoint.value); }
    }
  }

  /** A Profile is valid if and only if its default model is one of its models, every model has an id, a
      provider that is there and a variant it lists, and every provider a plain address and a credential
      name that is not empty, as far as it has them. */
  lemma ValidIff(p: Profile)
    ensures Valid(p) <==>
      && (p.defaultModel.Some? ==> p.defaultModel.value in p.models)
      && (forall k :: k in p.models ==>
            var m := p.models[k];
            && m.id != "" && m.provider in p.providers
            && (m.variant.Some? ==> m.variant.value != "" && (m.variants == [] || m.variant.value in m.variants)))
      && (forall k :: k in p.providers ==>
            var provider := p.providers[k];
            && (provider.endpoint.Some? ==> PlainAddress(provider.endpoint.value))
            && provider.credentialRef != Some(""))
  {
    forall k | k in p.providers && p.providers[k].endpoint.Some?
      ensures EndpointValid(p.providers[k].endpoint.value) <==> PlainAddress(p.providers[k].endpoint.value)
    {
      EndpointTestsAgree(p.providers[k].endpoint.value);
      EndpointIff(p.providers[k].endpoint.value);
    }
  }
}
