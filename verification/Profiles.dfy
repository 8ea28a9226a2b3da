/** The Profile document of `src/profile.rs` and its structural validity. */
module Profiles {
  import opened Options
  import opened Strings

  datatype Provider = Provider(title: string, endpoint: Option<string>, credentialRef: Option<string>)

  datatype Model = Model(provider: string, id: string, variant: Option<string>, variants: seq<string>)

  datatype Profile = Profile(defaultModel: Option<string>, providers: map<string, Provider>, models: map<string, Model>)

  // ---- endpoints ----

  /** The index of the first character of `s` in `stops`, or the length. */
  function FirstOf(s: string, stops: set<char>): (i: nat)
    ensures i <= |s| && (i < |s| ==> s[i] in stops) && forall k :: 0 <= k < i ==> s[k] !in stops
  {
    if s == "" || s[0] in stops then 0
    else
      var i := FirstOf(s[1..], stops);
      assert forall k :: 1 <= k < i + 1 ==> s[k] == s[1..][k - 1];
      i + 1
  }

  /** What follows the first `://`. */
  function Authority(s: string): Option<string> {
    if s == "" then None else if "://" <= s then Some(s[3..]) else Authority(s[1..])
  }

  predicate Http(endpoint: string) {
    "https://" <= endpoint || "http://" <= endpoint
  }

  /** The checks `validate` makes of an endpoint. */
  predicate EndpointValid(endpoint: string) {
    && endpoint != ""
    && Http(endpoint)
    && var authority := Authority(endpoint);
       authority.Some? ==>
         var at := FirstOf(authority.value, {'@'});
         !(at < |authority.value| && at < FirstOf(authority.value, {'/', '?', '#'}))
  }

  /** `endpoint_usable`. */
  predicate EndpointUsable(endpoint: Option<string>) {
    && endpoint.Some? && endpoint.value != ""
    && Http(endpoint.value)
    && var authority := Authority(endpoint.value);
       authority.Some? && '@' !in authority.value[..FirstOf(authority.value, {'/', '?', '#'})]
  }

  lemma HttpHasAuthority(endpoint: string)
    requires Http(endpoint)
    ensures Authority(endpoint).Some?
  {
    if "http://" <= endpoint {
      Skip(endpoint, 4);
    } else {
      Skip(endpoint, 5);
    }
  }

  lemma {:induction false} Skip(s: string, n: nat)
    requires n + 3 <= |s| && s[n..n + 3] == "://"
    ensures Authority(s).Some?
  {
    if n > 0 {
      assert s[1..][n - 1..n + 2] == s[n..n + 3];
      Skip(s[1..], n - 1);
    } else {
      assert s[..3] == s[0..3];
    }
  }

  /** The two ways the source tests an endpoint agree. */
  lemma EndpointTestsAgree(endpoint: string)
    ensures EndpointValid(endpoint) <==> EndpointUsable(Some(endpoint))
  {
    if Http(endpoint) {
      HttpHasAuthority(endpoint);
      var authority := Authority(endpoint).value;
      AtBeforePath(authority, FirstOf(authority, {'@'}), FirstOf(authority, {'/', '?', '#'}));
    }
  }

  lemma AtBeforePath(authority: string, at: nat, path: nat)
    requires at == FirstOf(authority, {'@'}) && path <= |authority|
    ensures '@' in authority[..path] <==> at < |authority| && at < path
  {
    if at < |authority| && at < path { assert authority[..path][at] == '@'; }
  }

  // ---- validity ----

  predicate ProviderValid(p: Provider) {
    (p.endpoint.Some? ==> EndpointValid(p.endpoint.value)) && (p.credentialRef.Some? ==> p.credentialRef.value != "")
  }

  predicate ModelValid(m: Model, providers: map<string, Provider>) {
    && m.id != "" && m.provider in providers
    && (m.variant.Some? ==> m.variant.value != "" && (m.variants == [] || m.variant.value in m.variants))
  }

  /** `Profile::validate`. */
  predicate Valid(p: Profile) {
    && (forall k :: k in p.providers ==> ProviderValid(p.providers[k]))
    && (forall k :: k in p.models ==> ModelValid(p.models[k], p.providers))
    && (p.defaultModel.Some? ==> p.defaultModel.value in p.models)
  }

  /** The credentials a Profile names. */
  function Named(p: Profile): set<string> {
    set k | k in p.providers && p.providers[k].credentialRef.Some? :: p.providers[k].credentialRef.value
  }

  // ---- credentials ----

  const RESERVED: set<string> :=
    {"PATH", "HOME", "USER", "SHELL", "PWD", "TMPDIR", "HTTP_PROXY", "HTTPS_PROXY", "ALL_PROXY", "NO_PROXY"}

  /** `validate_name` of `src/vault.rs`. */
  predicate NameValid(name: string) {
    && name != "" && name !in RESERVED && !("OCG_" <= name) && |name| <= 128
    && ('A' <= name[0] <= 'Z' || name[0] == '_')
    && forall i :: 0 <= i < |name| ==> 'A' <= name[i] <= 'Z' || '0' <= name[i] <= '9' || name[i] == '_'
  }

  /** What the Vault can hold: `set` and `insert_with` refuse other names and empty values. */
  ghost predicate Storable(credentials: map<string, string>) {
    forall n :: n in credentials ==> NameValid(n) && credentials[n] != ""
  }

  /** `get`, with its check of the name. */
  function Lookup(credentials: map<string, string>, name: string): Option<string> {
    if NameValid(name) && name in credentials then Some(credentials[name]) else None
  }

  /** `executable_choices`, over the Vault's contents. */
  function ExecutableChoices(p: Profile, credentials: map<string, string>): set<string> {
    set k | k in p.models && Executable(p, p.models[k], credentials)
  }

  predicate Executable(p: Profile, m: Model, credentials: map<string, string>) {
    && m.id != "" && m.provider in p.providers
    && EndpointUsable(p.providers[m.provider].endpoint)
    && var ref := p.providers[m.provider].credentialRef;
       ref.Some? ==>
         ref.value != "" && Lookup(credentials, ref.value).Some? && Lookup(credentials, ref.value).value != ""
  }

  /** In a valid Profile whose named credentials are all stored, every model of a provider with an
      endpoint can be executed. */
  lemma NamedCredentialsSuffice(p: Profile, credentials: map<string, string>, k: string)
    requires Valid(p) && Named(p) <= credentials.Keys && Storable(credentials)
    requires k in p.models
    ensures k in ExecutableChoices(p, credentials) <==> p.providers[p.models[k].provider].endpoint.Some?
  {
    var m := p.models[k];
    assert ModelValid(m, p.providers);
    var provider := p.providers[m.provider];
    assert ProviderValid(provider);
    if provider.endpoint.Some? { EndpointTestsAgree(provider.endpoint.value); }
    if provider.credentialRef.Some? { assert provider.credentialRef.value in Named(p); }
  }
}
