/** What every run of Profile and Vault operations keeps, whatever steps fail. */
module ProfileStoreLaws {
  import opened Options
  import opened Profiles
  import opened ProfileStore

  /** The document behind a state, if it can be read. */
  function DocumentOf(codec: Codec, s: State): Option<Document> {
    if s.config.None? then None else codec.parse(s.config.value)
  }

  function ProfileOf(codec: Codec, s: State): Option<Profile> {
    var d := DocumentOf(codec, s);
    if d.None? then None else ReadProfile(d.value)
  }

  function NamedIn(codec: Codec, s: State): set<string> {
    if ProfileOf(codec, s).Some? then Named(ProfileOf(codec, s).value) else {}
  }

  // ---- one edit ----

  lemma WithProfileReads(d: Document, p: Profile)
    requires Valid(p)
    ensures ReadProfile(WithProfile(d, p)) == Some(p)
    ensures forall k :: k != "profile" && k != "models" ==>
      (k in WithProfile(d, p) <==> k in d) && (k in d ==> WithProfile(d, p)[k] == d[k])
  {}

  /** A state is the edit of `before` to `p`, made against the text `base`. */
  ghost predicate Edited(codec: Codec, before: State, base: string, p: Profile, after: State) {
    && before.config == Some(base) && codec.parse(base).Some? && ReadProfile(codec.parse(base).value).Some?
    && after.config == Some(codec.render(WithProfile(codec.parse(base).value, p)))
    && ProfileOf(codec, after) == Some(p)
    && forall k :: k != "profile" && k != "models" ==>
         (k in DocumentOf(codec, after).value <==> k in codec.parse(base).value)
         && (k in codec.parse(base).value ==> DocumentOf(codec, after).value[k] == codec.parse(base).value[k])
  }

  /** A success is applied to exactly the document whose revision was presented, replaces its
      Profile, preserves its other sections and returns the new revision. */
  lemma EditIsOfPresented(codec: Codec, s: State, base: string, p: Profile, f: Faults)
    requires Lawful(codec)
    ensures var o := ReplaceLocked(codec, s, codec.hash(base), p, f);
      if o.result.Ok? then
        && |o.writes| == 1 && o.writes[0].credentials == s.credentials
        && Edited(codec, s, base, p, o.writes[0])
        && o.result.revision == codec.hash(o.writes[0].config.value)
      else o.writes == [] && !o.result.error.RollbackFailed?
  {
    var o := ReplaceLocked(codec, s, codec.hash(base), p, f);
    if o.result.Ok? {
      var d := codec.parse(base).value;
      WithProfileReads(d, p);
      assert codec.parse(codec.render(WithProfile(d, p))) == Some(WithProfile(d, p));
    }
  }

  /** A stale revision never commits. */
  lemma StaleNeverCommits(codec: Codec, s: State, base: string, p: Profile, name: string, secret: string, f: Faults)
    requires Lawful(codec) && s.config != Some(base)
    ensures Replaced(codec, s, codec.hash(base), p, f).result.Err?
      && Replaced(codec, s, codec.hash(base), p, f).writes == []
    ensures ReplacedWithCredential(codec, s, codec.hash(base), p, name, secret, f).result.Err?
  {
    EditIsOfPresented(codec, s, base, p, f);
    EditIsOfPresented(codec, s.(credentials := s.credentials[name := secret]), base, p, f);
  }

  // ---- the transaction ----

  lemma InsertRemove(credentials: Credentials, name: string, secret: string)
    requires name !in credentials
    ensures credentials[name := secret] - {name} == credentials
  {}

  /** The whole effect of `replace_with_credential`: both stores change, or neither, or the failed
      rollback is reported and only the new credential is left behind. */
  lemma CredentialEditIsAtomic(
    codec: Codec, s: State, base: string, p: Profile, name: string, secret: string, f: Faults)
    requires Lawful(codec)
    ensures var o := ReplacedWithCredential(codec, s, codec.hash(base), p, name, secret, f);
      var after := Final(s, o.writes);
      if o.result.Ok? then
        name !in s.credentials && after.credentials == s.credentials[name := secret] && Edited(codec, s, base, p, after)
      else if o.result.error.RollbackFailed? then
        name !in s.credentials && after == s.(credentials := s.credentials[name := secret])
      else after == s
  {
    EditIsOfPresented(codec, s.(credentials := s.credentials[name := secret]), base, p, f);
    if name !in s.credentials { InsertRemove(s.credentials, name, secret); }
  }

  /** So a failed call changed something exactly when it says that its rollback failed. */
  lemma FailureIsCleanIff(codec: Codec, s: State, base: string, p: Profile, name: string, secret: string, f: Faults)
    requires Lawful(codec)
    ensures var o := ReplacedWithCredential(codec, s, codec.hash(base), p, name, secret, f);
      o.result.Err? ==> (Final(s, o.writes) == s <==> !o.result.error.RollbackFailed?)
  {
    CredentialEditIsAtomic(codec, s, base, p, name, secret, f);
    assert name !in s.credentials ==> s.credentials[name := secret] != s.credentials;
  }

  /** At every intermediate point the credential is in the Vault before the Profile changes, other
      credentials are untouched, and a name already in use is never written. */
  lemma VaultFirst(codec: Codec, s: State, base: string, p: Profile, name: string, secret: string, f: Faults, i: nat)
    requires Lawful(codec)
    requires i < |ReplacedWithCredential(codec, s, codec.hash(base), p, name, secret, f).writes|
    ensures var w := ReplacedWithCredential(codec, s, codec.hash(base), p, name, secret, f).writes[i];
      && name !in s.credentials
      && (w.config != s.config ==>
          name in w.credentials && w.credentials[name] == secret && Edited(codec, s, base, p, w))
      && (forall k :: k != name ==>
          (k in w.credentials <==> k in s.credentials) && (k in s.credentials ==> w.credentials[k] == s.credentials[k]))
  {
    var inserted := s.(credentials := s.credentials[name := secret]);
    EditIsOfPresented(codec, inserted, base, p, f);
    if name !in s.credentials { InsertRemove(s.credentials, name, secret); }
  }

  // ---- runs ----

  datatype Op = Replace(base: string, profile: Profile)
              | ReplaceWithCredential(base: string, profile: Profile, name: string, secret: string)
              | SetCredential(name: string, value: string)
              | RemoveCredential(name: string)
              | Bootstrap

  /** An editor presents the revision of the text it read, `base`. */
  function Do(codec: Codec, s: State, op: Op, f: Faults): Outcome {
    match op
    case Replace(base, p) => Replaced(codec, s, codec.hash(base), p, f)
    case ReplaceWithCredential(base, p, name, secret) =>
      ReplacedWithCredential(codec, s, codec.hash(base), p, name, secret, f)
    case SetCredential(name, value) => CredentialSet(s, name, value, f)
    case RemoveCredential(name) => CredentialRemoved(s, name, f)
    case Bootstrap => Bootstrapped(codec, s, f)
  }

  datatype Step = Step(op: Op, faults: Faults)

  /** The state after the first `|steps|` operations. */
  function After(codec: Codec, s: State, steps: seq<Step>): State {
    if steps == [] then s
    else
      var before := After(codec, s, steps[..|steps| - 1]);
      var last := steps[|steps| - 1];
      Final(before, Do(codec, before, last.op, last.faults).writes)
  }

  predicate IsEdit(op: Op) {
    op.Replace? || op.ReplaceWithCredential?
  }

  /** A success that wrote the Profile: the text its caller presented (`None` for bootstrap), the
      Profile it put there, and the text it left. */
  datatype Link = Link(base: Option<string>, profile: Profile, text: string)

  const NO_PROFILE := Profile(None, map[], map[])

  function LinkOf(codec: Codec, s: State, op: Op, f: Faults): Option<Link> {
    var o := Do(codec, s, op, f);
    var after := Final(s, o.writes);
    if !o.result.Ok? || after.config.None? then None
    else if IsEdit(op) then Some(Link(Some(op.base), op.profile, after.config.value))
    else Some(Link(None, NO_PROFILE, after.config.value))
  }

  /** The successes of a run, in order. */
  function Links(codec: Codec, s: State, steps: seq<Step>): seq<Link> {
    if steps == [] then []
    else
      var n := |steps| - 1;
      var before := Links(codec, s, steps[..n]);
      var link := LinkOf(codec, After(codec, s, steps[..n]), steps[n].op, steps[n].faults);
      if link.Some? then before + [link.value] else before
  }

  function LastText(start: Option<string>, links: seq<Link>): Option<string> {
    if links == [] then start else Some(links[|links| - 1].text)
  }

  /** Each link presents the text the one before it left, and leaves that text with its Profile. */
  ghost predicate Chained(codec: Codec, start: Option<string>, links: seq<Link>) {
    forall i :: 0 <= i < |links| ==>
      && links[i].base == LastText(start, links[..i])
      && (links[i].base.Some? ==> codec.parse(links[i].base.value).Some?)
      && links[i].text == codec.render(WithProfile(
           if links[i].base.Some? then codec.parse(links[i].base.value).value else map[], links[i].profile))
  }

  /** One operation: a success is a link on the text it met, and anything else leaves the text alone. */
  lemma LinkFits(codec: Codec, s: State, op: Op, f: Faults)
    requires Lawful(codec)
    ensures var after := Final(s, Do(codec, s, op, f).writes); var link := LinkOf(codec, s, op, f);
      if link.None? then after.config == s.config
      else
        && link.value.base == s.config && after.config == Some(link.value.text)
        && (s.config.Some? ==> codec.parse(s.config.value).Some?)
        && link.value.text == codec.render(WithProfile(
             if s.config.Some? then codec.parse(s.config.value).value else map[], link.value.profile))
  {
    if op.Replace? {
      EditIsOfPresented(codec, s, op.base, op.profile, f);
    } else if op.ReplaceWithCredential? {
      CredentialEditIsAtomic(codec, s, op.base, op.profile, op.name, op.secret, f);
    }
  }

  lemma ChainGrows(codec: Codec, start: Option<string>, links: seq<Link>, link: Link)
    requires Chained(codec, start, links) && link.base == LastText(start, links)
    requires link.base.Some? ==> codec.parse(link.base.value).Some?
    requires link.text == codec.render(WithProfile(
      if link.base.Some? then codec.parse(link.base.value).value else map[], link.profile))
    ensures Chained(codec, start, links + [link])
  {
    var more := links + [link];
    forall i | 0 <= i < |more| ensures more[..i] == if i < |links| then links[..i] else links {}
  }

  /** In every run the successes form one chain: each presented exactly the text the one before it
      left, beginning with the initial text and ending with the final one. */
  lemma {:induction false} SuccessesFormOneChain(codec: Codec, s: State, steps: seq<Step>)
    requires Lawful(codec)
    ensures Chained(codec, s.config, Links(codec, s, steps))
    ensures After(codec, s, steps).config == LastText(s.config, Links(codec, s, steps))
  {
    if steps != [] {
      var n := |steps| - 1;
      var before := After(codec, s, steps[..n]);
      SuccessesFormOneChain(codec, s, steps[..n]);
      LinkFits(codec, before, steps[n].op, steps[n].faults);
      var link := LinkOf(codec, before, steps[n].op, steps[n].faults);
      if link.Some? { ChainGrows(codec, s.config, Links(codec, s, steps[..n]), link.value); }
    }
  }

  lemma ChainReturns(codec: Codec, start: Option<string>, links: seq<Link>, j: nat)
    requires Chained(codec, start, links) && 0 < j < |links|
    ensures links[j].base == Some(links[j - 1].text)
  {
    assert links[..j][j - 1] == links[j - 1];
  }

  /** So no update is lost: of two edits made from one reading the second lands only if the success
      just before it had put that very text back. */
  lemma {:induction false} NoLostUpdate(codec: Codec, s: State, steps: seq<Step>, i: nat, j: nat)
    requires Lawful(codec) && i < j < |Links(codec, s, steps)|
    requires Links(codec, s, steps)[i].base == Links(codec, s, steps)[j].base
    ensures Some(Links(codec, s, steps)[j - 1].text) == Links(codec, s, steps)[i].base
  {
    SuccessesFormOneChain(codec, s, steps);
    ChainReturns(codec, s.config, Links(codec, s, steps), j);
  }

  lemma StepKeepsSections(codec: Codec, s: State, op: Op, f: Faults, k: string)
    requires Lawful(codec) && k != "profile" && k != "models" && DocumentOf(codec, s).Some?
    ensures var after := Final(s, Do(codec, s, op, f).writes);
      && DocumentOf(codec, after).Some?
      && (k in DocumentOf(codec, after).value <==> k in DocumentOf(codec, s).value)
      && (k in DocumentOf(codec, s).value ==> DocumentOf(codec, after).value[k] == DocumentOf(codec, s).value[k])
  {
    if op.Replace? {
      EditIsOfPresented(codec, s, op.base, op.profile, f);
    } else if op.ReplaceWithCredential? {
      CredentialEditIsAtomic(codec, s, op.base, op.profile, op.name, op.secret, f);
    }
  }

  /** No run ever changes another section of the document. */
  lemma {:induction false} OtherSectionsSurvive(codec: Codec, s: State, steps: seq<Step>, k: string)
    requires Lawful(codec) && k != "profile" && k != "models" && DocumentOf(codec, s).Some?
    ensures var after := After(codec, s, steps);
      && DocumentOf(codec, after).Some?
      && (k in DocumentOf(codec, after).value <==> k in DocumentOf(codec, s).value)
      && (k in DocumentOf(codec, s).value ==> DocumentOf(codec, after).value[k] == DocumentOf(codec, s).value[k])
  {
    if steps != [] {
      var n := |steps| - 1;
      OtherSectionsSurvive(codec, s, steps[..n], k);
      StepKeepsSections(codec, After(codec, s, steps[..n]), steps[n].op, steps[n].faults, k);
    }
  }

  // ---- what is stored can be looked up ----

  lemma StepStorable(codec: Codec, s: State, op: Op, f: Faults)
    requires Lawful(codec) && Storable(s.credentials)
    ensures Storable(Final(s, Do(codec, s, op, f).writes).credentials)
  {
    if op.Replace? {
      EditIsOfPresented(codec, s, op.base, op.profile, f);
    } else if op.ReplaceWithCredential? {
      CredentialEditIsAtomic(codec, s, op.base, op.profile, op.name, op.secret, f);
    }
  }

  /** In every run the Vault holds valid names and non-empty values only. */
  lemma {:induction false} RunsStayStorable(codec: Codec, s: State, steps: seq<Step>)
    requires Lawful(codec) && Storable(s.credentials)
    ensures Storable(After(codec, s, steps).credentials)
  {
    if steps != [] {
      var n := |steps| - 1;
      RunsStayStorable(codec, s, steps[..n]);
      StepStorable(codec, After(codec, s, steps[..n]), steps[n].op, steps[n].faults);
    }
  }

  // ---- named credentials are stored ----

  /** The credentials the text `base` names. */
  function NamedBy(codec: Codec, base: string): set<string> {
    NamedIn(codec, State(Some(base), map[]))
  }

  /** An editor only names what its reading named, or the credential it brings. Removals are free. */
  predicate Honest(codec: Codec, op: Op) {
    match op
    case Replace(base, p) => Named(p) <= NamedBy(codec, base)
    case ReplaceWithCredential(base, p, name, _) => Named(p) <= NamedBy(codec, base) + {name}
    case SetCredential(_, _) => true
    case RemoveCredential(_) => true
    case Bootstrap => true
  }

  predicate Closed(codec: Codec, s: State) {
    NamedIn(codec, s) <= s.credentials.Keys
  }

  lemma EditedNames(codec: Codec, before: State, base: string, p: Profile, after: State)
    requires Edited(codec, before, base, p, after)
    ensures NamedIn(codec, after) == Named(p) && NamedIn(codec, before) == NamedBy(codec, base)
  {}

  lemma SameConfigNames(codec: Codec, a: State, b: State)
    requires a.config == b.config
    ensures NamedIn(codec, a) == NamedIn(codec, b)
  {}

  lemma BootstrapClosed(codec: Codec, s: State, f: Faults)
    requires Lawful(codec) && Bootstrapped(codec, s, f).writes != []
    ensures |Bootstrapped(codec, s, f).writes| == 1 && Closed(codec, Bootstrapped(codec, s, f).writes[0])
  {
    var empty := Profile(None, map[], map[]);
    var d := WithProfile(map[], empty);
    assert codec.parse(codec.render(d)) == Some(d);
    WithProfileReads(map[], empty);
    assert Named(empty) == {};
  }

  lemma CredentialEditClosed(codec: Codec, s: State, op: Op, f: Faults, i: nat)
    requires Lawful(codec) && op.ReplaceWithCredential? && Honest(codec, op) && Closed(codec, s)
      && i < |Do(codec, s, op, f).writes|
    ensures Closed(codec, Do(codec, s, op, f).writes[i])
  {
    var w := Do(codec, s, op, f).writes[i];
    VaultFirst(codec, s, op.base, op.profile, op.name, op.secret, f, i);
    if w.config != s.config {
      EditedNames(codec, s, op.base, op.profile, w);
    } else {
      SameConfigNames(codec, s, w);
    }
  }

  /** The operation removes a credential that the Profile names. */
  predicate Breaks(codec: Codec, s: State, op: Op, f: Faults) {
    op.RemoveCredential? && op.name in NamedIn(codec, s) && Do(codec, s, op, f).writes != []
  }

  lemma RemovalClosedIff(codec: Codec, s: State, op: Op, f: Faults, i: nat)
    requires op.RemoveCredential? && Closed(codec, s) && i < |Do(codec, s, op, f).writes|
    ensures Closed(codec, Do(codec, s, op, f).writes[i]) <==> !Breaks(codec, s, op, f)
  {
    SameConfigNames(codec, s, Do(codec, s, op, f).writes[i]);
  }

  lemma StepClosed(codec: Codec, s: State, op: Op, f: Faults, i: nat)
    requires Lawful(codec) && Honest(codec, op) && Closed(codec, s) && i < |Do(codec, s, op, f).writes|
    ensures Closed(codec, Do(codec, s, op, f).writes[i]) <==> !Breaks(codec, s, op, f)
  {
    match op {
      case Replace(base, p) =>
        EditIsOfPresented(codec, s, base, p, f);
        EditedNames(codec, s, base, p, Do(codec, s, op, f).writes[i]);
      case ReplaceWithCredential(_, _, _, _) => CredentialEditClosed(codec, s, op, f, i);
      case Bootstrap => BootstrapClosed(codec, s, f);
      case SetCredential(_, _) => SameConfigNames(codec, s, Do(codec, s, op, f).writes[i]);
      case RemoveCredential(_) => RemovalClosedIff(codec, s, op, f, i);
    }
  }

  ghost predicate AllHonest(codec: Codec, steps: seq<Step>) {
    forall n :: 0 <= n < |steps| ==> Honest(codec, steps[n].op)
  }

  /** No step of the run removes a credential that the Profile names at that point. */
  ghost predicate NothingBreaks(codec: Codec, s: State, steps: seq<Step>) {
    forall n :: 0 <= n < |steps| ==> !Breaks(codec, After(codec, s, steps[..n]), steps[n].op, steps[n].faults)
  }

  /** The states the `n`-th step of a run writes. */
  function WritesAt(codec: Codec, s: State, steps: seq<Step>, n: nat): seq<State>
    requires n < |steps|
  {
    Do(codec, After(codec, s, steps[..n]), steps[n].op, steps[n].faults).writes
  }

  lemma FinalClosed(codec: Codec, s: State, op: Op, f: Faults)
    requires Lawful(codec) && Honest(codec, op) && Closed(codec, s) && !Breaks(codec, s, op, f)
    ensures Closed(codec, Final(s, Do(codec, s, op, f).writes))
  {
    var writes := Do(codec, s, op, f).writes;
    if writes != [] { StepClosed(codec, s, op, f, |writes| - 1); }
  }

  lemma {:induction false} RunsStayClosed(codec: Codec, s: State, steps: seq<Step>, n: nat)
    requires Lawful(codec) && Closed(codec, s) && AllHonest(codec, steps) && n <= |steps|
    requires forall m :: 0 <= m < n ==> !Breaks(codec, After(codec, s, steps[..m]), steps[m].op, steps[m].faults)
    ensures Closed(codec, After(codec, s, steps[..n]))
  {
    if n > 0 {
      var m := n - 1;
      assert steps[..n][..m] == steps[..m];
      RunsStayClosed(codec, s, steps, m);
      FinalClosed(codec, After(codec, s, steps[..m]), steps[m].op, steps[m].faults);
    }
  }

  /** The first step that breaks leaves a named credential missing. */
  lemma {:induction false} FirstBreak(codec: Codec, s: State, steps: seq<Step>, n: nat) returns (m: nat)
    requires Lawful(codec) && Closed(codec, s) && AllHonest(codec, steps) && n < |steps|
    requires Breaks(codec, After(codec, s, steps[..n]), steps[n].op, steps[n].faults)
    ensures m < |steps| && WritesAt(codec, s, steps, m) != [] && !Closed(codec, WritesAt(codec, s, steps, m)[0])
  {
    if k :| 0 <= k < n && Breaks(codec, After(codec, s, steps[..k]), steps[k].op, steps[k].faults) {
      m := FirstBreak(codec, s, steps, k);
    } else {
      m := n;
      RunsStayClosed(codec, s, steps, n);
      StepClosed(codec, After(codec, s, steps[..n]), steps[n].op, steps[n].faults, 0);
    }
  }

  /** In every run of honest editors with removals at any point, whatever fails, every credential the
      Profile names is in the Vault after every single write if and only if no removal took out a
      credential that the Profile named at that point. */
  lemma {:induction false} NamedCredentialsAreStored(codec: Codec, s: State, steps: seq<Step>)
    requires Lawful(codec) && Closed(codec, s) && AllHonest(codec, steps)
    ensures NothingBreaks(codec, s, steps) <==>
      forall n, i :: 0 <= n < |steps| && 0 <= i < |WritesAt(codec, s, steps, n)| ==>
        Closed(codec, WritesAt(codec, s, steps, n)[i])
  {
    if NothingBreaks(codec, s, steps) {
      forall n, i | 0 <= n < |steps| && 0 <= i < |WritesAt(codec, s, steps, n)|
        ensures Closed(codec, WritesAt(codec, s, steps, n)[i])
      {
        RunsStayClosed(codec, s, steps, n);
        StepClosed(codec, After(codec, s, steps[..n]), steps[n].op, steps[n].faults, i);
      }
    } else {
      var n :| 0 <= n < |steps| && Breaks(codec, After(codec, s, steps[..n]), steps[n].op, steps[n].faults);
      var m := FirstBreak(codec, s, steps, n);
    }
  }

  // ---- a named credential that is removed ----

  const NO_FAULTS := Faults(false, false, false, false, false, false, false)

  const KEYED := Profile(None, map["p" := Provider("P", None, Some("K"))], map[])

  function EmptyText(codec: Codec): string {
    codec.render(WithProfile(map[], NO_PROFILE))
  }

  function KeyedText(codec: Codec): string {
    codec.render(WithProfile(WithProfile(map[], NO_PROFILE), KEYED))
  }

  lemma AfterMore(codec: Codec, s: State, steps: seq<Step>, step: Step)
    ensures var before := After(codec, s, steps);
      After(codec, s, steps + [step]) == Final(before, Do(codec, before, step.op, step.faults).writes)
  {
    assert (steps + [step])[..|steps|] == steps;
  }

  lemma KeyedEdit(codec: Codec)
    requires Lawful(codec)
    ensures var s := State(Some(EmptyText(codec)), map[]); var op := Keying(codec);
      Final(s, Do(codec, s, op, NO_FAULTS).writes) == State(Some(KeyedText(codec)), map["K" := "secret"])
  {
    WithProfileReads(map[], NO_PROFILE);
    assert codec.parse(EmptyText(codec)) == Some(WithProfile(map[], NO_PROFILE));
  }

  lemma KeyedNames(codec: Codec)
    requires Lawful(codec)
    ensures NamedBy(codec, KeyedText(codec)) == {"K"}
  {
    var d := WithProfile(WithProfile(map[], NO_PROFILE), KEYED);
    WithProfileReads(WithProfile(map[], NO_PROFILE), KEYED);
    assert codec.parse(codec.render(d)) == Some(d);
    KeyedNamed();
  }

  lemma KeyedNamed()
    ensures Named(KEYED) == {"K"}
  {
    assert "p" in KEYED.providers;
  }

  /** An edit that brings credential `K` and names it. */
  function Keying(codec: Codec): Op {
    ReplaceWithCredential(EmptyText(codec), KEYED, "K", "secret")
  }

  /** Bootstrap, that edit, and the removal of `K`. */
  function Removing(codec: Codec): seq<Step> {
    [Step(Bootstrap, NO_FAULTS)] + [Step(Keying(codec), NO_FAULTS)] + [Step(RemoveCredential("K"), NO_FAULTS)]
  }

  lemma RemovingEnds(codec: Codec)
    requires Lawful(codec)
    ensures After(codec, State(None, map[]), Removing(codec)) == State(Some(KeyedText(codec)), map[])
  {
    var s := State(None, map[]);
    var first, second, third := Step(Bootstrap, NO_FAULTS), Step(Keying(codec), NO_FAULTS),
      Step(RemoveCredential("K"), NO_FAULTS);
    assert [] + [first] == [first];
    AfterMore(codec, s, [], first);
    AfterMore(codec, s, [first], second);
    AfterMore(codec, s, [first] + [second], third);
    KeyedEdit(codec);
  }

  /** After this run the Profile names a credential that is gone. */
  lemma {:induction false} NamedCredentialRemoved(codec: Codec)
    requires Lawful(codec)
    ensures var s := State(None, map[]); var after := After(codec, s, Removing(codec));
      && Closed(codec, s) && AllHonest(codec, Removing(codec))
      && "K" in NamedIn(codec, after) && "K" !in after.credentials
  {
    RemovingEnds(codec);
    KeyedNames(codec);
    KeyedNamed();
  }

  // ---- what can be executed ----

  /** So after every such run from a Vault with valid entries, the models of the Profile that can be
      executed are exactly those whose provider has an endpoint. */
  lemma ExecutableAfterRuns(codec: Codec, s: State, steps: seq<Step>, k: string)
    requires Lawful(codec) && Closed(codec, s) && Storable(s.credentials)
    requires AllHonest(codec, steps) && NothingBreaks(codec, s, steps)
    requires ProfileOf(codec, After(codec, s, steps)).Some?
    requires k in ProfileOf(codec, After(codec, s, steps)).value.models
    ensures var p := ProfileOf(codec, After(codec, s, steps)).value;
      && p.models[k].provider in p.providers
      && (k in ExecutableChoices(p, After(codec, s, steps).credentials) <==>
          p.providers[p.models[k].provider].endpoint.Some?)
  {
    var after := After(codec, s, steps);
    assert steps[..|steps|] == steps;
    RunsStayClosed(codec, s, steps, |steps|);
    RunsStayStorable(codec, s, steps);
    ReadIsExecutable(ProfileOf(codec, after).value, after.credentials, k);
  }

  lemma ReadIsExecutable(p: Profile, credentials: Credentials, k: string)
    requires Valid(p) && Named(p) <= credentials.Keys && Storable(credentials) && k in p.models
    ensures p.models[k].provider in p.providers
    ensures k in ExecutableChoices(p, credentials) <==> p.providers[p.models[k].provider].endpoint.Some?
  {
    assert ModelValid(p.models[k], p.providers);
    NamedCredentialsSuffice(p, credentials, k);
  }
}
