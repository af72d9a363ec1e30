/** What a decision's set-up commitment binds: every part of the configuration that voters rely on. */
module BoardSetup {
  import opened Basics
  import opened Json
  import opened JsonSame
  import opened Wire
  import opened Board
  import opened BoardSafety
  import opened BoardRuns
  import Hex

  /** The texts that committing to configuration `c` hashes. */
  ghost function SetupPreimages(env: Env, c: Config): set<string> {
    {CanonText(EligibilityJson(c.eligibility)), CanonText(SetupJson(SetupOf(env, c)))}
  }

  function IssuerHash(c: Config): Option<string> {
    if c.issuer.Some? then Some(c.issuer.value.pubKeyHash) else None
  }

  /** All but the convener, the cap on participants and the issuer's key text. */
  predicate SameTerms(c: Config, k: Config) {
    && c.options == k.options && c.scheme == k.scheme && c.rule == k.rule
    && c.ballotMode == k.ballotMode && c.resultsPolicy == k.resultsPolicy
    && c.eligibility == k.eligibility && c.schedule == k.schedule && IssuerHash(c) == IssuerHash(k)
  }

  // ---- eligibility -----------------------------------------------------------------------------

  function EligibilityName(e: Eligibility): string {
    match e
    case OpenToAll => "open"
    case Passcode(_) => "passcode"
    case Domain(_) => "domain"
    case Invite => "invite"
  }

  lemma EligibilityParts(e: Eligibility)
    ensures EligibilityJson(e).Obj?
    ensures var fs := EligibilityJson(e).fields;
      && |fs| == (if e.Passcode? || e.Domain? then 2 else 1)
      && fs[0] == Field("method", Str(EligibilityName(e)))
      && (e.Passcode? ==> fs[1] == Field("passcode", Str(e.passcode)))
      && (e.Domain? ==> fs[1] == Field("domain", Str(e.domain)))
      && DistinctKeys(fs)
  {
    assert "method"[0] != "passcode"[0] && "method"[0] != "domain"[0];
  }

  lemma EligibilityIsFine(e: Eligibility)
    ensures Valid(EligibilityJson(e)) && Representable(EligibilityJson(e))
  {
    EligibilityParts(e);
  }

  lemma EligibilityNamesDiffer(e: Eligibility, f: Eligibility)
    requires EligibilityName(e) == EligibilityName(f)
    ensures (e.OpenToAll? <==> f.OpenToAll?) && (e.Passcode? <==> f.Passcode?) && (e.Domain? <==> f.Domain?)
  {
    assert EligibilityName(e)[0]
      == (if e.OpenToAll? then 'o' else if e.Passcode? then 'p' else if e.Domain? then 'd' else 'i');
    assert EligibilityName(f)[0]
      == (if f.OpenToAll? then 'o' else if f.Passcode? then 'p' else if f.Domain? then 'd' else 'i');
  }

  lemma EligibilityInjective(e: Eligibility, f: Eligibility)
    requires Same(EligibilityJson(e), EligibilityJson(f))
    ensures e == f
  {
    var fs, gs := EligibilityJson(e).fields, EligibilityJson(f).fields;
    EligibilityParts(e);
    EligibilityParts(f);
    hide Same, EligibilityJson, EligibilityName;
    var g := Partner(fs, gs, fs[0]);
    OneOfKey(gs, g, 0);
    StrSame(EligibilityName(e), EligibilityName(f));
    EligibilityNamesDiffer(e, f);
    if e.Passcode? || e.Domain? {
      var h := Partner(fs, gs, fs[1]);
      OneOfKey(gs, h, 1);
      StrSame(fs[1].val.text, gs[1].val.text);
    }
  }

  // ---- schedule --------------------------------------------------------------------------------

  function ScheduleMembers(s: Schedule): seq<(string, Option<JsValue>)> {
    [("opensAt", IntOption(s.opensAt)), ("closesAt", IntOption(s.closesAt))]
  }

  lemma ScheduleParts(s: Schedule)
    ensures ScheduleJson(s) == Obj(Members(ScheduleMembers(s))) && DistinctNames(ScheduleMembers(s))
  {
    var ms := ScheduleMembers(s);
    assert ms[1..] == [ms[1]] && ms[1..][1..] == [];
    assert Members(ms[1..]) == Optional(ms[1].0, ms[1].1) + [] == Optional(ms[1].0, ms[1].1);
    assert ms[0].0[0] != ms[1].0[0];
  }

  lemma ScheduleIsFine(s: Schedule)
    ensures Valid(ScheduleJson(s)) && Representable(ScheduleJson(s))
  {
    ScheduleParts(s);
    MembersAreFine(ScheduleMembers(s));
  }

  lemma ScheduleInjective(s: Schedule, t: Schedule)
    requires Same(ScheduleJson(s), ScheduleJson(t))
    ensures s == t
  {
    ScheduleParts(s);
    ScheduleParts(t);
    hide Same, ScheduleJson, Members, DistinctNames, SameOption;
    SameMembers(ScheduleMembers(s), ScheduleMembers(t), 0);
    SameMembers(ScheduleMembers(s), ScheduleMembers(t), 1);
    SameOptions(s.opensAt, t.opensAt, None, None, None, None, false, false);
    SameOptions(s.closesAt, t.closesAt, None, None, None, None, false, false);
  }

  // ---- the commitment ----------------------------------------------------------------------------

  lemma SetupParts(env: Env, c: Config)
    ensures var s := SetupOf(env, c);
      && s.options == c.options && s.scheme == c.scheme && s.rule == c.rule && s.ballotMode == c.ballotMode
      && s.resultsPolicy == c.resultsPolicy && s.issuerPubKeyHash == IssuerHash(c)
      && s.roster == Str(Hex.Encode(env.text(CanonText(EligibilityJson(c.eligibility)))))
      && s.schedule == ScheduleJson(c.schedule)
      && Valid(s.roster) && Representable(s.roster)
  {
    hide CanonText, EligibilityJson, ScheduleJson, Hex.Encode;
  }

  lemma SetupTextIs(env: Env, c: Config)
    ensures Encode(SetupJson(SetupOf(env, c))) == Some(CanonText(SetupJson(SetupOf(env, c))))
  {
    SetupParts(env, c);
    ScheduleIsFine(c.schedule);
    SetupIsFine(SetupOf(env, c));
    hide SetupJson, SetupOf, Encode;
  }

  /** Equal set-up texts, and rosters hashed without a collision, are equal terms. */
  lemma TextsBindTerms(env: Env, c: Config, k: Config)
    requires CanonText(SetupJson(SetupOf(env, c))) == CanonText(SetupJson(SetupOf(env, k)))
    requires InjectiveOn(env.text, SetupPreimages(env, c) + SetupPreimages(env, k))
    ensures SameTerms(c, k)
  {
    var x, y := EligibilityJson(c.eligibility), EligibilityJson(k.eligibility);
    hide *;
    SetupTextIs(env, c);
    SetupTextIs(env, k);
    SetupParts(env, c);
    SetupParts(env, k);
    ScheduleIsFine(c.schedule);
    ScheduleIsFine(k.schedule);
    SetupInjective(SetupOf(env, c), SetupOf(env, k));
    ScheduleInjective(c.schedule, k.schedule);
    StrSame(Hex.Encode(env.text(CanonText(x))), Hex.Encode(env.text(CanonText(y))));
    Hex.EncodeInjective(env.text(CanonText(x)), env.text(CanonText(y)));
    PreimagesHold(env, c, k);
    InjectiveOnPair(env.text, SetupPreimages(env, c) + SetupPreimages(env, k), CanonText(x), CanonText(y));
    EligibilityIsFine(c.eligibility);
    EligibilityIsFine(k.eligibility);
    CanonicalTextIsFaithful(x, y);
    CanonTextIs(x);
    CanonTextIs(y);
    EligibilityInjective(c.eligibility, k.eligibility);
    TermsAre(c, k);
  }

  lemma PreimagesHold(env: Env, c: Config, k: Config)
    ensures var all := SetupPreimages(env, c) + SetupPreimages(env, k);
      && CanonText(EligibilityJson(c.eligibility)) in all && CanonText(EligibilityJson(k.eligibility)) in all
      && CanonText(SetupJson(SetupOf(env, c))) in all && CanonText(SetupJson(SetupOf(env, k))) in all
  {
    hide CanonText, SetupJson, SetupOf, EligibilityJson;
  }

  lemma TermsAre(c: Config, k: Config)
    ensures SameTerms(c, k) <==>
      && c.options == k.options && c.scheme == k.scheme && c.rule == k.rule
      && c.ballotMode == k.ballotMode && c.resultsPolicy == k.resultsPolicy
      && c.eligibility == k.eligibility && c.schedule == k.schedule && IssuerHash(c) == IssuerHash(k)
  {
  }

  /**
   * Without a collision among their four texts, configurations have equal commitments exactly when their
   * terms agree.
   */
  lemma CommitmentIff(env: Env, c: Config, k: Config)
    requires InjectiveOn(env.text, SetupPreimages(env, c) + SetupPreimages(env, k))
    ensures SetupCommitment(env, SetupOf(env, c)) == SetupCommitment(env, SetupOf(env, k)) <==> SameTerms(c, k)
  {
    var x, y := CanonText(SetupJson(SetupOf(env, c))), CanonText(SetupJson(SetupOf(env, k)));
    hide SetupJson, SetupOf, Encode, Hex.Encode, SameTerms, SetupPreimages, CanonText, EligibilityJson;
    if SetupCommitment(env, SetupOf(env, c)) == SetupCommitment(env, SetupOf(env, k)) {
      Hex.EncodeInjective(env.text(x), env.text(y));
      PreimagesHold(env, c, k);
      InjectiveOnPair(env.text, SetupPreimages(env, c) + SetupPreimages(env, k), x, y);
      TextsBindTerms(env, c, k);
    }
    if SameTerms(c, k) {
      TermsAre(c, k);
      SetupParts(env, c);
      SetupParts(env, k);
    }
  }

  /**
   * Of any two decisions, in any reachable states of one server or of two with the same hash, and
   * without a collision: their stored commitments are equal exactly when options, method, rule,
   * modes, eligibility, schedule and issuer hash are.
   */
  lemma StoredCommitmentIff(env: Env, steps: seq<Step>, id: string, others: seq<Step>, other: string)
    requires id in Run(env, steps).store.decisions && other in Run(env, others).store.decisions
    requires var c, k := Run(env, steps).store.decisions[id].config, Run(env, others).store.decisions[other].config;
      InjectiveOn(env.text, SetupPreimages(env, c) + SetupPreimages(env, k))
    ensures var d, e := Run(env, steps).store.decisions[id], Run(env, others).store.decisions[other];
      d.setupCommitment == e.setupCommitment <==> SameTerms(d.config, e.config)
  {
    hide *;
    StoredCommitment(env, steps, id);
    StoredCommitment(env, others, other);
    CommitmentIff(env, Run(env, steps).store.decisions[id].config, Run(env, others).store.decisions[other].config);
  }

  lemma StoredCommitment(env: Env, steps: seq<Step>, id: string)
    requires id in Run(env, steps).store.decisions
    ensures var d := Run(env, steps).store.decisions[id];
      d.setupCommitment == SetupCommitment(env, SetupOf(env, d.config))
  {
    hide Run, SetupCommitment, SetupOf, LogOk, HeadOk, CheckpointsOk, LifecycleOk;
    ReachableOk(env, steps);
    assert DecisionOk(env, id, Run(env, steps).store.decisions[id], Run(env, steps).store.receipts);
  }
}
