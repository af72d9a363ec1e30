/** The texts of set-ups and of lifecycle events, spelled out member by member. */
module SetupSpelling {
  import opened Basics
  import opened Numbers
  import opened JsonText
  import opened Json
  import opened JsonSame
  import opened Verdicts
  import opened Wire
  import opened Board
  import opened Spelling
  import opened BoardSetup
  import Hex
  import VerifierTrust

  // ---- members that may be absent --------------------------------------------------------------

  /** A member that is left out when it has no text. */
  function MaybeMember(key: string, text: Option<string>): seq<string> {
    if text.Some? then [Member(key, text.value)] else []
  }

  predicate AllPrint(fs: seq<Field>, members: seq<string>) {
    |fs| == |members| && forall i | 0 <= i < |fs| :: Prints(fs[i], members[i])
  }

  lemma AllPrintTogether(fs: seq<Field>, members: seq<string>, gs: seq<Field>, others: seq<string>)
    requires AllPrint(fs, members) && AllPrint(gs, others)
    ensures AllPrint(fs + gs, members + others)
  {
    hide Prints;
  }

  lemma MaybePrints(key: string, v: Option<JsValue>, text: Option<string>)
    requires v.Some? == text.Some? && (v.Some? ==> Encode(v.value) == Some(text.value))
    ensures AllPrint(Optional(key, v), MaybeMember(key, text))
  {
    hide Encode, Member;
  }

  function IntText(i: Option<int>): Option<string> { if i.Some? then Some(Print(IntNum(i.value))) else None }

  function StringText(s: Option<string>): Option<string> { if s.Some? then Some(Quote(s.value)) else None }

  function NumberText(n: Option<Num>): Option<string> { if n.Some? then Some(Print(n.value)) else None }

  lemma MaybeScalarsPrint(key: string, i: Option<int>, s: Option<string>)
    ensures AllPrint(Optional(key, IntOption(i)), MaybeMember(key, IntText(i)))
    ensures AllPrint(Optional(key, StrOption(s)), MaybeMember(key, StringText(s)))
  {
    hide AllPrint, MaybeMember, Optional, Print, IntNum, Quote;
    MaybePrints(key, IntOption(i), IntText(i));
    MaybePrints(key, StrOption(s), StringText(s));
  }

  /** Up to four members in their own order. */
  lemma MembersAre(a: (string, Option<JsValue>), b: (string, Option<JsValue>), c: (string, Option<JsValue>),
      d: (string, Option<JsValue>))
    ensures Members([a, b]) == Optional(a.0, a.1) + Optional(b.0, b.1)
    ensures Members([a, b, c, d]) == Optional(a.0, a.1) + Optional(b.0, b.1) + Optional(c.0, c.1) + Optional(d.0, d.1)
  {
    hide Optional;
    assert Members([]) == [];
    assert [b][1..] == [] && [a, b][1..] == [b];
    assert [d][1..] == [] && [c, d][1..] == [d] && [b, c, d][1..] == [c, d] && [a, b, c, d][1..] == [b, c, d];
    assert Members([d]) == Optional(d.0, d.1) && Members([b]) == Optional(b.0, b.1);
    assert Members([c, d]) == Optional(c.0, c.1) + Optional(d.0, d.1);
    assert Members([b, c, d]) == Optional(b.0, b.1) + Optional(c.0, c.1) + Optional(d.0, d.1);
  }

  // ---- rules -----------------------------------------------------------------------------------

  function PercentOf(t: Threshold): Option<Num> { if t.Supermajority? then Some(t.percent) else t.unread }

  function ThresholdText(t: Threshold): string {
    var kind :=
      match t
      case Plurality(_) => "plurality" case Majority(_) => "majority" case Supermajority(_) => "supermajority";
    Braced([Member("kind", Quote(kind))] + MaybeMember("percent", NumberText(PercentOf(t))))
  }

  lemma ThresholdSpelled(t: Threshold)
    ensures Encode(ThresholdJson(t)) == Some(ThresholdText(t))
  {
    var kind := ThresholdName(t);
    var fs := Optional("kind", Some(Str(kind))) + Optional("percent", PercentOption(t));
    var members := [Member("kind", Quote(kind))] + MaybeMember("percent", NumberText(PercentOf(t)));
    PercentIs(t);
    hide *;
    ThresholdIsFine(t);
    ThresholdParts(t);
    ScalarsPrint("kind", kind, 0, None, []);
    MaybePrints("percent", PercentOption(t), NumberText(PercentOf(t)));
    MaybePrints("kind", Some(Str(kind)), Some(Quote(kind)));
    MaybeIs("kind", Quote(kind));
    AllPrintTogether(Optional("kind", Some(Str(kind))), [Member("kind", Quote(kind))],
                     Optional("percent", PercentOption(t)), MaybeMember("percent", NumberText(PercentOf(t))));
    AllPrintMeans(fs, members);
    ObjectText(fs, fs, members);
  }

  lemma PercentIs(t: Threshold)
    ensures var v, n := PercentOption(t), NumberText(PercentOf(t));
      v.Some? == n.Some? && (v.Some? ==> Encode(v.value) == Some(n.value))
    ensures Encode(Str(ThresholdName(t))) == Some(Quote(ThresholdName(t)))
    ensures ThresholdText(t) == Braced([Member("kind", Quote(ThresholdName(t)))]
        + MaybeMember("percent", NumberText(PercentOf(t))))
  {
    hide Print, Quote, Braced, Member, MaybeMember;
  }

  lemma ThresholdParts(t: Threshold)
    ensures var fs := Optional("kind", Some(Str(ThresholdName(t)))) + Optional("percent", PercentOption(t));
      ThresholdJson(t) == Obj(fs) && Strict(fs)
  {
    hide ThresholdName, PercentOption;
    MembersAre(("kind", StrOption(Some(ThresholdName(t)))), ("percent", PercentOption(t)), ("", None), ("", None));
    hide Members;
  }

  lemma MaybeIs(key: string, text: string)
    ensures MaybeMember(key, Some(text)) == [Member(key, text)]
  {
    hide Member;
  }

  lemma AllPrintMeans(fs: seq<Field>, members: seq<string>)
    requires AllPrint(fs, members)
    ensures |fs| == |members| && forall i | 0 <= i < |fs| :: Prints(fs[i], members[i])
  {
    hide Prints;
  }

  /** The members of a rule, in key order. */
  function RuleMembersText(r: Rule): seq<string> {
    var tieBreak :=
      match r.tieBreak
      case Declare => "declare" case Runoff => "runoff" case Casting => "casting" case RandomSeed => "random-seed";
    MaybeMember("quorum", IntText(r.quorum)) + MaybeMember("seed", StringText(r.seed))
    + MaybeMember("threshold", Some(ThresholdText(r.threshold))) + MaybeMember("tieBreak", Some(Quote(tieBreak)))
  }

  function RuleInOrder(r: Rule): seq<Field> {
    Optional("quorum", IntOption(r.quorum)) + Optional("seed", StrOption(r.seed))
    + Optional("threshold", Some(ThresholdJson(r.threshold)))
      + Optional("tieBreak", Some(Str(TieBreakName(r.tieBreak))))
  }

  lemma RuleOrder(r: Rule)
    ensures RuleJson(r).Obj? && Strict(RuleInOrder(r))
    ensures forall x :: x in RuleJson(r).fields <==> x in RuleInOrder(r)
  {
    hide ThresholdJson, TieBreakName, IntOption;
    MembersAre(("threshold", Some(ThresholdJson(r.threshold))), ("quorum", IntOption(r.quorum)),
               ("tieBreak", StrOption(Some(TieBreakName(r.tieBreak)))), ("seed", StrOption(r.seed)));
    hide Members;
  }

  lemma TieBreakIs(r: Rule)
    ensures RuleMembersText(r) ==
      MaybeMember("quorum", IntText(r.quorum)) + MaybeMember("seed", StringText(r.seed))
      + MaybeMember("threshold", Some(ThresholdText(r.threshold)))
      + MaybeMember("tieBreak", Some(Quote(TieBreakName(r.tieBreak))))
    ensures Encode(Str(TieBreakName(r.tieBreak))) == Some(Quote(TieBreakName(r.tieBreak)))
  {
    hide Quote, MaybeMember, ThresholdText, IntText, StringText;
  }

  lemma RulePrints(r: Rule)
    ensures AllPrint(RuleInOrder(r), RuleMembersText(r))
  {
    var a, b := Optional("quorum", IntOption(r.quorum)), Optional("seed", StrOption(r.seed));
    var c := Optional("threshold", Some(ThresholdJson(r.threshold)));
    var d := Optional("tieBreak", Some(Str(TieBreakName(r.tieBreak))));
    assert RuleInOrder(r) == a + b + c + d;
    hide *;
    var s, t := MaybeMember("quorum", IntText(r.quorum)), MaybeMember("seed", StringText(r.seed));
    var u := MaybeMember("threshold", Some(ThresholdText(r.threshold)));
    var v := MaybeMember("tieBreak", Some(Quote(TieBreakName(r.tieBreak))));
    TieBreakIs(r);
    MaybeScalarsPrint("quorum", r.quorum, None);
    MaybeScalarsPrint("seed", None, r.seed);
    ThresholdSpelled(r.threshold);
    MaybePrints("threshold", Some(ThresholdJson(r.threshold)), Some(ThresholdText(r.threshold)));
    MaybePrints("tieBreak", Some(Str(TieBreakName(r.tieBreak))), Some(Quote(TieBreakName(r.tieBreak))));
    AllPrintTogether(a, s, b, t);
    AllPrintTogether(a + b, s + t, c, u);
    AllPrintTogether(a + b + c, s + t + u, d, v);
  }

  /** The text of a rule. */
  lemma RuleSpelled(r: Rule)
    ensures Encode(RuleJson(r)) == Some(Braced(RuleMembersText(r)))
  {
    hide *;
    RuleIsFine(r);
    RuleOrder(r);
    RulePrints(r);
    IsObject(RuleJson(r));
    AllPrintMeans(RuleInOrder(r), RuleMembersText(r));
    ObjectText(RuleJson(r).fields, RuleInOrder(r), RuleMembersText(r));
  }

  // ---- eligibility and schedule ------------------------------------------------------------------

  /** The members of an eligibility rule, in key order. */
  function EligibilityMembers(e: Eligibility): seq<string> {
    match e
    case OpenToAll => [Member("method", Quote("open"))]
    case Passcode(p) => [Member("method", Quote("passcode")), Member("passcode", Quote(p))]
    case Domain(d) => [Member("domain", Quote(d)), Member("method", Quote("domain"))]
    case Invite => [Member("method", Quote("invite"))]
  }

  function EligibilityInOrder(e: Eligibility): seq<Field> {
    match e
    case OpenToAll => [Field("method", Str("open"))]
    case Passcode(p) => [Field("method", Str("passcode")), Field("passcode", Str(p))]
    case Domain(d) => [Field("domain", Str(d)), Field("method", Str("domain"))]
    case Invite => [Field("method", Str("invite"))]
  }

  lemma EligibilityOrder(e: Eligibility)
    ensures Strict(EligibilityInOrder(e)) && EligibilityJson(e).Obj?
    ensures forall x :: x in EligibilityJson(e).fields <==> x in EligibilityInOrder(e)
  {
  }

  lemma EligibilityPrints(e: Eligibility)
    ensures AllPrint(EligibilityInOrder(e), EligibilityMembers(e))
  {
    ScalarsPrint("method", EligibilityName(e), 0, None, []);
    hide Prints, Member, Quote;
    match e
    case OpenToAll =>
    case Invite =>
    case Passcode(p) => ScalarsPrint("passcode", p, 0, None, []);
    case Domain(d) => ScalarsPrint("domain", d, 0, None, []);
  }

  lemma EligibilitySpelled(e: Eligibility)
    ensures Encode(EligibilityJson(e)) == Some(Braced(EligibilityMembers(e)))
  {
    hide *;
    EligibilityIsFine(e);
    EligibilityOrder(e);
    EligibilityPrints(e);
    IsObject(EligibilityJson(e));
    FineIs(EligibilityJson(e));
    AllPrintMeans(EligibilityInOrder(e), EligibilityMembers(e));
    ObjectText(EligibilityJson(e).fields, EligibilityInOrder(e), EligibilityMembers(e));
  }

  function ScheduleText(s: Schedule): string {
    Braced(MaybeMember("closesAt", IntText(s.closesAt)) + MaybeMember("opensAt", IntText(s.opensAt)))
  }

  lemma ScheduleOrder(s: Schedule)
    ensures var gs := Optional("closesAt", IntOption(s.closesAt)) + Optional("opensAt", IntOption(s.opensAt));
      ScheduleJson(s).Obj? && Strict(gs) && forall x :: x in ScheduleJson(s).fields <==> x in gs
  {
    hide IntOption;
  }

  lemma ScheduleSpelled(s: Schedule)
    ensures Encode(ScheduleJson(s)) == Some(ScheduleText(s))
  {
    var c, o := Optional("closesAt", IntOption(s.closesAt)), Optional("opensAt", IntOption(s.opensAt));
    var t, u := MaybeMember("closesAt", IntText(s.closesAt)), MaybeMember("opensAt", IntText(s.opensAt));
    assert ScheduleText(s) == Braced(t + u);
    hide *;
    BoardSetup.ScheduleIsFine(s);
    ScheduleOrder(s);
    IsObject(ScheduleJson(s));
    FineIs(ScheduleJson(s));
    MaybeScalarsPrint("closesAt", s.closesAt, None);
    MaybeScalarsPrint("opensAt", s.opensAt, None);
    AllPrintTogether(c, t, o, u);
    AllPrintMeans(c + o, t + u);
    ObjectText(ScheduleJson(s).fields, c + o, t + u);
  }

  lemma FineIs(v: JsValue)
    requires Valid(v) && Representable(v)
    ensures Fine(v)
  {
  }

  // ---- the set-up --------------------------------------------------------------------------------

  /** The eight parts that the commitment hashes, in their order. */
  function SetupTexts(env: Env, c: Config): seq<string> {
    var scheme :=
      match c.scheme
      case SingleChoice => "single" case ApprovalVote => "approval" case RankedVote => "ranked"
      case QuadraticVote => "quadratic" case SurveyVote => "survey";
    [StrsText(c.options), Quote(scheme), Braced(RuleMembersText(c.rule)),
     Quote(if c.ballotMode == OpenBallots then "open" else "secret"),
     Quote(if c.resultsPolicy == Sealed then "sealed" else "live"),
     Quote(Hex.Encode(env.text(Braced(EligibilityMembers(c.eligibility))))), NullableText(IssuerHash(c)),
       ScheduleText(c.schedule)]
  }

  lemma SetupElemsPrint(env: Env, c: Config)
    ensures var v := SetupJson(SetupOf(env, c));
      && v.Arr? && |v.elems| == |SetupTexts(env, c)|
      && forall i | 0 <= i < |v.elems| :: Encode(v.elems[i]) == Some(SetupTexts(env, c)[i])
  {
    var s := SetupOf(env, c);
    EligibilitySpelled(c.eligibility);
    CanonTextIs(EligibilityJson(c.eligibility));
    SetupParts(env, c);
    StrsEncoded(c.options);
    RuleSpelled(c.rule);
    ScheduleSpelled(c.schedule);
    hide SetupOf, Strs, StrsText, RuleJson, RuleMembersText, Quote, Hex.Encode, Braced, ScheduleText, ScheduleJson,
      EligibilityMembers, EligibilityJson, CanonText, IssuerHash;
  }

  /** The commitment is the hash of exactly these eight texts between brackets. */
  lemma SetupSpelled(env: Env, c: Config)
    ensures SetupCommitment(env, SetupOf(env, c)) == Hex.Encode(env.text(Bracketed(SetupTexts(env, c))))
  {
    var v := SetupJson(SetupOf(env, c));
    SetupElemsPrint(env, c);
    hide SetupTexts, SetupOf, SetupJson, Encode, Hex.Encode, Bracketed;
    ArrayText(v.elems, SetupTexts(env, c));
    CanonTextIs(v);
  }

  // ---- lifecycle events --------------------------------------------------------------------------

  /** The members of a signed event, in key order; an extension has two more than a move. */
  function EventMembers(id: string, from: LifecycleState, to: LifecycleState, actor: string, ts: int,
      closesAt: Option<int>): seq<string>
  {
    [Member("actor", Quote(actor))] + MaybeMember("closesAt", IntText(closesAt))
    + [Member("decisionId", Quote(id)), Member("from", Quote(StateName(from))), Member("timestamp", Print(IntNum(ts))),
       Member("to", Quote(StateName(to)))]
    + MaybeMember("transition", if closesAt.Some? then Some(Quote("extend")) else None)
  }

  function EventInOrder(id: string, from: LifecycleState, to: LifecycleState, actor: string, ts: int,
      closesAt: Option<int>): seq<Field>
  {
    [Field("actor", Str(actor))] + Optional("closesAt", IntOption(closesAt))
    + [Field("decisionId", Str(id)), Field("from", Str(StateName(from))), Field("timestamp", Int(ts)),
       Field("to", Str(StateName(to)))]
    + Optional("transition", if closesAt.Some? then Some(Str("extend")) else None)
  }

  function EventValue(id: string, from: LifecycleState, to: LifecycleState, actor: string, ts: int,
      closesAt: Option<int>): JsValue
  {
    EventJson(id, from, to, actor, ts, if closesAt.Some? then ExtendFields(closesAt.value) else [])
  }

  lemma EventOrder(id: string, from: LifecycleState, to: LifecycleState, actor: string, ts: int, closesAt: Option<int>)
    ensures var v, gs := EventValue(id, from, to, actor, ts, closesAt), EventInOrder(id, from, to, actor, ts, closesAt);
      v.Obj? && Strict(gs) && forall x :: x in v.fields <==> x in gs
  {
    hide Int, StateName;
  }

  lemma CorePrints(id: string, from: string, to: string, ts: int)
    ensures AllPrint(
      [Field("decisionId", Str(id)), Field("from", Str(from)), Field("timestamp", Int(ts)), Field("to", Str(to))],
      [Member("decisionId", Quote(id)), Member("from", Quote(from)), Member("timestamp", Print(IntNum(ts))),
       Member("to", Quote(to))])
  {
    ScalarsPrint("decisionId", id, 0, None, []);
    ScalarsPrint("from", from, 0, None, []);
    ScalarsPrint("timestamp", "", ts, None, []);
    ScalarsPrint("to", to, 0, None, []);
    hide Prints, Member, Quote, Print, IntNum, Int;
  }

  lemma EndsPrint(actor: string, extended: bool)
    ensures AllPrint([Field("actor", Str(actor))], [Member("actor", Quote(actor))])
    ensures AllPrint(Optional("transition", if extended then Some(Str("extend")) else None),
                     MaybeMember("transition", if extended then Some(Quote("extend")) else None))
  {
    ScalarsPrint("actor", actor, 0, None, []);
    ScalarsPrint("transition", "extend", 0, None, []);
    hide Prints, Member, Quote;
  }

  lemma EventPrints(id: string, from: LifecycleState, to: LifecycleState, actor: string, ts: int, closesAt: Option<int>)
    ensures AllPrint(EventInOrder(id, from, to, actor, ts, closesAt), EventMembers(id, from, to, actor, ts, closesAt))
  {
    hide Int, StateName, IntOption, IntText, Member, MaybeMember, Optional, Quote, Print, IntNum, AllPrint, Prints;
    var a, b := [Field("actor", Str(actor))], Optional("closesAt", IntOption(closesAt));
    var c := [Field("decisionId", Str(id)), Field("from", Str(StateName(from))), Field("timestamp", Int(ts)),
              Field("to", Str(StateName(to)))];
    var d := Optional("transition", if closesAt.Some? then Some(Str("extend")) else None);
    var s, t := [Member("actor", Quote(actor))], MaybeMember("closesAt", IntText(closesAt));
    var u := [Member("decisionId", Quote(id)), Member("from", Quote(StateName(from))),
              Member("timestamp", Print(IntNum(ts))), Member("to", Quote(StateName(to)))];
    var v := MaybeMember("transition", if closesAt.Some? then Some(Quote("extend")) else None);
    assert EventInOrder(id, from, to, actor, ts, closesAt) == a + b + c + d;
    assert EventMembers(id, from, to, actor, ts, closesAt) == s + t + u + v;
    hide *;
    CorePrints(id, StateName(from), StateName(to), ts);
    EndsPrint(actor, closesAt.Some?);
    MaybeScalarsPrint("closesAt", closesAt, None);
    AllPrintTogether(a, s, b, t);
    AllPrintTogether(a + b, s + t, c, u);
    AllPrintTogether(a + b + c, s + t + u, d, v);
  }

  lemma EventValueIsFine(id: string, from: LifecycleState, to: LifecycleState, actor: string, ts: int,
      closesAt: Option<int>)
    ensures Fine(EventValue(id, from, to, actor, ts, closesAt))
  {
    hide Fine, EventJson;
    VerifierTrust.EventIsFine(id, from, to, actor, ts, closesAt);
  }

  /** The text that a lifecycle event signs. */
  lemma EventSpelled(id: string, from: LifecycleState, to: LifecycleState, actor: string, ts: int,
      closesAt: Option<int>)
    ensures CanonText(EventValue(id, from, to, actor, ts, closesAt))
        == Braced(EventMembers(id, from, to, actor, ts, closesAt))
  {
    hide *;
    var v := EventValue(id, from, to, actor, ts, closesAt);
    EventValueIsFine(id, from, to, actor, ts, closesAt);
    EventOrder(id, from, to, actor, ts, closesAt);
    EventPrints(id, from, to, actor, ts, closesAt);
    IsObject(v);
    AllPrintMeans(EventInOrder(id, from, to, actor, ts, closesAt), EventMembers(id, from, to, actor, ts, closesAt));
    ObjectText(v.fields, EventInOrder(id, from, to, actor, ts, closesAt),
      EventMembers(id, from, to, actor, ts, closesAt));
    CanonTextIs(v);
  }
}
