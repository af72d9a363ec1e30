/** The JSON shapes that are hashed, signed and compared, and that each determines what it was built from. */
module Wire {
  import opened Basics
  import opened Numbers
  import opened Json
  import opened JsonSame
  import opened Irv
  import opened Tallies
  import opened Verdicts

  // ---- building blocks -------------------------------------------------------------------

  function Int(i: int): JsValue { Number(IntNum(i)) }

  function Ints(s: seq<int>): JsValue { Arr(seq(|s|, i requires 0 <= i < |s| => Int(s[i]))) }

  function Strs(s: seq<string>): JsValue { Arr(seq(|s|, i requires 0 <= i < |s| => Str(s[i]))) }

  function StrOrNull(s: Option<string>): JsValue { if s.Some? then Str(s.value) else Null }

  /** A member that is present only when it has a value. */
  function Optional(key: string, val: Option<JsValue>): seq<Field> {
    if val.Some? then [Field(key, val.value)] else []
  }

  /** The members that are present, in order. */
  function Members(ms: seq<(string, Option<JsValue>)>): seq<Field> {
    if ms == [] then [] else Optional(ms[0].0, ms[0].1) + Members(ms[1..])
  }

  function StrOption(s: Option<string>): Option<JsValue> { if s.Some? then Some(Str(s.value)) else None }

  function IntsOption(s: Option<seq<int>>): Option<JsValue> { if s.Some? then Some(Ints(s.value)) else None }

  function FlagOption(b: bool): Option<JsValue> { if b then Some(Bool(true)) else None }

  function IntOption(i: Option<int>): Option<JsValue> { if i.Some? then Some(Int(i.value)) else None }

  // ---- ballots ---------------------------------------------------------------------------

  function KindName(p: Payload): string {
    match p
    case Single(_) => "single"
    case Approval(_) => "approval"
    case Ranked(_) => "ranked"
    case Quadratic(_) => "quadratic"
    case Survey(_) => "survey"
    case Abstain => "abstain"
  }

  function PayloadJson(p: Payload): JsValue {
    var kind := Field("kind", Str(KindName(p)));
    match p
    case Single(c) => Obj([kind, Field("choice", Int(c))])
    case Approval(cs) => Obj([kind, Field("choices", Ints(cs))])
    case Ranked(r) => Obj([kind, Field("ranking", Ints(r))])
    case Quadratic(vs) => Obj([kind, Field("votes", Ints(vs))])
    case Survey(cs) => Obj([kind, Field("choices", Ints(cs))])
    case Abstain => Obj([kind])
  }

  /** The hashed object of a public ballot leaf. */
  function LeafJson(decisionId: string, logSeq: int, payload: Payload, serial: Option<string>): JsValue {
    Obj([Field("decisionId", Str(decisionId)), Field("logSeq", Int(logSeq)),
         Field("payload", PayloadJson(payload)), Field("serial", StrOrNull(serial))])
  }

  /** The signed object of a checkpoint or a live root. */
  function RootJson(root: string, treeSize: int, decisionId: string): JsValue {
    Obj([Field("root", Str(root)), Field("treeSize", Int(treeSize)), Field("decisionId", Str(decisionId))])
  }

  /** The signed object of a receipt. */
  function ReceiptJson(ballotHash: string, logPosition: int, runningRoot: string): JsValue {
    Obj([Field("ballotHash", Str(ballotHash)), Field("logPosition", Int(logPosition)),
      Field("runningRoot", Str(runningRoot))])
  }

  // ---- rules and set-up ------------------------------------------------------------------------

  function MethodName(m: Method): string {
    match m
    case SingleChoice => "single"
    case ApprovalVote => "approval"
    case RankedVote => "ranked"
    case QuadraticVote => "quadratic"
    case SurveyVote => "survey"
  }

  function ThresholdName(t: Threshold): string {
    match t
    case Plurality(_) => "plurality"
    case Majority(_) => "majority"
    case Supermajority(_) => "supermajority"
  }

  /** The percent of a rule, read or not. */
  function PercentOption(t: Threshold): Option<JsValue> {
    if t.Supermajority? then Some(Number(t.percent))
    else if t.unread.Some? then Some(Number(t.unread.value)) else None
  }

  function ThresholdMembers(t: Threshold): seq<(string, Option<JsValue>)> {
    [("kind", StrOption(Some(ThresholdName(t)))), ("percent", PercentOption(t))]
  }

  function ThresholdJson(t: Threshold): JsValue { Obj(Members(ThresholdMembers(t))) }

  function TieBreakName(t: TieBreak): string {
    match t
    case Declare => "declare"
    case Runoff => "runoff"
    case Casting => "casting"
    case RandomSeed => "random-seed"
  }

  function RuleMembers(r: Rule): seq<(string, Option<JsValue>)> {
    [("threshold", Some(ThresholdJson(r.threshold))), ("quorum", IntOption(r.quorum)),
     ("tieBreak", StrOption(Some(TieBreakName(r.tieBreak)))), ("seed", StrOption(r.seed))]
  }

  function RuleJson(r: Rule): JsValue { Obj(Members(RuleMembers(r))) }

  datatype BallotMode = OpenBallots | SecretBallots
  datatype ResultsPolicy = Sealed | Live

  /** What the set-up commitment binds; roster and schedule may be any JSON. */
  datatype Setup = Setup(options: seq<string>, scheme: Method, rule: Rule, ballotMode: BallotMode,
                         resultsPolicy: ResultsPolicy, roster: JsValue, issuerPubKeyHash: Option<string>,
                           schedule: JsValue)

  function SetupJson(s: Setup): JsValue {
    Arr([Strs(s.options), Str(MethodName(s.scheme)), RuleJson(s.rule),
         Str(if s.ballotMode.OpenBallots? then "open" else "secret"),
         Str(if s.resultsPolicy.Sealed? then "sealed" else "live"),
         s.roster, StrOrNull(s.issuerPubKeyHash), s.schedule])
  }

  // ---- results -----------------------------------------------------------------------------------

  function RoundMembers(r: Round): seq<(string, Option<JsValue>)> {
    [("counts", IntsOption(Some(r.counts))), ("continuingBallots", IntOption(Some(r.continuingBallots))),
     ("winner", IntOption(r.winner)), ("eliminated", IntOption(r.eliminated))]
  }

  function RoundJson(r: Round): JsValue { Obj(Members(RoundMembers(r))) }

  function RoundsJson(rs: seq<Round>): JsValue { Arr(seq(|rs|, i requires 0 <= i < |rs| => RoundJson(rs[i]))) }

  function RoundsOption(r: Option<IrvResult>): Option<JsValue> {
    if r.Some? then Some(RoundsJson(r.value.rounds)) else None
  }

  /** The winner of a runoff is null, not absent, when there is none. */
  function WinnerOption(r: Option<IrvResult>): Option<JsValue> {
    if r.None? then None else Some(if r.value.winner.Some? then Int(r.value.winner.value) else Null)
  }

  function TallyMembers(t: Tally): seq<(string, Option<JsValue>)> {
    [("method", StrOption(Some(MethodName(t.scheme)))), ("optionCount", IntOption(Some(t.optionCount))),
     ("optionScores", IntsOption(Some(t.optionScores))), ("abstain", IntOption(Some(t.abstain))),
     ("totalCast", IntOption(Some(t.totalCast))), ("rounds", RoundsOption(t.irv)), ("winner", WinnerOption(t.irv))]
  }

  function TallyJson(t: Tally): JsValue { Obj(Members(TallyMembers(t))) }

  function OutcomeName(o: Outcome): string {
    match o
    case Carried => "carried"
    case Failed => "failed"
    case Tied => "tie"
    case QuorumNotMet => "quorum-not-met"
  }

  function VerdictMembers(v: Verdict): seq<(string, Option<JsValue>)> {
    [("outcome", StrOption(Some(OutcomeName(v.outcome)))), ("winner", IntOption(v.winner)),
     ("tiedOptions", IntsOption(v.tiedOptions)), ("runoff", FlagOption(v.runoff)),
     ("needsCastingVote", FlagOption(v.needsCastingVote))]
  }

  function VerdictJson(v: Verdict): JsValue { Obj(Members(VerdictMembers(v))) }

  // ---- all of these can be encoded --------------------------------------------------------------

  /** A value that the encoder takes. */
  predicate Fine(v: JsValue) { Valid(v) && Representable(v) }

  predicate FineFields(fs: seq<Field>) { forall f | f in fs :: Fine(f.val) }

  lemma FineParts(t: string, s: Option<string>, i: int, ints: seq<int>, ss: seq<string>)
    ensures Fine(Str(t)) && Fine(StrOrNull(s)) && Fine(Int(i)) && Fine(Ints(ints)) && Fine(Strs(ss))
    ensures Fine(Bool(true)) && Fine(Null)
  {
  }

  lemma FineObject(fs: seq<Field>)
    requires DistinctKeys(fs) && FineFields(fs)
    ensures Fine(Obj(fs))
  {
  }

  lemma FineEncodes(v: JsValue)
    requires Fine(v)
    ensures Encode(v).Some?
  {
    EncodesIff(v);
  }

  ghost predicate DistinctNames(ms: seq<(string, Option<JsValue>)>) {
    forall i, j | 0 <= i < j < |ms| :: ms[i].0 != ms[j].0
  }

  /** Every field of the object is one of the members. */
  lemma {:induction false} FieldsAreMembers(ms: seq<(string, Option<JsValue>)>, f: Field)
    requires f in Members(ms)
    ensures exists i :: 0 <= i < |ms| && ms[i] == (f.key, Some(f.val))
  {
    if f in Optional(ms[0].0, ms[0].1) {
      assert ms[0] == (f.key, Some(f.val));
    } else {
      FieldsAreMembers(ms[1..], f);
      var i :| 0 <= i < |ms[1..]| && ms[1..][i] == (f.key, Some(f.val));
      assert ms[i + 1] == (f.key, Some(f.val));
    }
  }

  /** Every member that is present is a field of the object. */
  lemma {:induction false} MemberIsField(ms: seq<(string, Option<JsValue>)>, i: nat)
    requires i < |ms| && ms[i].1.Some?
    ensures Field(ms[i].0, ms[i].1.value) in Members(ms)
  {
    if i > 0 {
      assert ms[1..][i - 1] == ms[i];
      MemberIsField(ms[1..], i - 1);
    }
  }

  lemma {:induction false} MembersAreDistinct(ms: seq<(string, Option<JsValue>)>)
    requires DistinctNames(ms)
    ensures DistinctKeys(Members(ms))
  {
    if ms != [] {
      var rest := Members(ms[1..]);
      MembersAreDistinct(ms[1..]);
      forall f | f in rest ensures f.key != ms[0].0 {
        FieldsAreMembers(ms[1..], f);
        var i :| 0 <= i < |ms[1..]| && ms[1..][i] == (f.key, Some(f.val));
        assert ms[i + 1].0 == f.key;
      }
      assert forall j | 0 <= j < |rest| :: rest[j] in rest;
    }
  }

  lemma MembersAreFine(ms: seq<(string, Option<JsValue>)>)
    requires DistinctNames(ms) && forall i | 0 <= i < |ms| :: ms[i].1.Some? ==> Fine(ms[i].1.value)
    ensures Fine(Obj(Members(ms)))
  {
    MembersAreDistinct(ms);
    hide Fine, Members, DistinctKeys, DistinctNames;
    forall f | f in Members(ms) ensures Fine(f.val) { FieldsAreMembers(ms, f); }
    FineObject(Members(ms));
  }

  lemma LeafKeys()
    ensures "decisionId" != "logSeq" && "decisionId" != "payload" && "decisionId" != "serial"
    ensures "logSeq" != "payload" && "logSeq" != "serial" && "payload" != "serial"
  {
    assert "logSeq"[0] != "serial"[0];
  }

  lemma PayloadIsFine(p: Payload)
    ensures Fine(PayloadJson(p)) && DistinctKeys(PayloadJson(p).fields)
  {
    hide Fine, Int, Ints;
    assert "kind" != "choice" && "kind" != "choices" && "kind" != "ranking" && "kind" != "votes";
    var choice := if p.Single? then p.choice else 0;
    var list :=
      match p
      case Approval(cs) => cs
      case Ranked(r) => r
      case Quadratic(vs) => vs
      case Survey(cs) => cs
      case _ => [];
    FineParts(KindName(p), None, choice, list, []);
    hide KindName;
    FineObject(PayloadJson(p).fields);
  }

  lemma LeafIsFine(decisionId: string, logSeq: int, payload: Payload, serial: Option<string>)
    ensures Fine(LeafJson(decisionId, logSeq, payload, serial))
    ensures DistinctKeys(LeafJson(decisionId, logSeq, payload, serial).fields)
    ensures Encode(LeafJson(decisionId, logSeq, payload, serial)).Some?
  {
    hide Fine, Encode, PayloadJson, Int, StrOrNull;
    LeafKeys();
    PayloadIsFine(payload);
    FineParts(decisionId, serial, logSeq, [], []);
    FineObject(LeafJson(decisionId, logSeq, payload, serial).fields);
    FineEncodes(LeafJson(decisionId, logSeq, payload, serial));
  }

  lemma RootIsFine(root: string, treeSize: int, decisionId: string)
    ensures Fine(RootJson(root, treeSize, decisionId)) && DistinctKeys(RootJson(root, treeSize, decisionId).fields)
  {
    hide Fine, Int;
    FineParts(root, None, treeSize, [], []);
    FineParts(decisionId, None, treeSize, [], []);
    FineObject(RootJson(root, treeSize, decisionId).fields);
  }

  lemma ReceiptIsFine(ballotHash: string, logPosition: int, runningRoot: string)
    ensures var v := ReceiptJson(ballotHash, logPosition, runningRoot); Fine(v) && DistinctKeys(v.fields)
  {
    hide Fine, Int;
    assert "logPosition"[0] != "runningRoot"[0];
    FineParts(ballotHash, None, logPosition, [], []);
    FineParts(runningRoot, None, logPosition, [], []);
    FineObject(ReceiptJson(ballotHash, logPosition, runningRoot).fields);
  }

  lemma RuleKeys()
    ensures "threshold" != "quorum" && "threshold" != "tieBreak" && "threshold" != "seed"
    ensures "quorum" != "tieBreak" && "quorum" != "seed" && "tieBreak" != "seed"
    ensures "kind" != "percent"
  {
  }

  lemma ThresholdIsFine(t: Threshold)
    ensures Fine(ThresholdJson(t)) && DistinctNames(ThresholdMembers(t))
  {
    RuleKeys();
    FineParts(ThresholdName(t), None, 0, [], []);
    hide Members, ThresholdName;
    MembersAreFine(ThresholdMembers(t));
  }

  lemma RuleIsFine(r: Rule)
    ensures Fine(RuleJson(r)) && DistinctNames(RuleMembers(r))
  {
    RuleKeys();
    hide Fine, ThresholdJson, Int, TieBreakName, Members;
    ThresholdIsFine(r.threshold);
    FineParts(TieBreakName(r.tieBreak), None, if r.quorum.Some? then r.quorum.value else 0, [], []);
    FineParts(if r.seed.Some? then r.seed.value else "", None, 0, [], []);
    MembersAreFine(RuleMembers(r));
  }

  lemma SetupIsFine(s: Setup)
    requires Valid(s.roster) && Valid(s.schedule)
    ensures Valid(SetupJson(s))
    ensures Representable(SetupJson(s)) <==> Representable(s.roster) && Representable(s.schedule)
    ensures Encode(SetupJson(s)).Some? <==> Representable(SetupJson(s))
  {
    var mode := Str(if s.ballotMode.OpenBallots? then "open" else "secret");
    var policy := Str(if s.resultsPolicy.Sealed? then "sealed" else "live");
    EncodesIff(SetupJson(s));
    RuleIsFine(s.rule);
    FineParts(MethodName(s.scheme), s.issuerPubKeyHash, 0, [], s.options);
    FineParts(mode.text, None, 0, [], []);
    FineParts(policy.text, None, 0, [], []);
    hide *;
    SetupElems(s, mode, policy);
    FineArray(Strs(s.options), Str(MethodName(s.scheme)), RuleJson(s.rule), mode, policy, s.roster,
              StrOrNull(s.issuerPubKeyHash), s.schedule);
  }

  lemma SetupElems(s: Setup, mode: JsValue, policy: JsValue)
    requires mode == Str(if s.ballotMode.OpenBallots? then "open" else "secret")
    requires policy == Str(if s.resultsPolicy.Sealed? then "sealed" else "live")
    ensures SetupJson(s) == Arr([Strs(s.options), Str(MethodName(s.scheme)), RuleJson(s.rule), mode, policy,
                                 s.roster, StrOrNull(s.issuerPubKeyHash), s.schedule])
  {
  }

  /** An array of fine values and of two more is as fine as those two. */
  lemma FineArray(a: JsValue, b: JsValue, c: JsValue, d: JsValue, e: JsValue, v: JsValue, f: JsValue, w: JsValue)
    requires Fine(a) && Fine(b) && Fine(c) && Fine(d) && Fine(e) && Fine(f) && Valid(v) && Valid(w)
    ensures Valid(Arr([a, b, c, d, e, v, f, w]))
    ensures Representable(Arr([a, b, c, d, e, v, f, w])) <==> Representable(v) && Representable(w)
  {
    var es := [a, b, c, d, e, v, f, w];
    assert es[5] == v && es[7] == w;
    assert forall x | x in es :: x == v || x == w || Fine(x);
  }

  lemma RoundKeys(r: Round)
    ensures DistinctNames(RoundMembers(r))
  {
    hide Ints, Int;
    assert "counts"[1] == 'o' && "continuingBallots"[3] == 't' && "winner"[0] == 'w' && "eliminated"[0] == 'e';
  }

  lemma TallyKeys(t: Tally)
    ensures DistinctNames(TallyMembers(t))
  {
    hide Ints, Int, RoundsJson, MethodName;
    assert "method"[0] == 'm' && "abstain"[0] == 'a' && "totalCast"[0] == 't' && "rounds"[0] == 'r';
  }

  lemma VerdictKeys(v: Verdict)
    ensures DistinctNames(VerdictMembers(v))
  {
    hide Ints, Int, OutcomeName;
    assert "outcome"[0] == 'o' && "tiedOptions"[0] == 't' && "runoff"[0] == 'r' && "needsCastingVote"[0] == 'n';
  }

  lemma RoundIsFine(r: Round)
    ensures Fine(RoundJson(r))
  {
    RoundKeys(r);
    hide Fine, Int, Ints, Members, DistinctNames;
    FineParts("", None, r.continuingBallots, r.counts, []);
    FineParts("", None, if r.winner.Some? then r.winner.value else 0, [], []);
    FineParts("", None, if r.eliminated.Some? then r.eliminated.value else 0, [], []);
    MembersAreFine(RoundMembers(r));
  }

  lemma FineElems(es: seq<JsValue>)
    requires forall i | 0 <= i < |es| :: Fine(es[i])
    ensures Fine(Arr(es))
  {
  }

  lemma TallyIsFine(t: Tally)
    ensures Fine(TallyJson(t))
  {
    TallyKeys(t);
    hide Fine, Int, Ints, Members, DistinctNames, RoundJson, MethodName;
    FineParts(MethodName(t.scheme), None, t.optionCount, t.optionScores, []);
    FineParts("", None, t.abstain, [], []);
    FineParts("", None, t.totalCast, [], []);
    if t.irv.Some? {
      var rs := t.irv.value.rounds;
      forall i | 0 <= i < |rs| ensures Fine(RoundsJson(rs).elems[i]) { RoundIsFine(rs[i]); }
      FineElems(RoundsJson(rs).elems);
      FineParts("", None, if t.irv.value.winner.Some? then t.irv.value.winner.value else 0, [], []);
    }
    hide RoundsJson;
    MembersAreFine(TallyMembers(t));
  }

  lemma VerdictIsFine(v: Verdict)
    ensures Fine(VerdictJson(v))
  {
    VerdictKeys(v);
    hide Fine, Int, Ints, Members, DistinctNames, OutcomeName;
    FineParts(OutcomeName(v.outcome), None, if v.winner.Some? then v.winner.value else 0,
              if v.tiedOptions.Some? then v.tiedOptions.value else [], []);
    MembersAreFine(VerdictMembers(v));
  }

  // ---- and determine what they were built from ------------------------------------------------------

  /** A member of one object has its partner, of the same key, in the other. */
  lemma Partner(fs: seq<Field>, gs: seq<Field>, f: Field) returns (g: Field)
    requires Same(Obj(fs), Obj(gs)) && f in fs
    ensures g in gs && g.key == f.key && Same(f.val, g.val)
  {
    assert Occurs(f, gs);
    g :| g in gs && f.key == g.key && Same(f.val, g.val);
  }

  /** Objects with the same distinct keys in the same places are the same place by place. */
  lemma SameByPosition(fs: seq<Field>, gs: seq<Field>)
    requires |fs| == |gs| && DistinctKeys(gs) && forall i | 0 <= i < |fs| :: fs[i].key == gs[i].key
    requires Same(Obj(fs), Obj(gs))
    ensures forall i | 0 <= i < |fs| :: Same(fs[i].val, gs[i].val)
  {
    hide Same, DistinctKeys;
    forall i | 0 <= i < |fs| ensures Same(fs[i].val, gs[i].val) {
      var g := Partner(fs, gs, fs[i]);
      OneOfKey(gs, g, i);
    }
  }

  lemma OneOfKey(gs: seq<Field>, g: Field, i: nat)
    requires DistinctKeys(gs) && g in gs && i < |gs| && g.key == gs[i].key
    ensures g == gs[i]
  {
  }

  lemma IntsInjective(a: seq<int>, b: seq<int>)
    requires Same(Ints(a), Ints(b))
    ensures a == b
  {
    assert |a| == |Ints(a).elems| == |Ints(b).elems| == |b|;
    forall i | 0 <= i < |a| ensures a[i] == b[i] {
      assert Same(Ints(a).elems[i], Ints(b).elems[i]);
      IntNumInjective(a[i], b[i]);
    }
  }

  lemma StrsInjective(a: seq<string>, b: seq<string>)
    requires Same(Strs(a), Strs(b))
    ensures a == b
  {
    assert |a| == |Strs(a).elems| == |Strs(b).elems| == |b|;
    forall i | 0 <= i < |a| ensures a[i] == b[i] {
      assert Same(Strs(a).elems[i], Strs(b).elems[i]);
    }
  }

  lemma PartnerBack(fs: seq<Field>, gs: seq<Field>, g: Field) returns (f: Field)
    requires Same(Obj(fs), Obj(gs)) && g in gs
    ensures f in fs && f.key == g.key && Same(f.val, g.val)
  {
    assert Recurs(fs, g);
    f :| f in fs && f.key == g.key && Same(f.val, g.val);
  }

  ghost predicate SameOption(v: Option<JsValue>, w: Option<JsValue>) {
    v.Some? == w.Some? && (v.Some? ==> Same(v.value, w.value))
  }

  /** In a field list made of members, a key leads to its member. */
  lemma KeyLeadsToMember(ms: seq<(string, Option<JsValue>)>, f: Field, i: nat)
    requires DistinctNames(ms) && i < |ms| && f in Members(ms) && f.key == ms[i].0
    ensures ms[i].1 == Some(f.val)
  {
    hide Members;
    FieldsAreMembers(ms, f);
  }

  /** Objects of the same members are the same member by member. */
  lemma SameMembers(ms: seq<(string, Option<JsValue>)>, ns: seq<(string, Option<JsValue>)>, i: nat)
    requires Same(Obj(Members(ms)), Obj(Members(ns))) && DistinctNames(ms) && DistinctNames(ns)
    requires i < |ms| == |ns| && ms[i].0 == ns[i].0
    ensures SameOption(ms[i].1, ns[i].1)
  {
    hide Same, Members, DistinctNames;
    if ms[i].1.Some? {
      MemberIsField(ms, i);
      var g := Partner(Members(ms), Members(ns), Field(ms[i].0, ms[i].1.value));
      KeyLeadsToMember(ns, g, i);
    } else if ns[i].1.Some? {
      MemberIsField(ns, i);
      var f := PartnerBack(Members(ms), Members(ns), Field(ns[i].0, ns[i].1.value));
      KeyLeadsToMember(ms, f, i);
    }
  }

  lemma SameOptions(i: Option<int>, j: Option<int>, s: Option<string>, t: Option<string>,
                    a: Option<seq<int>>, b: Option<seq<int>>, p: bool, q: bool)
    ensures SameOption(IntOption(i), IntOption(j)) ==> i == j
    ensures SameOption(StrOption(s), StrOption(t)) ==> s == t
    ensures SameOption(IntsOption(a), IntsOption(b)) ==> a == b
    ensures SameOption(FlagOption(p), FlagOption(q)) ==> p == q
  {
    hide Same, Int, Ints;
    if i.Some? && j.Some? && Same(Int(i.value), Int(j.value)) { IntSame(i.value, j.value); }
    if s.Some? && t.Some? && Same(Str(s.value), Str(t.value)) { StrSame(s.value, t.value); }
    if a.Some? && b.Some? && Same(Ints(a.value), Ints(b.value)) { IntsInjective(a.value, b.value); }
  }

  /** The first member of a payload object names its kind, and no other member has its key. */
  lemma PayloadKind(p: Payload)
    ensures var fs := PayloadJson(p).fields;
      && fs != [] && fs[0] == Field("kind", Str(KindName(p)))
      && forall f | f in fs && f.key == "kind" :: f == fs[0]
  {
    assert "kind" != "choice" && "kind" != "choices" && "kind" != "ranking" && "kind" != "votes";
  }

  lemma SameKind(p: Payload, q: Payload)
    requires Same(PayloadJson(p), PayloadJson(q))
    ensures KindName(p) == KindName(q)
  {
    PayloadKind(p);
    PayloadKind(q);
    assert PayloadJson(p) == Obj(PayloadJson(p).fields) && PayloadJson(q) == Obj(PayloadJson(q).fields);
    hide PayloadJson, KindName, Same;
    var g := Partner(PayloadJson(p).fields, PayloadJson(q).fields, PayloadJson(p).fields[0]);
    StrSame(KindName(p), KindName(q));
  }

  lemma KindNamesDiffer(p: Payload, q: Payload)
    requires KindName(p) == KindName(q)
    ensures p.Single? == q.Single? && p.Approval? == q.Approval? && p.Ranked? == q.Ranked?
    ensures p.Quadratic? == q.Quadratic? && p.Survey? == q.Survey? && p.Abstain? == q.Abstain?
  {
    assert "single"[1] == 'i' && "ranked"[1] == 'a' && "survey"[1] == 'u';
  }

  lemma PayloadInjective(p: Payload, q: Payload)
    requires Same(PayloadJson(p), PayloadJson(q))
    ensures p == q
  {
    SameKind(p, q);
    KindNamesDiffer(p, q);
    PayloadIsFine(q);
    assert PayloadJson(p) == Obj(PayloadJson(p).fields) && PayloadJson(q) == Obj(PayloadJson(q).fields);
    hide Same, KindName;
    SameByPosition(PayloadJson(p).fields, PayloadJson(q).fields);
    var fs, gs := PayloadJson(p).fields, PayloadJson(q).fields;
    match p
    case Single(c) => assert Same(fs[1].val, gs[1].val); IntSame(c, q.choice);
    case Approval(cs) => assert Same(fs[1].val, gs[1].val); IntsInjective(cs, q.choices);
    case Ranked(r) => assert Same(fs[1].val, gs[1].val); IntsInjective(r, q.ranking);
    case Quadratic(vs) => assert Same(fs[1].val, gs[1].val); IntsInjective(vs, q.votes);
    case Survey(cs) => assert Same(fs[1].val, gs[1].val); IntsInjective(cs, q.choices);
    case Abstain =>
  }

  lemma SerialInjective(s: Option<string>, t: Option<string>)
    requires Same(StrOrNull(s), StrOrNull(t))
    ensures s == t
  {
  }

  /** Equal leaf texts are leaves of the same ballot at the same place in the same decision. */
  lemma LeafInjective(id: string, n: int, p: Payload, s: Option<string>, id': string, n': int, p': Payload,
      s': Option<string>)
    requires Encode(LeafJson(id, n, p, s)) == Encode(LeafJson(id', n', p', s'))
    ensures id == id' && n == n' && p == p' && s == s'
  {
    var a, b := LeafJson(id, n, p, s), LeafJson(id', n', p', s');
    LeafIsFine(id, n, p, s);
    LeafIsFine(id', n', p', s');
    hide Encode, Same, PayloadJson, StrOrNull, Int, Valid, Representable, DistinctKeys;
    CanonicalTextIsFaithful(a, b);
    LeafMembers(id, n, p, s, id', n', p', s');
    StrSame(id, id');
    IntSame(n, n');
    PayloadInjective(p, p');
    SerialInjective(s, s');
  }

  lemma LeafMembers(id: string, n: int, p: Payload, s: Option<string>, id': string, n': int, p': Payload,
      s': Option<string>)
    requires Same(LeafJson(id, n, p, s), LeafJson(id', n', p', s')) && DistinctKeys(LeafJson(id', n', p', s').fields)
    ensures Same(Str(id), Str(id')) && Same(Int(n), Int(n')) && Same(PayloadJson(p), PayloadJson(p'))
    ensures Same(StrOrNull(s), StrOrNull(s'))
  {
    hide Same, PayloadJson, StrOrNull, Int, DistinctKeys;
    var fs, gs := LeafJson(id, n, p, s).fields, LeafJson(id', n', p', s').fields;
    SameByPosition(fs, gs);
    assert Same(fs[0].val, gs[0].val) && Same(fs[1].val, gs[1].val) && Same(fs[2].val, gs[2].val)
      && Same(fs[3].val, gs[3].val);
  }

  /** A signed root text stands for one root, one size and one decision. */
  lemma RootTextIff(root: string, size: int, id: string, root': string, size': int, id': string)
    ensures Encode(RootJson(root, size, id)).Some?
    ensures Encode(RootJson(root, size, id)) == Encode(RootJson(root', size', id'))
        <==> root == root' && size == size' && id == id'
  {
    var a, b := RootJson(root, size, id), RootJson(root', size', id');
    RootIsFine(root, size, id);
    RootIsFine(root', size', id');
    hide Encode, Same, Int, Valid, Representable, DistinctKeys;
    CanonicalTextIsFaithful(a, b);
    if Same(a, b) {
      SameByPosition(a.fields, b.fields);
      assert Same(a.fields[0].val, b.fields[0].val) && Same(a.fields[1].val, b.fields[1].val)
        && Same(a.fields[2].val, b.fields[2].val);
      StrSame(root, root');
      IntSame(size, size');
      StrSame(id, id');
    }
  }

  /** A signed receipt text stands for one leaf, one position and one running root. */
  lemma ReceiptTextIff(leaf: string, position: int, root: string, leaf': string, position': int, root': string)
    ensures Encode(ReceiptJson(leaf, position, root)).Some?
    ensures Encode(ReceiptJson(leaf, position, root)) == Encode(ReceiptJson(leaf', position', root'))
       <==> leaf == leaf' && position == position' && root == root'
  {
    var a, b := ReceiptJson(leaf, position, root), ReceiptJson(leaf', position', root');
    ReceiptIsFine(leaf, position, root);
    ReceiptIsFine(leaf', position', root');
    hide Encode, Same, Int, Valid, Representable, DistinctKeys;
    CanonicalTextIsFaithful(a, b);
    if Same(a, b) {
      SameByPosition(a.fields, b.fields);
      assert Same(a.fields[0].val, b.fields[0].val) && Same(a.fields[1].val, b.fields[1].val)
        && Same(a.fields[2].val, b.fields[2].val);
      StrSame(leaf, leaf');
      IntSame(position, position');
      StrSame(root, root');
    }
  }

  /** No receipt's signature is a root's, nor the other way round. */
  lemma ReceiptsAreNotRoots(root: string, size: int, id: string, leaf: string, position: int, running: string)
    ensures Encode(RootJson(root, size, id)) != Encode(ReceiptJson(leaf, position, running))
  {
    var a, b := RootJson(root, size, id), ReceiptJson(leaf, position, running);
    RootIsFine(root, size, id);
    ReceiptIsFine(leaf, position, running);
    hide Encode, Same, Int, Valid, Representable, DistinctKeys;
    CanonicalTextIsFaithful(a, b);
    assert "root" != "ballotHash" && "root" != "logPosition" && "root" != "runningRoot" by {
      assert |"root"| == 4 && |"ballotHash"| == 10 && |"logPosition"| == 11 && |"runningRoot"| == 11;
    }
    if Same(a, b) {
      var g := Partner(a.fields, b.fields, a.fields[0]);
      assert false;
    }
  }

  lemma ThresholdInjective(t: Threshold, u: Threshold)
    requires Same(ThresholdJson(t), ThresholdJson(u))
    ensures t == u
  {
    ThresholdIsFine(t);
    ThresholdIsFine(u);
    hide Same, Members, DistinctNames, StrOption, ThresholdName, PercentOption, Fine, SameOption;
    SameMembers(ThresholdMembers(t), ThresholdMembers(u), 0);
    SameMembers(ThresholdMembers(t), ThresholdMembers(u), 1);
    SameOptions(None, None, Some(ThresholdName(t)), Some(ThresholdName(u)), None, None, false, false);
    ThresholdNames(t, u);
    SamePercents(t, u);
  }

  lemma SamePercents(t: Threshold, u: Threshold)
    requires SameOption(PercentOption(t), PercentOption(u))
    requires t.Plurality? == u.Plurality? && t.Majority? == u.Majority?
    ensures t == u
  {
  }

  lemma ThresholdInitial(t: Threshold)
    ensures var name := ThresholdName(t);
      name != "" && name[0] == if t.Plurality? then 'p' else if t.Majority? then 'm' else 's'
  {
  }

  lemma ThresholdNames(t: Threshold, u: Threshold)
    requires ThresholdName(t) == ThresholdName(u)
    ensures t.Plurality? == u.Plurality? && t.Majority? == u.Majority?
  {
    ThresholdInitial(t);
    ThresholdInitial(u);
    hide ThresholdName;
  }

  lemma TieBreakInjective(t: TieBreak, u: TieBreak)
    requires TieBreakName(t) == TieBreakName(u)
    ensures t == u
  {
    assert "declare"[0] == 'd' && "casting"[0] == 'c';
  }

  lemma RuleInjective(r: Rule, q: Rule)
    requires Same(RuleJson(r), RuleJson(q))
    ensures r == q
  {
    RuleIsFine(r);
    RuleIsFine(q);
    hide Same, Members, ThresholdJson, TieBreakName, IntOption, StrOption, Fine, DistinctNames;
    var ms, ns := RuleMembers(r), RuleMembers(q);
    forall i | 0 <= i < 4 ensures SameOption(ms[i].1, ns[i].1) { SameMembers(ms, ns, i); }
    assert SameOption(ms[0].1, ns[0].1) && SameOption(ms[1].1, ns[1].1) && SameOption(ms[2].1, ns[2].1)
      && SameOption(ms[3].1, ns[3].1);
    ThresholdInjective(r.threshold, q.threshold);
    SameOptions(r.quorum, q.quorum, r.seed, q.seed, None, None, false, false);
    SameOptions(None, None, Some(TieBreakName(r.tieBreak)), Some(TieBreakName(q.tieBreak)), None, None, false, false);
    TieBreakInjective(r.tieBreak, q.tieBreak);
  }

  lemma StrSame(a: string, b: string)
    requires Same(Str(a), Str(b))
    ensures a == b
  {
  }

  lemma IntSame(a: int, b: int)
    requires Same(Int(a), Int(b))
    ensures a == b
  {
    IntNumInjective(a, b);
  }

  lemma MethodNameInjective(m: Method, k: Method)
    requires MethodName(m) == MethodName(k)
    ensures m == k
  {
    assert "single"[1] == 'i' && "ranked"[1] == 'a' && "survey"[1] == 'u';
  }

  /** Equal set-up texts bind the same options, method, rule, modes and issuer. */
  lemma SetupInjective(s: Setup, t: Setup)
    requires Valid(s.roster) && Valid(s.schedule) && Valid(t.roster) && Valid(t.schedule)
    requires Encode(SetupJson(s)).Some? && Encode(SetupJson(s)) == Encode(SetupJson(t))
    ensures s.options == t.options && s.scheme == t.scheme && s.rule == t.rule && s.ballotMode == t.ballotMode
    ensures s.resultsPolicy == t.resultsPolicy && s.issuerPubKeyHash == t.issuerPubKeyHash
    ensures Same(s.roster, t.roster) && Same(s.schedule, t.schedule)
  {
    var a, b := SetupJson(s), SetupJson(t);
    SetupIsFine(s);
    SetupIsFine(t);
    CanonicalTextIsFaithful(a, b);
    SameArrays(a.elems, b.elems);
    hide Encode, Same, RuleJson, Strs, StrOrNull, MethodName, Valid, Representable;
    assert Same(a.elems[0], b.elems[0]) && Same(a.elems[1], b.elems[1]) && Same(a.elems[2], b.elems[2]);
    assert Same(a.elems[3], b.elems[3]) && Same(a.elems[4], b.elems[4]) && Same(a.elems[6], b.elems[6]);
    assert Same(a.elems[5], b.elems[5]) && Same(a.elems[7], b.elems[7]);
    StrsInjective(s.options, t.options);
    StrSame(MethodName(s.scheme), MethodName(t.scheme));
    MethodNameInjective(s.scheme, t.scheme);
    RuleInjective(s.rule, t.rule);
    assert "open" != "secret" && "sealed" != "live";
    StrSame(a.elems[3].text, b.elems[3].text);
    StrSame(a.elems[4].text, b.elems[4].text);
    SerialInjective(s.issuerPubKeyHash, t.issuerPubKeyHash);
  }

  lemma SameArrays(es: seq<JsValue>, ds: seq<JsValue>)
    requires Same(Arr(es), Arr(ds))
    ensures |es| == |ds| && forall i | 0 <= i < |es| :: Same(es[i], ds[i])
  {
  }

  // ---- and so do the results ---------------------------------------------------------------------------

  lemma RoundInjective(r: Round, q: Round)
    requires Same(RoundJson(r), RoundJson(q)) && DistinctNames(RoundMembers(r)) && DistinctNames(RoundMembers(q))
    ensures r == q
  {
    hide Same, Members, IntOption, IntsOption, DistinctNames, SameOption;
    var ms, ns := RoundMembers(r), RoundMembers(q);
    forall i | 0 <= i < 4 ensures SameOption(ms[i].1, ns[i].1) { SameMembers(ms, ns, i); }
    assert SameOption(ms[0].1, ns[0].1) && SameOption(ms[1].1, ns[1].1) && SameOption(ms[2].1, ns[2].1)
      && SameOption(ms[3].1, ns[3].1);
    SameOptions(r.winner, q.winner, None, None, Some(r.counts), Some(q.counts), false, false);
    SameOptions(r.eliminated, q.eliminated, None, None, None, None, false, false);
    SameOptions(Some(r.continuingBallots), Some(q.continuingBallots), None, None, None, None, false, false);
  }

  lemma RoundsInjective(rs: seq<Round>, qs: seq<Round>)
    requires Same(RoundsJson(rs), RoundsJson(qs))
    ensures rs == qs
  {
    hide RoundJson;
    SameArrays(RoundsJson(rs).elems, RoundsJson(qs).elems);
    assert |rs| == |RoundsJson(rs).elems| == |RoundsJson(qs).elems| == |qs|;
    hide Same;
    forall i | 0 <= i < |rs| ensures rs[i] == qs[i] {
      assert Same(RoundsJson(rs).elems[i], RoundsJson(qs).elems[i]);
      RoundKeys(rs[i]);
      RoundKeys(qs[i]);
      RoundInjective(rs[i], qs[i]);
    }
  }

  lemma IrvInjective(r: Option<IrvResult>, q: Option<IrvResult>)
    requires SameOption(RoundsOption(r), RoundsOption(q)) && SameOption(WinnerOption(r), WinnerOption(q))
    ensures r == q
  {
    hide RoundsJson;
    if r.Some? {
      RoundsInjective(r.value.rounds, q.value.rounds);
      if r.value.winner.Some? && q.value.winner.Some? { IntSame(r.value.winner.value, q.value.winner.value); }
    }
  }

  lemma TallyInjective(t: Tally, u: Tally)
    requires Same(TallyJson(t), TallyJson(u))
    ensures t == u
  {
    TallyKeys(t);
    TallyKeys(u);
    hide Same, Members, IntOption, StrOption, IntsOption, RoundsOption, WinnerOption, MethodName, DistinctNames,
      SameOption;
    var ms, ns := TallyMembers(t), TallyMembers(u);
    forall i | 0 <= i < 7 ensures SameOption(ms[i].1, ns[i].1) { SameMembers(ms, ns, i); }
    assert SameOption(ms[0].1, ns[0].1) && SameOption(ms[1].1, ns[1].1) && SameOption(ms[2].1, ns[2].1)
      && SameOption(ms[3].1, ns[3].1);
    assert SameOption(ms[4].1, ns[4].1) && SameOption(ms[5].1, ns[5].1) && SameOption(ms[6].1, ns[6].1);
    SameOptions(Some(t.optionCount), Some(u.optionCount), Some(MethodName(t.scheme)), Some(MethodName(u.scheme)),
                Some(t.optionScores), Some(u.optionScores), false, false);
    SameOptions(Some(t.abstain), Some(u.abstain), None, None, None, None, false, false);
    SameOptions(Some(t.totalCast), Some(u.totalCast), None, None, None, None, false, false);
    MethodNameInjective(t.scheme, u.scheme);
    IrvInjective(t.irv, u.irv);
  }

  lemma OutcomeNameInjective(o: Outcome, p: Outcome)
    requires OutcomeName(o) == OutcomeName(p)
    ensures o == p
  {
    assert "carried"[0] == 'c' && "failed"[0] == 'f' && "tie"[0] == 't' && "quorum-not-met"[0] == 'q';
  }

  lemma VerdictInjective(v: Verdict, w: Verdict)
    requires Same(VerdictJson(v), VerdictJson(w))
    ensures v == w
  {
    VerdictKeys(v);
    VerdictKeys(w);
    hide Same, Members, IntOption, StrOption, IntsOption, FlagOption, OutcomeName, DistinctNames, SameOption;
    var ms, ns := VerdictMembers(v), VerdictMembers(w);
    forall i | 0 <= i < 5 ensures SameOption(ms[i].1, ns[i].1) { SameMembers(ms, ns, i); }
    assert SameOption(ms[0].1, ns[0].1) && SameOption(ms[1].1, ns[1].1) && SameOption(ms[2].1, ns[2].1);
    assert SameOption(ms[3].1, ns[3].1) && SameOption(ms[4].1, ns[4].1);
    SameOptions(v.winner, w.winner, Some(OutcomeName(v.outcome)), Some(OutcomeName(w.outcome)),
                v.tiedOptions, w.tiedOptions, v.runoff, w.runoff);
    SameOptions(None, None, None, None, None, None, v.needsCastingVote, w.needsCastingVote);
    OutcomeNameInjective(v.outcome, w.outcome);
  }

  /** Published results have the same canonical text exactly when they are the same results. */
  lemma ResultTextsIff(t: Tally, u: Tally, v: Verdict, w: Verdict)
    ensures Encode(TallyJson(t)).Some? && Encode(VerdictJson(v)).Some?
    ensures Encode(TallyJson(t)) == Encode(TallyJson(u)) <==> t == u
    ensures Encode(VerdictJson(v)) == Encode(VerdictJson(w)) <==> v == w
  {
    TallyIsFine(t);
    TallyIsFine(u);
    VerdictIsFine(v);
    VerdictIsFine(w);
    hide TallyJson, VerdictJson, Encode, Valid, Representable, Same;
    CanonicalTextIsFaithful(TallyJson(t), TallyJson(u));
    CanonicalTextIsFaithful(VerdictJson(v), VerdictJson(w));
    if Same(TallyJson(t), TallyJson(u)) { TallyInjective(t, u); }
    if Same(VerdictJson(v), VerdictJson(w)) { VerdictInjective(v, w); }
  }
}
