/**
 * The bulletin board: what the tables hold, and what each request does to them. Every step is a
 * function of the tables; Repos.dfy carries it out table by table.
 */
module Board {
  import opened Basics
  import opened Tallies
  import opened Verdicts
  import opened Wire
  import opened Json
  import Inclusion
  import Merkle
  import Hex
  import TallyTheorems

  // ---- the server's primitives ---------------------------------------------------------------

  /** Hashing, signing and credential checking, as parameters. `text` is SHA-256 of the UTF-8 form. */
  datatype Env = Env(bytes: ByteHash, text: string -> Digest,
                     publicKey: string, sign: string -> string, verify: (string, string, string) -> bool,
                     credentialOk: (string, string, string) -> bool)

  function CanonText(v: JsValue): string { if Encode(v).Some? then Encode(v).value else "" }

  lemma CanonTextIs(v: JsValue)
    ensures Encode(v).Some? ==> CanonText(v) == Encode(v).value
  {
  }

  const LEAF_DOMAIN := "tessera:leaf:v1\n"

  function LeafText(id: string, logSeq: int, payload: Payload, serial: Option<string>): string {
    LEAF_DOMAIN + CanonText(LeafJson(id, logSeq, payload, serial))
  }

  /** computeBallotHash and recomputeBallotHash. */
  function BallotHash(env: Env, id: string, logSeq: int, payload: Payload, serial: Option<string>): string {
    Hex.Encode(env.text(LeafText(id, logSeq, payload, serial)))
  }

  /** A leaf text is the leaf of one ballot at one place of one decision. */
  lemma LeafTextInjective(id: string, n: int, p: Payload, s: Option<string>, id': string, n': int, p': Payload,
      s': Option<string>)
    requires LeafText(id, n, p, s) == LeafText(id', n', p', s')
    ensures id == id' && n == n' && p == p' && s == s'
  {
    var x, y := LeafJson(id, n, p, s), LeafJson(id', n', p', s');
    LeafIsFine(id, n, p, s);
    LeafIsFine(id', n', p', s');
    hide Encode, LeafJson;
    assert (LEAF_DOMAIN + CanonText(x))[|LEAF_DOMAIN|..] == CanonText(x);
    assert (LEAF_DOMAIN + CanonText(y))[|LEAF_DOMAIN|..] == CanonText(y);
    LeafInjective(id, n, p, s, id', n', p', s');
  }

  /** merkleRoot over leaves that are known to be hex. */
  function RootText(env: Env, leaves: seq<string>): string {
    Hex.Encode(Merkle.Mth(env.bytes, Inclusion.Decoded(leaves)))
  }

  /** signedRootPayload, signed. */
  function SignRoot(env: Env, id: string, root: string, treeSize: int): string {
    env.sign(CanonText(RootJson(root, treeSize, id)))
  }

  // ---- rows ------------------------------------------------------------------------------------

  datatype LifecycleState = Draft | Registration | Open | Closed | Challenge | Published | Cancelled

  predicate CanTransition(from: LifecycleState, to: LifecycleState) {
    match from
    case Draft => to in {Open, Registration, Cancelled}
    case Registration => to in {Open, Cancelled}
    case Open => to in {Closed, Cancelled}
    case Closed => to in {Challenge, Published, Cancelled}
    case Challenge => to in {Published, Cancelled}
    case Published => false
    case Cancelled => false
  }

  datatype Eligibility = OpenToAll | Passcode(passcode: string) | Domain(domain: string) | Invite

  datatype Schedule = Schedule(opensAt: Option<int>, closesAt: Option<int>)

  /** The issuer key of a secret-ballot decision. */
  datatype Issuer = Issuer(publicKeyPem: string, pubKeyHash: string)

  datatype Config = Config(convener: string, options: seq<string>, scheme: Method, rule: Rule, ballotMode: BallotMode,
                           resultsPolicy: ResultsPolicy, eligibility: Eligibility, schedule: Schedule,
                           maxParticipants: Option<int>, issuer: Option<Issuer>)

  datatype BallotRow = BallotRow(payload: Payload, serial: Option<string>, idempotencyKey: string,
                                 logSeq: int, prevHead: string, ballotHash: string)

  datatype Head = Head(head: string, leafCount: int)

  datatype Receipt = Receipt(ballotHash: string, decisionId: string, logPosition: int, runningRoot: string,
      serverSig: string)

  datatype Event = Event(transition: string, actor: string, ts: int, signedSig: string, closesAt: Option<int>)

  datatype Checkpoint = Checkpoint(root: string, treeSize: int, prevRoot: Option<string>, signedRoot: string)

  /** A decision row together with the rows of the other tables that carry its id. */
  datatype Decision = Decision(config: Config, setupCommitment: string, state: LifecycleState, ballots: seq<BallotRow>,
                               head: Option<Head>, events: seq<Event>, checkpoints: seq<Checkpoint>)

  datatype Store = Store(decisions: map<string, Decision>, receipts: map<string, Receipt>)

  // ---- queries -----------------------------------------------------------------------------------

  function Leaves(ballots: seq<BallotRow>): (r: seq<string>)
    ensures |r| == |ballots|
  {
    seq(|ballots|, i requires 0 <= i < |ballots| => ballots[i].ballotHash)
  }

  predicate SerialExists(ballots: seq<BallotRow>, serial: string) {
    exists i :: 0 <= i < |ballots| && ballots[i].serial == Some(serial)
  }

  /** findByIdempotency: the position of the first row with the key. */
  function FindKey(ballots: seq<BallotRow>, key: string): (r: Option<nat>)
    ensures r.Some? ==> r.value < |ballots| && ballots[r.value].idempotencyKey == key
    ensures r.None? ==> forall i | 0 <= i < |ballots| :: ballots[i].idempotencyKey != key
  {
    if ballots == [] then None
    else
      var last := |ballots| - 1;
      var before := FindKey(ballots[..last], key);
      if before.Some? then before
      else if ballots[last].idempotencyKey == key then Some(last)
      else None
  }

  predicate IsExtend(e: Event) { e.transition == "extend" && e.closesAt.Some? }

  /** Place `i` holds an amendment later than all before it and no earlier than any after it. */
  ghost predicate InForceAt(events: seq<Event>, i: int) {
    && 0 <= i < |events| && IsExtend(events[i])
    && (forall j | 0 <= j < i && IsExtend(events[j]) :: events[j].ts < events[i].ts)
    && (forall j | i < j < |events| && IsExtend(events[j]) :: events[j].ts <= events[i].ts)
  }

  /** The amendment in force: the highest timestamp, and the first of several with it. */
  function LatestExtend(events: seq<Event>): (r: Option<Event>) {
    if events == [] then None
    else
      var last, before := events[|events| - 1], LatestExtend(events[..|events| - 1]);
      if IsExtend(last) && (before.None? || last.ts > before.value.ts) then Some(last) else before
  }

  lemma {:induction false} LatestExtendIsInForce(events: seq<Event>)
    ensures var r := LatestExtend(events);
      if r.Some? then exists i :: InForceAt(events, i) && events[i] == r.value
      else forall i | 0 <= i < |events| :: !IsExtend(events[i])
  {
    if events != [] {
      var last, init := events[|events| - 1], events[..|events| - 1];
      var before := LatestExtend(init);
      LatestExtendIsInForce(init);
      hide IsExtend;
      if IsExtend(last) && (before.None? || last.ts > before.value.ts) {
        assert forall j | 0 <= j < |init| :: init[j] == events[j];
        assert InForceAt(events, |events| - 1);
      } else if before.Some? {
        var i :| InForceAt(init, i) && init[i] == before.value;
        assert forall j | 0 <= j < |init| :: init[j] == events[j];
        assert InForceAt(events, i);
      }
    }
  }

  /** effectiveClose: the amendment in force, else the schedule; None closes by hand only. */
  function EffectiveClose(events: seq<Event>, schedule: Schedule): Option<int> {
    var latest := LatestExtend(events);
    if latest.Some? then latest.value.closesAt else schedule.closesAt
  }

  predicate Expired(d: Decision, now: int) {
    var close := EffectiveClose(d.events, d.config.schedule);
    close.Some? && now > close.value
  }

  // ---- set-up ----------------------------------------------------------------------------------------

  function EligibilityJson(e: Eligibility): JsValue {
    match e
    case OpenToAll => Obj([Field("method", Str("open"))])
    case Passcode(p) => Obj([Field("method", Str("passcode")), Field("passcode", Str(p))])
    case Domain(d) => Obj([Field("method", Str("domain")), Field("domain", Str(d))])
    case Invite => Obj([Field("method", Str("invite"))])
  }

  function ScheduleJson(s: Schedule): JsValue {
    Obj(Optional("opensAt", IntOption(s.opensAt)) + Optional("closesAt", IntOption(s.closesAt)))
  }

  /** The parts that the set-up commitment binds, as the server derives them from a decision row. */
  function SetupOf(env: Env, c: Config): Setup {
    Setup(c.options, c.scheme, c.rule, c.ballotMode, c.resultsPolicy,
          Str(Hex.Encode(env.text(CanonText(EligibilityJson(c.eligibility))))),
          if c.issuer.Some? then Some(c.issuer.value.pubKeyHash) else None,
          ScheduleJson(c.schedule))
  }

  /** computeSetupCommitment */
  function SetupCommitment(env: Env, s: Setup): string { Hex.Encode(env.text(CanonText(SetupJson(s)))) }

  // ---- convener requests ----------------------------------------------------------------------------------

  datatype Reply = Done | NotFound | Forbidden | IllegalTransition | Invalid | ServerError

  /** thresholdSchema: a percent lies in [0, 100], and a supermajority's is not 0. */
  predicate ValidThreshold(t: Threshold) {
    if t.Supermajority? then 0.0 < PercentDouble(t.percent) <= 100.0
    else t.unread.Some? ==> 0.0 <= PercentDouble(t.unread.value) <= 100.0
  }

  /** DecisionCreateSchema, as far as later steps rely on it. */
  predicate ValidConfig(c: Config) {
    && |c.options| >= 2
    && (c.maxParticipants.Some? ==> c.maxParticipants.value > 0)
    && (c.rule.quorum.Some? ==> c.rule.quorum.value >= 0)
    && c.rule.seed.None? && ValidThreshold(c.rule.threshold)
    && (c.issuer.Some? <==> c.ballotMode == SecretBallots)
  }

  /** POST /decisions with the id that randomUUID hands out. */
  function CreateDecision(env: Env, st: Store, id: string, c: Config): (Store, Reply) {
    if !ValidConfig(c) then (st, Invalid)
    else if id in st.decisions then (st, ServerError)
    else
      var d := Decision(c, SetupCommitment(env, SetupOf(env, c)),
                        if c.ballotMode == SecretBallots then Registration else Draft, [], None, [], []);
      (st.(decisions := st.decisions[id := d]), Done)
  }

  function StateName(s: LifecycleState): string {
    match s
    case Draft => "draft"
    case Registration => "registration"
    case Open => "open"
    case Closed => "closed"
    case Challenge => "challenge"
    case Published => "published"
    case Cancelled => "cancelled"
  }

  function EventJson(id: string, from: LifecycleState, to: LifecycleState, actor: string, ts: int,
      extra: seq<Field>): JsValue
  {
    Obj([Field("decisionId", Str(id)), Field("from", Str(StateName(from))), Field("to", Str(StateName(to))),
         Field("actor", Str(actor)), Field("timestamp", Int(ts))] + extra)
  }

  /** appendSignedLifecycle for a change of state. */
  function TransitionEvent(env: Env, id: string, from: LifecycleState, to: LifecycleState, actor: string,
      now: int): Event
  {
    Event(StateName(to), actor, now, env.sign(CanonText(EventJson(id, from, to, actor, now, []))), None)
  }

  /** What the signed text of an extension says beyond that of a move. */
  function ExtendFields(closesAt: int): seq<Field> {
    [Field("transition", Str("extend")), Field("closesAt", Int(closesAt))]
  }

  function ExtendEvent(env: Env, id: string, closesAt: int, actor: string, now: int): Event {
    var text := CanonText(EventJson(id, Open, Open, actor, now, ExtendFields(closesAt)));
    Event("extend", actor, now, env.sign(text), Some(closesAt))
  }

  /** loadOwned */
  function Load(st: Store, id: string, actor: string): Reply {
    if id !in st.decisions then NotFound
    else if st.decisions[id].config.convener != actor then Forbidden
    else Done
  }

  /** head.set refuses to lower an existing leaf count. */
  predicate HeadAccepts(head: Option<Head>, leafCount: int) {
    head.None? || head.value.leafCount <= leafCount
  }

  /** transitionHandler: open, close and cancel. */
  function Transition(env: Env, st: Store, id: string, to: LifecycleState, actor: string, now: int): (Store, Reply) {
    var loaded := Load(st, id, actor);
    if loaded != Done then (st, loaded)
    else
      var d := st.decisions[id];
      if !CanTransition(d.state, to) then (st, IllegalTransition)
      else
        var moved := d.(events := d.events + [TransitionEvent(env, id, d.state, to, actor, now)], state := to);
        if to == Open && d.state in {Draft, Registration} then
          if HeadAccepts(d.head, 0)
          then (st.(decisions := st.decisions[id := moved.(head := Some(Head(RootText(env, []), 0)))]), Done)
          else (st.(decisions := st.decisions[id := moved]), ServerError)
        else (st.(decisions := st.decisions[id := moved]), Done)
  }

  /** checkpoints.latest: the largest tree, and the last of several with it. */
  function LatestCheckpoint(cps: seq<Checkpoint>): (r: Option<Checkpoint>)
    ensures r.Some? <==> cps != []
    ensures r.Some? ==> r.value in cps && forall c | c in cps :: c.treeSize <= r.value.treeSize
  {
    if cps == [] then None
    else
      var last, init := cps[|cps| - 1], cps[..|cps| - 1];
      var before := LatestCheckpoint(init);
      assert cps == init + [last];
      if before.None? || last.treeSize >= before.value.treeSize then Some(last) else before
  }

  /** buildCheckpoint */
  function BuildCheckpoint(env: Env, id: string, leaves: seq<string>, prevRoot: Option<string>): Checkpoint {
    var root := RootText(env, leaves);
    Checkpoint(root, |leaves|, prevRoot, SignRoot(env, id, root, |leaves|))
  }

  /** POST /decisions/:id/publish */
  function Publish(env: Env, st: Store, id: string, actor: string, now: int): (Store, Reply) {
    var loaded := Load(st, id, actor);
    if loaded != Done then (st, loaded)
    else
      var d := st.decisions[id];
      if !CanTransition(d.state, Published) then (st, IllegalTransition)
      else
        var latest := LatestCheckpoint(d.checkpoints);
        var cp := BuildCheckpoint(env, id, Leaves(d.ballots), if latest.Some? then Some(latest.value.root) else None);
        (st.(decisions := st.decisions[id :=
           d.(events := d.events + [TransitionEvent(env, id, d.state, Published, actor, now)],
              state := Published, checkpoints := d.checkpoints + [cp])]), Done)
  }

  /** POST /decisions/:id/extend with an integer time. */
  function Extend(env: Env, st: Store, id: string, closesAt: int, actor: string, now: int): (Store, Reply) {
    var loaded := Load(st, id, actor);
    if loaded != Done then (st, loaded)
    else
      var d := st.decisions[id];
      if d.state != Open then (st, IllegalTransition)
      else (st.(decisions := st.decisions[id :=
        d.(events := d.events + [ExtendEvent(env, id, closesAt, actor, now)])]), Done)
  }

  /** One decision under reconcileExpiredDecisions. */
  function Reconciled(env: Env, id: string, d: Decision, now: int): Decision {
    if d.state == Open && Expired(d, now)
    then d.(events := d.events + [TransitionEvent(env, id, Open, Closed, "system:reconcile", now)], state := Closed)
    else d
  }

  function Reconcile(env: Env, st: Store, now: int): Store {
    st.(decisions := map id | id in st.decisions :: Reconciled(env, id, st.decisions[id], now))
  }

  // ---- casting ---------------------------------------------------------------------------------------------

  /**
   * A request to cast; `eligible` is the outcome of the open-mode eligibility gate, `payload` None when it
   * has no known shape.
   */
  datatype CastRequest = CastRequest(decisionId: string, payload: Option<Payload>, idempotencyKey: string,
                                     serial: string, credentialSig: string, eligible: bool)

  datatype CastReply =
    | NoSuchDecision | DecisionClosed | DecisionFull | Ineligible | SerialUsed
    | InvalidBallot | BudgetExceeded | KeyRequired
    | Accepted(receipt: Receipt) | Replayed(receipt: Receipt) | IdempotencyConflict
    | HeadRefused | ReceiptClash

  /** The checks made before anything else, on the tables as they are: state, cap, time. */
  function Admission(st: Store, req: CastRequest, now: int): Option<CastReply> {
    if req.decisionId !in st.decisions then Some(NoSuchDecision)
    else
      var d := st.decisions[req.decisionId];
      if d.state != Open then Some(DecisionClosed)
      else if d.config.maxParticipants.Some? && |d.ballots| >= d.config.maxParticipants.value then Some(DecisionFull)
      else if Expired(d, now) then Some(DecisionClosed)
      else if d.config.ballotMode == SecretBallots
              && (req.serial == "" || req.credentialSig == "" || d.config.issuer.None?) then Some(Ineligible)
      else None
  }

  /** ballotPayloadSchema with the option count. */
  predicate SchemaOk(scheme: Method, n: int, p: Payload) {
    match p
    case Abstain => true
    case Single(c) => scheme == SingleChoice && 0 <= c < n
    case Approval(cs) => scheme == ApprovalVote && forall i | 0 <= i < |cs| :: 0 <= cs[i] < n
    case Ranked(r) => scheme == RankedVote && forall i | 0 <= i < |r| :: 0 <= r[i] < n
    case Quadratic(vs) => scheme == QuadraticVote && |vs| == n && forall i | 0 <= i < |vs| :: vs[i] >= 0
    case Survey(cs) => scheme == SurveyVote && forall i | 0 <= i < |cs| :: 0 <= cs[i] < n
  }

  function ReceiptFor(env: Env, id: string, position: int, ballotHash: string, runningRoot: string): Receipt {
    Receipt(ballotHash, id, position, runningRoot, env.sign(CanonText(ReceiptJson(ballotHash, position, runningRoot))))
  }

  /** What a duplicate (decision, idempotency key) is answered: the stored receipt, if the payload is the same. */
  function AnswerDuplicate(receipts: map<string, Receipt>, stored: BallotRow, payload: Payload): CastReply {
    if stored.ballotHash in receipts && Encode(PayloadJson(stored.payload)) == Encode(PayloadJson(payload))
    then Replayed(receipts[stored.ballotHash]) else IdempotencyConflict
  }

  /** The cast transaction: all of it, or nothing. */
  function Commit(env: Env, st: Store, id: string, payload: Payload, key: string, serial: Option<string>)
    : (Store, CastReply)
    requires id in st.decisions
  {
    var d := st.decisions[id];
    if serial.Some? && SerialExists(d.ballots, serial.value) then (st, SerialUsed)
    else
      var logSeq := |d.ballots|;
      var ballotHash := BallotHash(env, id, logSeq, payload, serial);
      var stored := FindKey(d.ballots, key);
      if stored.Some? then (st, AnswerDuplicate(st.receipts, d.ballots[stored.value], payload))
      else
        var row := BallotRow(payload, serial, key, logSeq, if d.head.Some? then d.head.value.head else "", ballotHash);
        var newRoot := RootText(env, Leaves(d.ballots + [row]));
        if !HeadAccepts(d.head, logSeq + 1) then (st, HeadRefused)
        else if ballotHash in st.receipts then (st, ReceiptClash)
        else
          var receipt := ReceiptFor(env, id, logSeq, ballotHash, newRoot);
          (Store(st.decisions[id := d.(ballots := d.ballots + [row], head := Some(Head(newRoot, logSeq + 1)))],
                 st.receipts[ballotHash := receipt]),
           Accepted(receipt))
  }

  /** Everything after admission: the credential, the ballot itself, and the transaction. */
  function AfterAdmission(env: Env, st: Store, req: CastRequest): (Store, CastReply)
    requires req.decisionId in st.decisions
  {
    var d := st.decisions[req.decisionId];
    var secret := d.config.ballotMode == SecretBallots;
    if secret && !(d.config.issuer.Some?
         && env.credentialOk(d.config.issuer.value.publicKeyPem, req.decisionId + "|" + req.serial, req.credentialSig))
    then (st, Ineligible)
    else if secret && SerialExists(d.ballots, req.serial) then (st, SerialUsed)
    else if !secret && !req.eligible then (st, Ineligible)
    else if req.payload.None? || !SchemaOk(d.config.scheme, |d.config.options|, req.payload.value)
    then (st, InvalidBallot)
    else if d.config.scheme == QuadraticVote && req.payload.value.Quadratic?
            && TallyTheorems.CreditsSpent(req.payload.value.votes) > TallyTheorems.QUADRATIC_CREDITS
    then (st, BudgetExceeded)
    else if req.idempotencyKey == "" then (st, KeyRequired)
    else
      Commit(env, st, req.decisionId, req.payload.value, req.idempotencyKey, if secret then Some(req.serial) else None)
  }

  /** POST /ballots without a pause: always so in open mode. */
  function Cast(env: Env, st: Store, req: CastRequest, now: int): (Store, CastReply) {
    var refusal := Admission(st, req, now);
    if refusal.Some? then (st, refusal.value) else AfterAdmission(env, st, req)
  }

  // ---- runs -----------------------------------------------------------------------------------------------------

  /** The tables and the secret-mode casts that wait for their credential check. */
  datatype System = System(store: Store, waiting: seq<CastRequest>)

  datatype Step =
    | DoCreate(id: string, config: Config)
    | DoTransition(id: string, to: LifecycleState, actor: string, now: int)
    | DoPublish(id: string, actor: string, now: int)
    | DoExtend(id: string, closesAt: int, actor: string, now: int)
    | DoReconcile(now: int)
    | DoCast(req: CastRequest, now: int)
    | Begin(req: CastRequest, now: int)
    | Resume(k: nat)

  /** transitionHandler serves these three targets only. */
  predicate Served(to: LifecycleState) { to in {Open, Closed, Cancelled} }

  function Apply(env: Env, sys: System, step: Step): System {
    match step
    case DoCreate(id, c) => sys.(store := CreateDecision(env, sys.store, id, c).0)
    case DoTransition(id, to, actor, now) =>
      if Served(to) then sys.(store := Transition(env, sys.store, id, to, actor, now).0) else sys
    case DoPublish(id, actor, now) => sys.(store := Publish(env, sys.store, id, actor, now).0)
    case DoExtend(id, closesAt, actor, now) => sys.(store := Extend(env, sys.store, id, closesAt, actor, now).0)
    case DoReconcile(now) => sys.(store := Reconcile(env, sys.store, now))
    case DoCast(req, now) => sys.(store := Cast(env, sys.store, req, now).0)
    case Begin(req, now) =>
      if Admission(sys.store, req, now).None? && sys.store.decisions[req.decisionId].config.ballotMode == SecretBallots
      then sys.(waiting := sys.waiting + [req]) else sys
    case Resume(k) =>
      if k < |sys.waiting| && sys.waiting[k].decisionId in sys.store.decisions
      then System(AfterAdmission(env, sys.store, sys.waiting[k]).0, sys.waiting[..k] + sys.waiting[k + 1..])
      else sys
  }

  const EMPTY := System(Store(map[], map[]), [])

  function Run(env: Env, steps: seq<Step>): System {
    if steps == [] then EMPTY else Apply(env, Run(env, steps[..|steps| - 1]), steps[|steps| - 1])
  }

  /** No cast pauses: every cast is one step. */
  predicate Atomic(steps: seq<Step>) { forall i | 0 <= i < |steps| :: !steps[i].Begin? && !steps[i].Resume? }
}
