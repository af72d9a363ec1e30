/** When each request of a convener succeeds and when each cast is turned away, in every reachable state. */
module BoardMoves {
  import opened Basics
  import opened Tallies
  import opened Verdicts
  import opened Wire
  import opened Board
  import opened BoardSafety
  import opened BoardRuns

  // ---- creation ----------------------------------------------------------------------------

  /** A percent that the schema takes, and for a supermajority more than 0. */
  predicate PercentInRange(t: Threshold) {
    match t
    case Supermajority(p) => 0.0 < PercentDouble(p) <= 100.0
    case Plurality(p) => p.Some? ==> 0.0 <= PercentDouble(p.value) <= 100.0
    case Majority(p) => p.Some? ==> 0.0 <= PercentDouble(p.value) <= 100.0
  }

  /**
   * At least two options, a positive cap if any, no negative quorum, a percent in range, no seed,
   * and an issuer key exactly in secret mode.
   */
  predicate Acceptable(c: Config) {
    && |c.options| >= 2 && PercentInRange(c.rule.threshold) && c.rule.seed.None?
    && (c.maxParticipants.Some? ==> c.maxParticipants.value > 0)
    && (c.rule.quorum.Some? ==> c.rule.quorum.value >= 0)
    && (c.issuer.Some? <==> c.ballotMode == SecretBallots)
  }

  /**
   * A decision is created exactly when its id is new and its configuration acceptable. It starts as
   * a draft in open mode and in registration in secret mode.
   */
  lemma CreatedIff(env: Env, st: Store, id: string, c: Config)
    ensures var (st', reply) := CreateDecision(env, st, id, c);
      && (reply == Done <==> id !in st.decisions && Acceptable(c))
      && (reply != Done ==> st' == st)
      && (reply == Done ==>
            && id in st'.decisions && st'.receipts == st.receipts && st'.decisions.Keys == st.decisions.Keys + {id}
            && (forall x | x in st.decisions :: st'.decisions[x] == st.decisions[x])
            && var d := st'.decisions[id];
               && d.config == c && d.ballots == [] && d.events == [] && d.checkpoints == [] && d.head.None?
               && d.state == (if c.ballotMode == SecretBallots then Registration else Draft))
  {
    hide SetupCommitment, SetupOf, PercentDouble;
  }

  // ---- moves -------------------------------------------------------------------------------

  /** Only decision `id` changed, and it went to state `to`. */
  ghost predicate MovedTo(st: Store, st': Store, id: string, to: LifecycleState) {
    && id in st.decisions && id in st'.decisions && st'.decisions[id].state == to
    && st'.decisions[id].ballots == st.decisions[id].ballots
    && st'.receipts == st.receipts && st'.decisions.Keys == st.decisions.Keys
    && forall x | x in st.decisions && x != id :: st'.decisions[x] == st.decisions[x]
  }

  /** The states that a move to `to` may start from. */
  predicate MayMove(from: LifecycleState, to: LifecycleState) {
    match to
    case Open => from == Draft || from == Registration
    case Closed => from == Open
    case Published => from == Closed || from == Challenge
    case Cancelled => from != Published && from != Cancelled
    case _ => false
  }

  lemma MayMoveIff(from: LifecycleState, to: LifecycleState)
    requires Served(to) || to == Published
    ensures CanTransition(from, to) <==> MayMove(from, to)
  {
  }

  /** What a request on an existing decision is answered, given whether its own condition holds. */
  ghost predicate Answered(st: Store, id: string, actor: string, allowed: bool, reply: Reply) {
    reply == if id !in st.decisions then NotFound
             else if st.decisions[id].config.convener != actor then Forbidden
             else if allowed then Done else IllegalTransition
  }

  /**
   * Opening, closing and cancelling, in every reachable state: exactly from the states named, for the
   * convener only.
   */
  lemma MovesIff(env: Env, steps: seq<Step>, id: string, to: LifecycleState, actor: string, now: int)
    requires Served(to)
    ensures var st := Run(env, steps).store;
      var (st', reply) := Transition(env, st, id, to, actor, now);
      && Answered(st, id, actor, id in st.decisions && MayMove(st.decisions[id].state, to), reply)
      && (if reply == Done then MovedTo(st, st', id, to) else st' == st)
      && (reply == Done && to == Open ==> st'.decisions[id].head == Some(Head(RootText(env, []), 0)))
  {
    hide *;
    var st := Run(env, steps).store;
    ReachableOk(env, steps);
    SystemAt(env, Run(env, steps), 0);
    if id in st.decisions {
      StoreAt(env, st, id);
      FirstOpening(env, id, st.decisions[id], st.receipts);
      MayMoveIff(st.decisions[id].state, to);
      if CanTransition(st.decisions[id].state, to) { MovedFacts(env, st, id, to, actor, now); }
    }
    TransitionAnswer(env, st, id, to, actor, now);
    TransitionCases(env, st, id, to, actor, now);
  }

  lemma MovedFacts(env: Env, st: Store, id: string, to: LifecycleState, actor: string, now: int)
    requires id in st.decisions
    ensures var d' := Moved(env, id, st.decisions[id], to, actor, now);
      && MovedTo(st, st.(decisions := st.decisions[id := d']), id, to)
      && (to == Open ==> d'.head == Some(Head(RootText(env, []), 0)))
  {
    hide TransitionEvent, RootText;
  }

  lemma TransitionAnswer(env: Env, st: Store, id: string, to: LifecycleState, actor: string, now: int)
    requires id in st.decisions && CanTransition(st.decisions[id].state, Open) ==>
               st.decisions[id].state in {Draft, Registration} && HeadAccepts(st.decisions[id].head, 0)
    ensures Answered(st, id, actor, id in st.decisions && CanTransition(st.decisions[id].state, to),
                     Transition(env, st, id, to, actor, now).1)
  {
    hide TransitionEvent, RootText;
  }

  /** Publishing, exactly from a closed or challenged decision. */
  lemma PublishesIff(env: Env, st: Store, id: string, actor: string, now: int)
    ensures var (st', reply) := Publish(env, st, id, actor, now);
      && Answered(st, id, actor, id in st.decisions && MayMove(st.decisions[id].state, Published), reply)
      && (if reply == Done then MovedTo(st, st', id, Published) else st' == st)
      && (reply == Done ==>
            var d, d' := st.decisions[id], st'.decisions[id];
            && |d'.checkpoints| == |d.checkpoints| + 1 && d'.head == d.head
            && d'.checkpoints[|d.checkpoints|].treeSize == |d.ballots|)
  {
    if id in st.decisions { MayMoveIff(st.decisions[id].state, Published); }
    hide TransitionEvent, RootText, CanTransition, MayMove, SignRoot, Leaves, LatestCheckpoint;
  }

  /** Extending, exactly while open. */
  lemma ExtendsIff(env: Env, st: Store, id: string, closesAt: int, actor: string, now: int)
    ensures var (st', reply) := Extend(env, st, id, closesAt, actor, now);
      && Answered(st, id, actor, id in st.decisions && st.decisions[id].state == Open, reply)
      && (if reply == Done then MovedTo(st, st', id, Open) else st' == st)
      && (reply == Done ==>
            st'.decisions[id].events == st.decisions[id].events + [ExtendEvent(env, id, closesAt, actor, now)])
  {
    hide ExtendEvent;
  }

  /**
   * Reconciling closes every open decision past its effective close, leaves the others alone, and is done
   * after once.
   */
  lemma ReconcileCloses(env: Env, st: Store, now: int)
    ensures var st' := Reconcile(env, st, now);
      && st'.receipts == st.receipts && st'.decisions.Keys == st.decisions.Keys
      && (forall id | id in st.decisions ::
            var d, close := st.decisions[id], EffectiveClose(st.decisions[id].events, st.decisions[id].config.schedule);
            if d.state == Open && close.Some? && close.value < now
            then st'.decisions[id].state == Closed && st'.decisions[id].ballots == d.ballots
              && st'.decisions[id].head == d.head
            else st'.decisions[id] == d)
      && Reconcile(env, st', now) == st'
  {
    hide TransitionEvent, EffectiveClose;
    var st' := Reconcile(env, st, now);
    forall id | id in st.decisions ensures Reconciled(env, id, st'.decisions[id], now) == st'.decisions[id] {
    }
    assert Reconcile(env, st', now).decisions == st'.decisions;
  }

  // ---- time --------------------------------------------------------------------------------

  /** The effective close is that of the amendment in force, and the scheduled one where there is none. */
  lemma CloseInForce(events: seq<Event>, schedule: Schedule)
    ensures forall i | InForceAt(events, i) :: EffectiveClose(events, schedule) == events[i].closesAt
    ensures (forall i | 0 <= i < |events| :: !IsExtend(events[i]))
        ==> EffectiveClose(events, schedule) == schedule.closesAt
  {
    LatestExtendIsInForce(events);
    hide LatestExtend, IsExtend;
    if LatestExtend(events).Some? {
      var j :| InForceAt(events, j) && events[j] == LatestExtend(events).value;
      assert forall i | InForceAt(events, i) :: i == j;
    }
  }

  /** After an extension later than every one before it, the effective close is its time. */
  lemma ExtensionTakesEffect(env: Env, st: Store, id: string, closesAt: int, actor: string, now: int)
    requires Extend(env, st, id, closesAt, actor, now).1 == Done
    requires forall i | id in st.decisions && 0 <= i < |st.decisions[id].events| ::
      IsExtend(st.decisions[id].events[i]) ==> st.decisions[id].events[i].ts < now
    ensures var st' := Extend(env, st, id, closesAt, actor, now).0;
      && id in st'.decisions
      && EffectiveClose(st'.decisions[id].events, st'.decisions[id].config.schedule) == Some(closesAt)
  {
    ExtendsIff(env, st, id, closesAt, actor, now);
    var events := st.decisions[id].events;
    var e := ExtendEvent(env, id, closesAt, actor, now);
    LatestExtendIsInForce(events);
    assert (events + [e])[..|events|] == events;
  }

  /**
   * Without a pause, a cast is refused as closed exactly when the decision is not open, or has room
   * and is past its effective close; as full exactly when it is open and at its cap.
   */
  lemma TurnedAwayIff(env: Env, st: Store, req: CastRequest, now: int)
    ensures var reply := Cast(env, st, req, now).1;
      && (reply == NoSuchDecision <==> req.decisionId !in st.decisions)
      && (req.decisionId in st.decisions ==>
            var d := st.decisions[req.decisionId];
            var close := EffectiveClose(d.events, d.config.schedule);
            var full := d.config.maxParticipants.Some? && |d.ballots| >= d.config.maxParticipants.value;
            && (reply == DecisionClosed <==> d.state != Open || (!full && close.Some? && close.value < now))
            && (reply == DecisionFull <==> d.state == Open && full))
  {
    hide AfterAdmission, EffectiveClose;
    if req.decisionId in st.decisions { LaterReplies(env, st, req); }
  }

  /**
   * A cast is admitted exactly while the decision is open, has room and is not past its effective
   * close, and in secret mode only with a serial, a credential and an issuer.
   */
  lemma AdmittedIff(st: Store, req: CastRequest, now: int)
    ensures Admission(st, req, now).None? <==>
      && req.decisionId in st.decisions
      && var d := st.decisions[req.decisionId];
         var close := EffectiveClose(d.events, d.config.schedule);
         && d.state == Open && (d.config.maxParticipants.Some? ==> |d.ballots| < d.config.maxParticipants.value)
         && (close.Some? ==> now <= close.value)
         && (d.config.ballotMode == SecretBallots ==>
               req.serial != "" && req.credentialSig != "" && d.config.issuer.Some?)
  {
    hide EffectiveClose;
  }

  lemma LaterReplies(env: Env, st: Store, req: CastRequest)
    requires req.decisionId in st.decisions
    ensures AfterAdmission(env, st, req).1 !in {NoSuchDecision, DecisionClosed, DecisionFull}
  {
    hide RootText, BallotHash, ReceiptFor, FindKey, Leaves, SerialExists, SchemaOk, HeadAccepts;
    hide Json.Encode, PayloadJson;
  }

  /**
   * After such an extension, and below the cap, a cast by the new time is not refused as closed, and a later
   * one is.
   */
  lemma CastsAfterExtension(env: Env, st: Store, id: string, closesAt: int, actor: string, now: int,
      req: CastRequest, at: int)
    requires Extend(env, st, id, closesAt, actor, now).1 == Done && req.decisionId == id
    requires forall i | id in st.decisions && 0 <= i < |st.decisions[id].events| ::
      IsExtend(st.decisions[id].events[i]) ==> st.decisions[id].events[i].ts < now
    requires id in st.decisions ==> var d := st.decisions[id];
      d.config.maxParticipants.Some? ==> |d.ballots| < d.config.maxParticipants.value
    ensures Cast(env, Extend(env, st, id, closesAt, actor, now).0, req, at).1 == DecisionClosed <==> closesAt < at
  {
    var st' := Extend(env, st, id, closesAt, actor, now).0;
    ExtensionTakesEffect(env, st, id, closesAt, actor, now);
    ExtendsIff(env, st, id, closesAt, actor, now);
    ExtendKeepsConfig(env, st, id, closesAt, actor, now);
    TurnedAwayIff(env, st', req, at);
    hide Cast, Extend, EffectiveClose, ExtendEvent;
  }

  lemma ExtendKeepsConfig(env: Env, st: Store, id: string, closesAt: int, actor: string, now: int)
    requires id in st.decisions
    ensures var st' := Extend(env, st, id, closesAt, actor, now).0;
      id in st'.decisions && st'.decisions[id].config == st.decisions[id].config
  {
    hide ExtendEvent;
  }

  // ---- ballots that a decision takes -------------------------------------------------------------

  /** The options that a ballot names. */
  function NamedOptions(p: Payload): seq<int> {
    match p
    case Single(c) => [c]
    case Approval(cs) => cs
    case Ranked(r) => r
    case Survey(cs) => cs
    case Quadratic(_) => []
    case Abstain => []
  }

  /**
   * A ballot is valid exactly when it abstains, or is of the decision's own kind, names options in
   * range only, and, if quadratic, has one non-negative number of votes for each option.
   */
  lemma ValidBallotIff(scheme: Method, n: nat, p: Payload)
    ensures SchemaOk(scheme, n, p) <==>
      || p == Abstain
      || (&& KindName(p) == MethodName(scheme)
          && (forall o | o in NamedOptions(p) :: 0 <= o < n)
          && (p.Quadratic? ==> |p.votes| == n && forall v | v in p.votes :: v >= 0))
  {
    KindIsMethodIff(p, scheme);
    InRangeIff(NamedOptions(p), n);
    if p.Quadratic? { NoNegativeIff(p.votes); }
    hide KindName, MethodName;
    match p
    case Single(c) => assert [c][0] == c;
    case _ =>
  }

  lemma InRangeIff(s: seq<int>, n: int)
    ensures (forall o | o in s :: 0 <= o < n) <==> (forall i | 0 <= i < |s| :: 0 <= s[i] < n)
  {
    assert forall i | 0 <= i < |s| :: s[i] in s;
  }

  lemma NoNegativeIff(s: seq<int>)
    ensures (forall v | v in s :: v >= 0) <==> (forall i | 0 <= i < |s| :: s[i] >= 0)
  {
    assert forall i | 0 <= i < |s| :: s[i] in s;
  }

  lemma KindIsMethodIff(p: Payload, scheme: Method)
    ensures KindName(p) == MethodName(scheme) <==>
      || (p.Single? && scheme == SingleChoice) || (p.Approval? && scheme == ApprovalVote)
      || (p.Ranked? && scheme == RankedVote) || (p.Quadratic? && scheme == QuadraticVote)
      || (p.Survey? && scheme == SurveyVote)
  {
    KindLetters(p);
    MethodLetters(scheme);
    if p.Single? && scheme == SingleChoice { assert KindName(p) == "single" == MethodName(scheme); }
    if p.Approval? && scheme == ApprovalVote { assert KindName(p) == "approval" == MethodName(scheme); }
    if p.Ranked? && scheme == RankedVote { assert KindName(p) == "ranked" == MethodName(scheme); }
    if p.Quadratic? && scheme == QuadraticVote { assert KindName(p) == "quadratic" == MethodName(scheme); }
    if p.Survey? && scheme == SurveyVote { assert KindName(p) == "survey" == MethodName(scheme); }
  }

  /** The second letter tells the kinds apart, but for quadratic and survey, which the first does. */
  lemma KindLetters(p: Payload)
    ensures |KindName(p)| >= 2
    ensures KindName(p)[1] ==
      if p.Single? then 'i' else if p.Approval? then 'p' else if p.Ranked? then 'a' else if p.Abstain? then 'b' else 'u'
    ensures KindName(p)[0] == 'q' <==> p.Quadratic?
  {
  }

  lemma MethodLetters(m: Method)
    ensures |MethodName(m)| >= 2
    ensures MethodName(m)[1] ==
      if m == SingleChoice then 'i' else if m == ApprovalVote then 'p' else if m == RankedVote then 'a' else 'u'
    ensures MethodName(m)[0] == 'q' <==> m == QuadraticVote
  {
  }
}
