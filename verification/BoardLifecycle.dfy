/** The event log of a decision: signed, lawful, and enough to rebuild its state. */
module BoardLifecycle {
  import opened Basics
  import opened Wire
  import opened Board
  import opened BoardSafety
  import opened BoardRuns
  import opened BoardMoves
  import opened VerifierTrust
  import HonestServer
  import Json

  // ---- replaying -------------------------------------------------------------------------------

  function InitialState(c: Config): LifecycleState { if c.ballotMode == SecretBallots then Registration else Draft }

  function StateNamed(name: string): Option<LifecycleState> {
    if name == "draft" then Some(Draft) else if name == "registration" then Some(Registration)
    else if name == "open" then Some(Open) else if name == "closed" then Some(Closed)
    else if name == "challenge" then Some(Challenge) else if name == "published" then Some(Published)
    else if name == "cancelled" then Some(Cancelled) else None
  }

  /** The state that the events alone lead to: each names the next, and an extension names none. */
  function Replayed(start: LifecycleState, events: seq<Event>): LifecycleState {
    if events == [] then start
    else
      var named := StateNamed(events[|events| - 1].transition);
      if named.Some? then named.value else Replayed(start, events[..|events| - 1])
  }

  lemma ReplayedOne(start: LifecycleState, events: seq<Event>, e: Event)
    ensures Replayed(start, events + [e])
      == if StateNamed(e.transition).Some? then StateNamed(e.transition).value else Replayed(start, events)
  {
    hide StateNamed;
    assert (events + [e])[..|events|] == events;
  }

  lemma NamesAreRead(s: LifecycleState)
    ensures StateNamed(StateName(s)) == Some(s)
  {
  }

  lemma ExtendNamesNone()
    ensures StateNamed("extend").None?
  {
  }

  // ---- what an event records ---------------------------------------------------------------------

  /** A lawful move by the convener, or the closing by reconciliation, signed as such. */
  ghost predicate RecordsMove(env: Env, id: string, c: Config, from: LifecycleState, e: Event, to: LifecycleState) {
    && MayMove(from, to) && e.transition == StateName(to) && e.closesAt.None?
    && (e.actor == c.convener || (to == Closed && e.actor == "system:reconcile"))
    && e.signedSig == env.sign(StatementText(MoveStatement(id, from, to, e.actor, e.ts)))
  }

  /** An extension of an open decision by its convener, signed as such. */
  ghost predicate RecordsExtension(env: Env, id: string, c: Config, state: LifecycleState, e: Event) {
    && state == Open && e.transition == "extend" && e.closesAt.Some? && e.actor == c.convener
    && e.signedSig == env.sign(StatementText(ExtendStatement(id, e.actor, e.ts, e.closesAt.value)))
  }

  ghost predicate Records(env: Env, id: string, c: Config, from: LifecycleState, e: Event, to: LifecycleState) {
    RecordsMove(env, id, c, from, e, to) || (from == to && RecordsExtension(env, id, c, from, e))
  }

  lemma RecordsLead(env: Env, id: string, d: Decision, e: Event, to: LifecycleState, start: LifecycleState)
    requires Records(env, id, d.config, d.state, e, to) && Replayed(start, d.events) == d.state
    ensures Replayed(start, d.events + [e]) == to
  {
    hide StateNamed, Replayed, MayMove, StatementText;
    ReplayedOne(start, d.events, e);
    NamesAreRead(to);
    ExtendNamesNone();
  }

  /** Event `i` records the step between the states before and after it. */
  ghost predicate EventHolds(env: Env, id: string, c: Config, events: seq<Event>, i: int)
    requires 0 <= i < |events|
  {
    Records(env, id, c, Replayed(InitialState(c), events[..i]), events[i], Replayed(InitialState(c), events[..i + 1]))
  }

  /** The events are lawful and signed, they lead to the state, and no checkpoint names an earlier one. */
  ghost predicate HistoryOk(env: Env, id: string, d: Decision) {
    && Replayed(InitialState(d.config), d.events) == d.state
    && (forall i | 0 <= i < |d.events| :: EventHolds(env, id, d.config, d.events, i))
    && (forall i | 0 <= i < |d.checkpoints| :: d.checkpoints[i].prevRoot.None?)
  }

  // ---- one step ----------------------------------------------------------------------------------

  /** At most one event more, recording the step, and at most one checkpoint more, the first. */
  ghost predicate Lives(env: Env, id: string, d: Decision, d': Decision) {
    && d'.config == d.config
    && (|| (d'.events == d.events && d'.state == d.state)
        || exists e :: d'.events == d.events + [e] && Records(env, id, d.config, d.state, e, d'.state))
    && (forall i | 0 <= i < |d'.checkpoints| ::
          (i < |d.checkpoints| && d'.checkpoints[i] == d.checkpoints[i]) || d'.checkpoints[i].prevRoot.None?)
  }

  lemma EventSurvives(env: Env, id: string, c: Config, events: seq<Event>, e: Event, i: int)
    requires 0 <= i < |events| && EventHolds(env, id, c, events, i)
    ensures EventHolds(env, id, c, events + [e], i)
  {
    hide Records, Replayed;
    assert (events + [e])[..i] == events[..i] && (events + [e])[..i + 1] == events[..i + 1];
  }

  lemma LastHolds(env: Env, id: string, c: Config, events: seq<Event>, e: Event, from: LifecycleState,
      to: LifecycleState)
    requires Records(env, id, c, from, e, to)
    requires Replayed(InitialState(c), events) == from && Replayed(InitialState(c), events + [e]) == to
    ensures EventHolds(env, id, c, events + [e], |events|)
  {
    hide Records, Replayed;
    assert (events + [e])[..|events|] == events && (events + [e])[..|events| + 1] == events + [e];
  }

  lemma LivesKeeps(env: Env, id: string, d: Decision, d': Decision)
    requires HistoryOk(env, id, d) && Lives(env, id, d, d')
    ensures HistoryOk(env, id, d')
  {
    hide Records, Replayed, EventHolds, InitialState;
    if d'.events != d.events || d'.state != d.state {
      var e :| d'.events == d.events + [e] && Records(env, id, d.config, d.state, e, d'.state);
      RecordsLead(env, id, d, e, d'.state, InitialState(d.config));
      LastHolds(env, id, d.config, d.events, e, d.state, d'.state);
      forall i | 0 <= i < |d.events| ensures EventHolds(env, id, d.config, d.events + [e], i) {
        EventSurvives(env, id, d.config, d.events, e, i);
      }
    }
  }

  /** Every decision of `st` lives on in `st'`, and the new ones have no history. */
  ghost predicate AllLive(env: Env, st: Store, st': Store) {
    && (forall id | id in st.decisions :: id in st'.decisions && Lives(env, id, st.decisions[id], st'.decisions[id]))
    && (forall id | id in st'.decisions && id !in st.decisions :: HistoryOk(env, id, st'.decisions[id]))
  }

  lemma OneLives(env: Env, st: Store, st': Store, id: string)
    requires id in st.decisions && id in st'.decisions && Lives(env, id, st.decisions[id], st'.decisions[id])
    requires st'.decisions.Keys == st.decisions.Keys
    requires forall x | x in st.decisions && x != id :: st'.decisions[x] == st.decisions[x]
    ensures AllLive(env, st, st')
  {
    hide Records;
  }

  lemma SameLives(env: Env, st: Store)
    ensures AllLive(env, st, st)
  {
    hide Records;
  }

  lemma MoveIsRecorded(env: Env, id: string, c: Config, from: LifecycleState, to: LifecycleState, actor: string,
      now: int)
    requires CanTransition(from, to) && (Served(to) || to == Published)
    requires actor == c.convener || (to == Closed && actor == "system:reconcile")
    ensures Records(env, id, c, from, TransitionEvent(env, id, from, to, actor, now), to)
  {
    MayMoveIff(from, to);
    hide CanonText, EventJson, MayMove, StateName;
  }

  lemma ExtensionIsRecorded(env: Env, id: string, c: Config, closesAt: int, now: int)
    ensures Records(env, id, c, Open, ExtendEvent(env, id, closesAt, c.convener, now), Open)
  {
    hide CanonText, EventJson, MayMove, StateName;
  }

  lemma CreateLives(env: Env, st: Store, id: string, c: Config)
    ensures AllLive(env, st, CreateDecision(env, st, id, c).0)
  {
    hide Acceptable, CreateDecision, Records;
    SameLives(env, st);
    CreatedIff(env, st, id, c);
  }

  lemma LivesByMove(env: Env, id: string, d: Decision, to: LifecycleState, actor: string, now: int)
    requires CanTransition(d.state, to) && Served(to) && actor == d.config.convener
    ensures Lives(env, id, d, Moved(env, id, d, to, actor, now))
  {
    hide TransitionEvent, Records, RootText, CanTransition;
    MoveIsRecorded(env, id, d.config, d.state, to, actor, now);
    assert Moved(env, id, d, to, actor, now).events == d.events + [TransitionEvent(env, id, d.state, to, actor, now)];
  }

  lemma Replacing(env: Env, st: Store, id: string, d': Decision)
    requires id in st.decisions && Lives(env, id, st.decisions[id], d')
    ensures AllLive(env, st, st.(decisions := st.decisions[id := d']))
  {
    hide Lives;
    OneLives(env, st, st.(decisions := st.decisions[id := d']), id);
  }

  lemma OwnerActs(env: Env, st: Store, id: string, to: LifecycleState, actor: string, now: int)
    ensures Transition(env, st, id, to, actor, now).1 == Done || Publish(env, st, id, actor, now).1 == Done
        || Extend(env, st, id, now, actor, now).1 == Done
      ==> id in st.decisions && st.decisions[id].config.convener == actor
  {
    hide TransitionEvent, RootText, BuildCheckpoint, ExtendEvent, LatestCheckpoint, CanTransition, HeadAccepts, Leaves;
  }

  lemma TransitionLives(env: Env, st: Store, id: string, to: LifecycleState, actor: string, now: int)
    requires StoreOk(env, st) && Served(to)
    ensures AllLive(env, st, Transition(env, st, id, to, actor, now).0)
  {
    hide *;
    SameLives(env, st);
    OwnerActs(env, st, id, to, actor, now);
    if id in st.decisions {
      StoreAt(env, st, id);
      FirstOpening(env, id, st.decisions[id], st.receipts);
    }
    TransitionCases(env, st, id, to, actor, now);
    if Transition(env, st, id, to, actor, now).1 == Done {
      LivesByMove(env, id, st.decisions[id], to, actor, now);
      Replacing(env, st, id, Moved(env, id, st.decisions[id], to, actor, now));
    }
  }

  lemma LivesByPublishing(env: Env, id: string, d: Decision, actor: string, now: int, cp: Checkpoint)
    requires CanTransition(d.state, Published) && actor == d.config.convener && cp.prevRoot.None?
    ensures Lives(env, id, d, d.(events := d.events + [TransitionEvent(env, id, d.state, Published, actor, now)],
                                 state := Published, checkpoints := d.checkpoints + [cp]))
  {
    hide TransitionEvent, Records, CanTransition;
    MoveIsRecorded(env, id, d.config, d.state, Published, actor, now);
  }

  lemma FirstCheckpoint(env: Env, id: string, d: Decision, receipts: map<string, Receipt>)
    requires DecisionOk(env, id, d, receipts) && CanTransition(d.state, Published)
    ensures LatestCheckpoint(d.checkpoints).None?
    ensures BuildCheckpoint(env, id, Leaves(d.ballots), None).prevRoot.None?
  {
    hide SetupCommitment, SetupOf, ValidConfig, LogOk, RootText, SignRoot, Leaves;
  }

  lemma PublishLives(env: Env, st: Store, id: string, actor: string, now: int)
    requires StoreOk(env, st)
    ensures AllLive(env, st, Publish(env, st, id, actor, now).0)
  {
    hide *;
    SameLives(env, st);
    OwnerActs(env, st, id, Published, actor, now);
    PublishCases(env, st, id, actor, now);
    if Publish(env, st, id, actor, now).1 == Done {
      var d := st.decisions[id];
      StoreAt(env, st, id);
      FirstCheckpoint(env, id, d, st.receipts);
      var cp := BuildCheckpoint(env, id, Leaves(d.ballots), None);
      LivesByPublishing(env, id, d, actor, now, cp);
      Replacing(env, st, id, d.(events := d.events + [TransitionEvent(env, id, d.state, Published, actor, now)],
                                state := Published, checkpoints := d.checkpoints + [cp]));
    }
  }

  lemma ExtendLives(env: Env, st: Store, id: string, closesAt: int, actor: string, now: int)
    ensures AllLive(env, st, Extend(env, st, id, closesAt, actor, now).0)
  {
    hide Records, ExtendEvent, AllLive;
    SameLives(env, st);
    ExtendCases(env, st, id, closesAt, actor, now);
    if Extend(env, st, id, closesAt, actor, now).1 == Done {
      var d := st.decisions[id];
      var e := ExtendEvent(env, id, closesAt, actor, now);
      ExtensionIsRecorded(env, id, d.config, closesAt, now);
      assert d.(events := d.events + [e]).events == d.events + [e];
      Replacing(env, st, id, d.(events := d.events + [e]));
    }
  }

  lemma ReconciledLives(env: Env, id: string, d: Decision, now: int)
    ensures Lives(env, id, d, Reconciled(env, id, d, now))
  {
    if d.state == Open && Expired(d, now) {
      MoveIsRecorded(env, id, d.config, Open, Closed, "system:reconcile", now);
      hide TransitionEvent, Records, Expired;
      assert Reconciled(env, id, d, now).events
        == d.events + [TransitionEvent(env, id, Open, Closed, "system:reconcile", now)];
    }
  }

  lemma ReconcileLives(env: Env, st: Store, now: int)
    ensures AllLive(env, st, Reconcile(env, st, now))
  {
    hide Lives, Reconciled;
    forall id | id in st.decisions
      ensures Lives(env, id, st.decisions[id], Reconciled(env, id, st.decisions[id], now))
    {
      ReconciledLives(env, id, st.decisions[id], now);
    }
  }

  lemma AdmittedLives(env: Env, st: Store, req: CastRequest)
    requires StoreOk(env, st) && req.decisionId in st.decisions && st.decisions[req.decisionId].head.Some?
    ensures AllLive(env, st, AfterAdmission(env, st, req).0)
  {
    hide *;
    SameLives(env, st);
    AfterAdmissionKeeps(env, st, req);
    var (st', reply) := AfterAdmission(env, st, req);
    if reply.Accepted? {
      AfterAdmissionKeys(env, st, req);
      BallotLives(env, st, st', req, reply.receipt);
    }
  }

  lemma BallotLives(env: Env, st: Store, st': Store, req: CastRequest, receipt: Receipt)
    requires req.decisionId in st.decisions && req.payload.Some? && st'.decisions.Keys == st.decisions.Keys
    requires OneBallotMore(st, st', req.decisionId, req.payload.value, req.idempotencyKey,
                           SerialOf(st.decisions[req.decisionId], req), receipt)
    ensures AllLive(env, st, st')
  {
    hide Records, AllLive;
    OneLives(env, st, st', req.decisionId);
  }

  lemma AfterAdmissionKeys(env: Env, st: Store, req: CastRequest)
    requires req.decisionId in st.decisions
    ensures AfterAdmission(env, st, req).0.decisions.Keys == st.decisions.Keys
  {
    hide RootText, BallotHash, ReceiptFor, FindKey, Leaves, SerialExists, SchemaOk, HeadAccepts, Json.Encode,
      PayloadJson;
  }

  lemma CastLives(env: Env, st: Store, req: CastRequest, now: int)
    requires StoreOk(env, st)
    ensures AllLive(env, st, Cast(env, st, req, now).0)
  {
    hide StoreOk, AllLive, Admission, AfterAdmission;
    SameLives(env, st);
    if Admission(st, req, now).None? {
      AdmittedIsOpen(env, st, req, now);
      AdmittedLives(env, st, req);
    }
  }

  /** The tables after a step. */
  lemma StoreAfter(env: Env, sys: System, step: Step)
    ensures Apply(env, sys, step).store ==
      match step
      case DoCreate(id, c) => CreateDecision(env, sys.store, id, c).0
      case DoTransition(id, to, actor, now) =>
        if Served(to) then Transition(env, sys.store, id, to, actor, now).0 else sys.store
      case DoPublish(id, actor, now) => Publish(env, sys.store, id, actor, now).0
      case DoExtend(id, closesAt, actor, now) => Extend(env, sys.store, id, closesAt, actor, now).0
      case DoReconcile(now) => Reconcile(env, sys.store, now)
      case DoCast(req, now) => Cast(env, sys.store, req, now).0
      case Begin(_, _) => sys.store
      case Resume(k) =>
        if k < |sys.waiting| && sys.waiting[k].decisionId in sys.store.decisions
        then AfterAdmission(env, sys.store, sys.waiting[k]).0 else sys.store
  {
    hide CreateDecision, Transition, Publish, Extend, Reconcile, Cast, AfterAdmission, Admission;
  }

  lemma StepLives(env: Env, sys: System, step: Step)
    requires SystemOk(env, sys)
    ensures AllLive(env, sys.store, Apply(env, sys, step).store)
  {
    hide *;
    SystemAt(env, sys, if step.Resume? then step.k else 0);
    StoreAfter(env, sys, step);
    SameLives(env, sys.store);
    match step
    case DoCreate(id, c) => CreateLives(env, sys.store, id, c);
    case DoTransition(id, to, actor, now) => if Served(to) { TransitionLives(env, sys.store, id, to, actor, now); }
    case DoPublish(id, actor, now) => PublishLives(env, sys.store, id, actor, now);
    case DoExtend(id, closesAt, actor, now) => ExtendLives(env, sys.store, id, closesAt, actor, now);
    case DoReconcile(now) => ReconcileLives(env, sys.store, now);
    case DoCast(req, now) => CastLives(env, sys.store, req, now);
    case Begin(req, now) =>
    case Resume(k) => if k < |sys.waiting| { AdmittedLives(env, sys.store, sys.waiting[k]); }
  }

  // ---- over runs ---------------------------------------------------------------------------------

  lemma HistoriesStep(env: Env, st: Store, st': Store, id: string)
    requires AllLive(env, st, st') && id in st'.decisions
    requires id in st.decisions ==> HistoryOk(env, id, st.decisions[id])
    ensures HistoryOk(env, id, st'.decisions[id])
  {
    hide HistoryOk, Lives;
    if id in st.decisions { LivesKeeps(env, id, st.decisions[id], st'.decisions[id]); }
  }

  /**
   * In every reachable state, in any interleaving: the events of each decision, read from its
   * initial state, are lawful steps by the convener (or closings by reconciliation), each signed
   * over exactly its step, and together they lead to the stored state.
   */
  lemma {:induction false} EventsTellTheState(env: Env, steps: seq<Step>, id: string)
    requires id in Run(env, steps).store.decisions
    ensures HistoryOk(env, id, Run(env, steps).store.decisions[id])
  {
    hide Apply, HistoryOk, AllLive, SystemOk;
    if steps != [] {
      var init := steps[..|steps| - 1];
      if id in Run(env, init).store.decisions { EventsTellTheState(env, init, id); }
      ReachableOk(env, init);
      StepLives(env, Run(env, init), steps[|steps| - 1]);
      HistoriesStep(env, Run(env, init).store, Run(env, steps).store, id);
    }
  }

  /** The statement that event `i` of the log makes. */
  function Said(id: string, c: Config, events: seq<Event>, i: nat): Statement
    requires i < |events|
  {
    var e := events[i];
    if e.closesAt.Some? then ExtendStatement(id, e.actor, e.ts, e.closesAt.value)
    else MoveStatement(id, Replayed(InitialState(c), events[..i]), Replayed(InitialState(c), events[..i + 1]),
      e.actor, e.ts)
  }

  /** Every event verifies, under the server's key, over the step that the events before it leave room for. */
  lemma EventsVerify(env: Env, steps: seq<Step>, id: string, i: nat)
    requires HonestServer.SignaturesVerify(env) && id in Run(env, steps).store.decisions
    requires i < |Run(env, steps).store.decisions[id].events|
    ensures var d := Run(env, steps).store.decisions[id];
      env.verify(env.publicKey, StatementText(Said(id, d.config, d.events, i)), d.events[i].signedSig)
  {
    hide Run, StatementText, Replayed, MayMove;
    EventsTellTheState(env, steps, id);
    var d := Run(env, steps).store.decisions[id];
    assert EventHolds(env, id, d.config, d.events, i);
  }
}
