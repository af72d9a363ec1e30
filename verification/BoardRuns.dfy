/** The invariant over whole runs: every step from every reachable state, in every interleaving. */
module BoardRuns {
  import opened Basics
  import opened Tallies
  import opened Wire
  import opened Board
  import opened BoardSafety
  import TallyTheorems

  lemma ReplaceKeeps(env: Env, st: Store, id: string, d': Decision)
    requires StoreOk(env, st) && DecisionOk(env, id, d', st.receipts)
    requires id in st.decisions ==> DecisionExtends(st.decisions[id], d')
    ensures var st' := st.(decisions := st.decisions[id := d']); StoreOk(env, st') && Extends(st, st')
  {
    hide DecisionOk;
  }

  lemma OpeningsAppend(events: seq<Event>, e: Event)
    ensures Openings(events + [e]) == Openings(events) + if e.transition == "open" then 1 else 0
  {
    assert (events + [e])[..|events|] == events;
  }

  lemma StateNamesDiffer(s: LifecycleState)
    ensures StateName(s) == "open" <==> s == Open
    ensures "extend" != "open"
  {
  }

  function NewDecision(env: Env, c: Config): Decision {
    Decision(c, SetupCommitment(env, SetupOf(env, c)),
             if c.ballotMode == SecretBallots then Registration else Draft, [], None, [], [])
  }

  lemma CreateCases(env: Env, st: Store, id: string, c: Config)
    ensures var (st', reply) := CreateDecision(env, st, id, c);
      if reply == Done then ValidConfig(c) && id !in st.decisions
        && st' == st.(decisions := st.decisions[id := NewDecision(env, c)])
      else st' == st
  {
    hide SetupCommitment, SetupOf, ValidConfig;
  }

  lemma NewDecisionOk(env: Env, id: string, c: Config, receipts: map<string, Receipt>)
    requires ValidConfig(c)
    ensures DecisionOk(env, id, NewDecision(env, c), receipts)
  {
    hide SetupCommitment, SetupOf, ValidConfig;
  }

  lemma CreateKeeps(env: Env, st: Store, id: string, c: Config)
    requires StoreOk(env, st)
    ensures var st' := CreateDecision(env, st, id, c).0; StoreOk(env, st') && Extends(st, st')
  {
    hide *;
    CreateCases(env, st, id, c);
    ExtendsItself(st);
    if ValidConfig(c) && id !in st.decisions {
      NewDecisionOk(env, id, c, st.receipts);
      ReplaceKeeps(env, st, id, NewDecision(env, c));
    }
  }

  lemma NoLeaves()
    ensures Leaves([]) == []
  {
  }

  /** A decision that moves from one state to another, its log untouched. */
  lemma MoveKeeps(env: Env, id: string, d: Decision, receipts: map<string, Receipt>, to: LifecycleState, e: Event)
    requires DecisionOk(env, id, d, receipts) && CanTransition(d.state, to) && to != Published && to != Challenge
    requires e.transition == StateName(to)
    ensures var moved := d.(events := d.events + [e], state := to);
      var placed := if to == Open then moved.(head := Some(Head(RootText(env, []), 0))) else moved;
      DecisionOk(env, id, placed, receipts) && DecisionExtends(d, placed)
  {
    hide SetupCommitment, SetupOf, ValidConfig, LogOk, CheckpointOk, RootText, Openings, Leaves, StateName;
    OpeningsAppend(d.events, e);
    StateNamesDiffer(to);
    NoLeaves();
  }

  function Moved(env: Env, id: string, d: Decision, to: LifecycleState, actor: string, now: int): Decision {
    var moved := d.(events := d.events + [TransitionEvent(env, id, d.state, to, actor, now)], state := to);
    if to == Open then moved.(head := Some(Head(RootText(env, []), 0))) else moved
  }

  /** In a decision in order, the first opening finds no head, and nothing else opens. */
  lemma FirstOpening(env: Env, id: string, d: Decision, receipts: map<string, Receipt>)
    requires DecisionOk(env, id, d, receipts)
    ensures CanTransition(d.state, Open) ==> d.state in {Draft, Registration} && HeadAccepts(d.head, 0)
  {
  }

  lemma TransitionCases(env: Env, st: Store, id: string, to: LifecycleState, actor: string, now: int)
    requires id in st.decisions && CanTransition(st.decisions[id].state, Open) ==>
               st.decisions[id].state in {Draft, Registration} && HeadAccepts(st.decisions[id].head, 0)
    ensures var (st', reply) := Transition(env, st, id, to, actor, now);
      && reply != ServerError
      && if reply == Done
         then id in st.decisions && CanTransition(st.decisions[id].state, to)
              && st' == st.(decisions := st.decisions[id := Moved(env, id, st.decisions[id], to, actor, now)])
         else st' == st
  {
    hide TransitionEvent, RootText;
  }

  lemma TransitionKeeps(env: Env, st: Store, id: string, to: LifecycleState, actor: string, now: int)
    requires StoreOk(env, st) && Served(to)
    ensures var (st', reply) := Transition(env, st, id, to, actor, now);
      StoreOk(env, st') && Extends(st, st') && reply != ServerError
  {
    hide *;
    ExtendsItself(st);
    if id in st.decisions {
      var d := st.decisions[id];
      StoreAt(env, st, id);
      FirstOpening(env, id, d, st.receipts);
      if CanTransition(d.state, to) {
        MovedKeeps(env, id, d, st.receipts, to, actor, now);
        ReplaceKeeps(env, st, id, Moved(env, id, d, to, actor, now));
      }
    }
    TransitionCases(env, st, id, to, actor, now);
  }

  lemma MovedKeeps(env: Env, id: string, d: Decision, receipts: map<string, Receipt>, to: LifecycleState,
      actor: string, now: int)
    requires DecisionOk(env, id, d, receipts) && CanTransition(d.state, to) && Served(to)
    ensures DecisionOk(env, id, Moved(env, id, d, to, actor, now), receipts)
    ensures DecisionExtends(d, Moved(env, id, d, to, actor, now))
  {
    var e := TransitionEvent(env, id, d.state, to, actor, now);
    assert e.transition == StateName(to);
    hide TransitionEvent, RootText, DecisionOk, DecisionExtends, CanTransition;
    MoveKeeps(env, id, d, receipts, to, e);
  }

  lemma PublishKeepsDecision(env: Env, id: string, d: Decision, receipts: map<string, Receipt>, e: Event,
      cp: Checkpoint)
    requires DecisionOk(env, id, d, receipts) && CanTransition(d.state, Published) && e.transition == "published"
    requires cp == BuildCheckpoint(env, id, Leaves(d.ballots), None)
    ensures d.checkpoints == []
    ensures var d' := d.(events := d.events + [e], state := Published, checkpoints := d.checkpoints + [cp]);
      DecisionOk(env, id, d', receipts) && DecisionExtends(d, d')
  {
    hide SetupCommitment, SetupOf, ValidConfig, LogOk, RootText;
    OpeningsAppend(d.events, e);
    assert Leaves(d.ballots)[..|d.ballots|] == Leaves(d.ballots);
  }

  lemma PublishCases(env: Env, st: Store, id: string, actor: string, now: int)
    ensures var (st', reply) := Publish(env, st, id, actor, now);
      if reply == Done
      then id in st.decisions && CanTransition(st.decisions[id].state, Published)
           && var d := st.decisions[id];
              var latest := LatestCheckpoint(d.checkpoints);
              var prev := if latest.Some? then Some(latest.value.root) else None;
              var cp := BuildCheckpoint(env, id, Leaves(d.ballots), prev);
              st' == st.(decisions := st.decisions[id :=
                d.(events := d.events + [TransitionEvent(env, id, d.state, Published, actor, now)],
                   state := Published, checkpoints := d.checkpoints + [cp])])
      else st' == st
  {
    hide TransitionEvent, BuildCheckpoint, Leaves, LatestCheckpoint;
  }

  lemma PublishKeeps(env: Env, st: Store, id: string, actor: string, now: int)
    requires StoreOk(env, st)
    ensures var st' := Publish(env, st, id, actor, now).0; StoreOk(env, st') && Extends(st, st')
  {
    hide *;
    ExtendsItself(st);
    if id in st.decisions { StoreAt(env, st, id); }
    PublishCases(env, st, id, actor, now);
    if id in st.decisions && CanTransition(st.decisions[id].state, Published) {
      var d := st.decisions[id];
      var e, cp := TransitionEvent(env, id, d.state, Published, actor, now),
        BuildCheckpoint(env, id, Leaves(d.ballots), None);
      PublishedName(env, id, d.state, actor, now);
      PublishKeepsDecision(env, id, d, st.receipts, e, cp);
      ReplaceKeeps(env, st, id, d.(events := d.events + [e], state := Published, checkpoints := d.checkpoints + [cp]));
    }
  }

  lemma PublishedName(env: Env, id: string, from: LifecycleState, actor: string, now: int)
    ensures TransitionEvent(env, id, from, Published, actor, now).transition == "published"
  {
  }

  lemma ExtendCases(env: Env, st: Store, id: string, closesAt: int, actor: string, now: int)
    ensures var (st', reply) := Extend(env, st, id, closesAt, actor, now);
      if reply == Done
      then id in st.decisions && st.decisions[id].state == Open
           && st' == st.(decisions := st.decisions[id :=
                st.decisions[id].(events := st.decisions[id].events + [ExtendEvent(env, id, closesAt, actor, now)])])
      else st' == st
    ensures ExtendEvent(env, id, closesAt, actor, now).transition == "extend"
  {
    assert ExtendEvent(env, id, closesAt, actor, now).transition == "extend";
    hide ExtendEvent;
  }

  lemma AmendKeeps(env: Env, id: string, d: Decision, receipts: map<string, Receipt>, e: Event)
    requires DecisionOk(env, id, d, receipts) && e.transition == "extend"
    ensures var d' := d.(events := d.events + [e]); DecisionOk(env, id, d', receipts) && DecisionExtends(d, d')
  {
    hide SetupCommitment, SetupOf, ValidConfig, LogOk, RootText, CheckpointOk, Openings;
    OpeningsAppend(d.events, e);
    StateNamesDiffer(Open);
  }

  lemma ExtendKeeps(env: Env, st: Store, id: string, closesAt: int, actor: string, now: int)
    requires StoreOk(env, st)
    ensures var st' := Extend(env, st, id, closesAt, actor, now).0; StoreOk(env, st') && Extends(st, st')
  {
    hide *;
    ExtendsItself(st);
    var e := ExtendEvent(env, id, closesAt, actor, now);
    ExtendCases(env, st, id, closesAt, actor, now);
    if id in st.decisions {
      StoreAt(env, st, id);
      AmendKeeps(env, id, st.decisions[id], st.receipts, e);
      ReplaceKeeps(env, st, id, st.decisions[id].(events := st.decisions[id].events + [e]));
    }
  }

  lemma ReconciledKeeps(env: Env, id: string, d: Decision, receipts: map<string, Receipt>, now: int)
    requires DecisionOk(env, id, d, receipts)
    ensures var d' := Reconciled(env, id, d, now); DecisionOk(env, id, d', receipts) && DecisionExtends(d, d')
  {
    hide DecisionOk, TransitionEvent, Expired;
    if d.state == Open && Expired(d, now) {
      var e := TransitionEvent(env, id, Open, Closed, "system:reconcile", now);
      ClosedName(env, id, now);
      MoveKeeps(env, id, d, receipts, Closed, e);
    }
  }

  lemma ClosedName(env: Env, id: string, now: int)
    ensures TransitionEvent(env, id, Open, Closed, "system:reconcile", now).transition == StateName(Closed)
  {
  }

  lemma ReconcileKeeps(env: Env, st: Store, now: int)
    requires StoreOk(env, st)
    ensures var st' := Reconcile(env, st, now); StoreOk(env, st') && Extends(st, st')
  {
    hide DecisionOk, Reconciled, DecisionExtends;
    forall id | id in st.decisions
      ensures DecisionOk(env, id, Reconciled(env, id, st.decisions[id], now), st.receipts)
      ensures DecisionExtends(st.decisions[id], Reconciled(env, id, st.decisions[id], now))
    {
      ReconciledKeeps(env, id, st.decisions[id], st.receipts, now);
    }
  }

  /** The serial that a ballot of this decision carries. */
  function SerialOf(d: Decision, req: CastRequest): Option<string> {
    if d.config.ballotMode == SecretBallots then Some(req.serial) else None
  }

  /** After admission there is either no change, or the transaction. */
  lemma AfterAdmissionCases(env: Env, st: Store, req: CastRequest)
    requires req.decisionId in st.decisions
    ensures var (st', reply) := AfterAdmission(env, st, req);
      || (st' == st && !reply.Accepted? && !reply.HeadRefused?)
      || (req.payload.Some? && (st', reply) ==
            Commit(env, st, req.decisionId, req.payload.value, req.idempotencyKey,
              SerialOf(st.decisions[req.decisionId], req)))
  {
    hide Commit, SerialExists, SchemaOk, TallyTheorems.CreditsSpent;
  }

  /** From a state in which the decision has been opened, whatever comes after admission keeps the tables in order. */
  lemma AfterAdmissionKeeps(env: Env, st: Store, req: CastRequest)
    requires StoreOk(env, st) && req.decisionId in st.decisions && st.decisions[req.decisionId].head.Some?
    ensures var (st', reply) := AfterAdmission(env, st, req);
      && StoreOk(env, st') && Extends(st, st') && !reply.HeadRefused?
      && (!reply.Accepted? ==> st' == st)
      && (reply.Accepted? ==>
            && req.payload.Some?
            && OneBallotMore(st, st', req.decisionId, req.payload.value, req.idempotencyKey,
                             SerialOf(st.decisions[req.decisionId], req), reply.receipt))
  {
    hide *;
    var d := st.decisions[req.decisionId];
    ExtendsItself(st);
    AfterAdmissionCases(env, st, req);
    if req.payload.Some? {
      CommitKeeps(env, st, req.decisionId, req.payload.value, req.idempotencyKey, SerialOf(d, req));
    }
  }

  lemma AdmittedIsOpen(env: Env, st: Store, req: CastRequest, now: int)
    requires StoreOk(env, st) && Admission(st, req, now).None?
    ensures req.decisionId in st.decisions
    ensures var d := st.decisions[req.decisionId]; d.state == Open && d.head.Some? && !Expired(d, now)
    ensures var d := st.decisions[req.decisionId];
      d.config.maxParticipants.Some? ==> |d.ballots| < d.config.maxParticipants.value
  {
    assert DecisionOk(env, req.decisionId, st.decisions[req.decisionId], st.receipts);
  }

  lemma CastKeeps(env: Env, st: Store, req: CastRequest, now: int)
    requires StoreOk(env, st)
    ensures var (st', reply) := Cast(env, st, req, now);
      StoreOk(env, st') && Extends(st, st') && reply != HeadRefused
  {
    hide StoreOk, Extends, Admission, AfterAdmission;
    ExtendsItself(st);
    if Admission(st, req, now).None? {
      AdmittedIsOpen(env, st, req, now);
      AfterAdmissionKeeps(env, st, req);
    }
    NoAdmissionHeadRefusal(st, req, now);
  }

  lemma NoAdmissionHeadRefusal(st: Store, req: CastRequest, now: int)
    ensures Admission(st, req, now) != Some(HeadRefused)
  {
  }

  lemma StoreStepKeeps(env: Env, sys: System, step: Step)
    requires SystemOk(env, sys)
    ensures var sys' := Apply(env, sys, step); StoreOk(env, sys'.store) && Extends(sys.store, sys'.store)
  {
    ExtendsItself(sys.store);
    hide StoreOk, Extends, CreateDecision, Transition, Publish, Extend, Reconcile, Cast, AfterAdmission, Admission;
    match step
    case DoCreate(id, c) => CreateKeeps(env, sys.store, id, c);
    case DoTransition(id, to, actor, now) => if Served(to) { TransitionKeeps(env, sys.store, id, to, actor, now); }
    case DoPublish(id, actor, now) => PublishKeeps(env, sys.store, id, actor, now);
    case DoExtend(id, closesAt, actor, now) => ExtendKeeps(env, sys.store, id, closesAt, actor, now);
    case DoReconcile(now) => ReconcileKeeps(env, sys.store, now);
    case DoCast(req, now) => CastKeeps(env, sys.store, req, now);
    case Begin(req, now) =>
    case Resume(k) =>
      if k < |sys.waiting| {
        assert WaitingOk(sys.store, sys.waiting[k]);
        AfterAdmissionKeeps(env, sys.store, sys.waiting[k]);
      }
  }

  // ---- receipts belong to ballots -------------------------------------------------------------

  lemma LeafSurvives(st: Store, st': Store, h: string, id: string, i: int)
    requires Extends(st, st') && IsLeafOf(st, h, id, i)
    ensures IsLeafOf(st', h, id, i)
  {
    assert DecisionExtends(st.decisions[id], st'.decisions[id]);
  }

  lemma OwnedSurvives(st: Store, st': Store)
    requires Extends(st, st') && ReceiptsOwned(st)
    requires forall h | h in st'.receipts && h !in st.receipts :: exists id, i :: IsLeafOf(st', h, id, i)
    ensures ReceiptsOwned(st')
  {
    hide Extends, IsLeafOf;
    forall h | h in st'.receipts ensures exists id, i :: IsLeafOf(st', h, id, i) {
      if h in st.receipts {
        var id, i :| IsLeafOf(st, h, id, i);
        LeafSurvives(st, st', h, id, i);
      }
    }
  }

  lemma OneMoreOwned(st: Store, st': Store, id: string, payload: Payload, key: string, serial: Option<string>,
      receipt: Receipt)
    requires OneBallotMore(st, st', id, payload, key, serial, receipt) && Extends(st, st') && ReceiptsOwned(st)
    ensures ReceiptsOwned(st')
  {
    assert IsLeafOf(st', receipt.ballotHash, id, |st.decisions[id].ballots|);
    assert forall h | h in st'.receipts && h !in st.receipts :: h == receipt.ballotHash;
    hide Extends, OneBallotMore, IsLeafOf;
    OwnedSurvives(st, st');
  }

  lemma AfterAdmissionOwned(env: Env, st: Store, req: CastRequest)
    requires StoreOk(env, st) && req.decisionId in st.decisions && st.decisions[req.decisionId].head.Some?
    requires ReceiptsOwned(st)
    ensures ReceiptsOwned(AfterAdmission(env, st, req).0)
  {
    hide *;
    AfterAdmissionKeeps(env, st, req);
    var (st', reply) := AfterAdmission(env, st, req);
    if reply.Accepted? {
      OneMoreOwned(st, st', req.decisionId, req.payload.value, req.idempotencyKey,
                   SerialOf(st.decisions[req.decisionId], req), reply.receipt);
    }
  }

  /** Casts aside, no step touches the receipts. */
  lemma OtherStepsKeepReceipts(env: Env, sys: System, step: Step)
    requires !step.DoCast? && !step.Resume?
    ensures Apply(env, sys, step).store.receipts == sys.store.receipts
  {
    hide TransitionEvent, RootText, SetupCommitment, SetupOf, ValidConfig, BuildCheckpoint, ExtendEvent, Reconciled,
      Admission;
  }

  lemma CastOwned(env: Env, st: Store, req: CastRequest, now: int)
    requires StoreOk(env, st) && ReceiptsOwned(st)
    ensures ReceiptsOwned(Cast(env, st, req, now).0)
  {
    hide StoreOk, ReceiptsOwned, Admission, AfterAdmission;
    if Admission(st, req, now).None? {
      AdmittedIsOpen(env, st, req, now);
      AfterAdmissionOwned(env, st, req);
    }
  }

  lemma StepOwned(env: Env, sys: System, step: Step)
    requires SystemOk(env, sys)
    ensures ReceiptsOwned(Apply(env, sys, step).store)
  {
    hide StoreOk, ReceiptsOwned, Extends, CreateDecision, Transition, Publish, Extend, Reconcile, Cast,
      AfterAdmission, Admission;
    if step.DoCast? {
      CastOwned(env, sys.store, step.req, step.now);
    } else if step.Resume? {
      if step.k < |sys.waiting| {
        assert WaitingOk(sys.store, sys.waiting[step.k]);
        AfterAdmissionOwned(env, sys.store, sys.waiting[step.k]);
      }
    } else {
      StoreStepKeeps(env, sys, step);
      OtherStepsKeepReceipts(env, sys, step);
      hide Apply;
      OwnedSurvives(sys.store, Apply(env, sys, step).store);
    }
  }

  lemma WaitingSurvives(st: Store, st': Store, req: CastRequest)
    requires WaitingOk(st, req) && Extends(st, st')
    ensures WaitingOk(st', req)
  {
  }

  /** One step, in any interleaving: the invariant stays and the log is only extended. */
  lemma StepKeeps(env: Env, sys: System, step: Step)
    requires SystemOk(env, sys)
    ensures var sys' := Apply(env, sys, step); SystemOk(env, sys') && Extends(sys.store, sys'.store)
  {
    var sys' := Apply(env, sys, step);
    StoreStepKeeps(env, sys, step);
    StepOwned(env, sys, step);
    if step.Begin? && sys'.waiting != sys.waiting { AdmittedIsOpen(env, sys.store, step.req, step.now); }
    WaitingComesFrom(env, sys, step);
    hide StoreOk, ReceiptsOwned, Apply, Extends;
    forall k | 0 <= k < |sys'.waiting| ensures WaitingOk(sys'.store, sys'.waiting[k]) {
      if sys'.waiting[k] in sys.waiting {
        WaitingSurvives(sys.store, sys'.store, sys'.waiting[k]);
      }
    }
  }

  /** Every paused cast was already paused, or has just been admitted. */
  lemma WaitingComesFrom(env: Env, sys: System, step: Step)
    ensures var sys' := Apply(env, sys, step);
      forall k | 0 <= k < |sys'.waiting| ::
        || sys'.waiting[k] in sys.waiting
        || (step.Begin? && sys'.waiting != sys.waiting && sys'.waiting[k] == step.req && sys'.store == sys.store
            && Admission(sys.store, step.req, step.now).None?
            && sys.store.decisions[step.req.decisionId].config.ballotMode == SecretBallots)
  {
  }

  /** Every state that any run reaches satisfies the invariant. */
  lemma {:induction false} ReachableOk(env: Env, steps: seq<Step>)
    ensures SystemOk(env, Run(env, steps))
  {
    if steps != [] {
      hide Apply, SystemOk;
      ReachableOk(env, steps[..|steps| - 1]);
      StepKeeps(env, Run(env, steps[..|steps| - 1]), steps[|steps| - 1]);
    }
  }

  lemma RunStep(env: Env, steps: seq<Step>, step: Step)
    ensures Run(env, steps + [step]) == Apply(env, Run(env, steps), step)
  {
    hide Apply;
    assert (steps + [step])[..|steps + [step]| - 1] == steps;
  }

  /** A run, one step further along a list of steps. */
  lemma RunTo(env: Env, steps: seq<Step>, k: nat)
    requires k < |steps|
    ensures Run(env, steps[..k + 1]) == Apply(env, Run(env, steps[..k]), steps[k])
    ensures Run(env, steps[..0]) == EMPTY
  {
    hide Apply;
    RunStep(env, steps[..k], steps[k]);
    assert steps[..k + 1] == steps[..k] + [steps[k]];
  }

  lemma ExtendsTransitive(a: Store, b: Store, c: Store)
    requires Extends(a, b) && Extends(b, c)
    ensures Extends(a, c)
  {
  }

  /** Whatever happens after a point, the logs, receipts and checkpoints of that point stay as prefixes. */
  lemma {:induction false} RunsOnlyExtend(env: Env, before: seq<Step>, after: seq<Step>)
    ensures Extends(Run(env, before).store, Run(env, before + after).store)
  {
    if after == [] {
      assert before + after == before;
      ExtendsItself(Run(env, before).store);
    } else {
      var init := after[..|after| - 1];
      RunStep(env, before + init, after[|after| - 1]);
      assert before + after == before + init + [after[|after| - 1]];
      hide *;
      RunsOnlyExtend(env, before, init);
      ReachableOk(env, before + init);
      StepKeeps(env, Run(env, before + init), after[|after| - 1]);
      ExtendsTransitive(Run(env, before).store, Run(env, before + init).store, Run(env, before + after).store);
    }
  }

  lemma ServedOpen()
    ensures Served(Open)
  {
  }

  lemma SystemAt(env: Env, sys: System, k: nat)
    requires SystemOk(env, sys)
    ensures StoreOk(env, sys.store)
    ensures k < |sys.waiting| ==> sys.waiting[k].decisionId in sys.store.decisions
                                  && sys.store.decisions[sys.waiting[k].decisionId].head.Some?
  {
    if k < |sys.waiting| { assert WaitingOk(sys.store, sys.waiting[k]); }
  }

  /** In no reachable state does a cast or an opening meet the refusal of head.set. */
  lemma HeadRefusalUnreachable(env: Env, steps: seq<Step>, req: CastRequest, now: int, k: nat, id: string,
      actor: string)
    ensures var sys := Run(env, steps);
      && Cast(env, sys.store, req, now).1 != HeadRefused
      && (k < |sys.waiting| ==> sys.waiting[k].decisionId in sys.store.decisions
                                && AfterAdmission(env, sys.store, sys.waiting[k]).1 != HeadRefused)
      && Transition(env, sys.store, id, Open, actor, now).1 != ServerError
  {
    hide *;
    var sys := Run(env, steps);
    ReachableOk(env, steps);
    SystemAt(env, sys, k);
    ServedOpen();
    CastKeeps(env, sys.store, req, now);
    if k < |sys.waiting| {
      AfterAdmissionKeeps(env, sys.store, sys.waiting[k]);
    }
    TransitionKeeps(env, sys.store, id, Open, actor, now);
  }
}
