/**
 * What holds only while no cast pauses: a closed log stays as it is, the published checkpoint is
 * the head, the cap is kept. And exactly how a paused cast breaks it.
 */
module BoardFreeze {
  import opened Basics
  import opened Tallies
  import opened Board
  import opened BoardSafety
  import opened BoardRuns
  import opened BoardAccept

  predicate AfterVoting(s: LifecycleState) { s in {Closed, Challenge, Published, Cancelled} }

  /** A step that casts nothing: the log stays; once voting is over so does the head. */
  ghost predicate Quiet(d: Decision, d': Decision) {
    && d'.config == d.config && d'.ballots == d.ballots
    && (AfterVoting(d.state) ==> AfterVoting(d'.state) && d'.head == d.head)
    && (d'.state == Published && d.state != Published ==>
          |d'.checkpoints| == |d.checkpoints| + 1 && d'.checkpoints[|d.checkpoints|].treeSize == |d.ballots|)
    && (d'.state != Published || d.state == Published ==> d'.checkpoints == d.checkpoints)
    && (d.state == Published ==> d'.state == Published)
  }

  ghost predicate QuietStore(st: Store, st': Store) {
    && (forall id | id in st.decisions :: id in st'.decisions && Quiet(st.decisions[id], st'.decisions[id]))
    && (forall id | id in st'.decisions && id !in st.decisions ::
          st'.decisions[id].ballots == [] && !AfterVoting(st'.decisions[id].state))
  }

  lemma QuietSame(st: Store)
    ensures QuietStore(st, st)
  {
  }

  lemma QuietReplace(st: Store, id: string, d': Decision)
    requires if id in st.decisions then Quiet(st.decisions[id], d') else d'.ballots == [] && !AfterVoting(d'.state)
    ensures QuietStore(st, st.(decisions := st.decisions[id := d']))
  {
  }

  lemma MovedIsQuiet(env: Env, id: string, d: Decision, to: LifecycleState, actor: string, now: int)
    requires CanTransition(d.state, to) && Served(to)
    ensures Quiet(d, Moved(env, id, d, to, actor, now))
  {
    hide TransitionEvent, RootText;
  }

  lemma CreateQuiet(env: Env, st: Store, id: string, c: Config)
    ensures QuietStore(st, CreateDecision(env, st, id, c).0)
  {
    hide SetupCommitment, SetupOf, CreateDecision, Quiet;
    CreateCases(env, st, id, c);
    QuietSame(st);
    if id !in st.decisions { QuietReplace(st, id, NewDecision(env, c)); }
  }

  lemma TransitionQuiet(env: Env, st: Store, id: string, to: LifecycleState, actor: string, now: int)
    requires StoreOk(env, st) && Served(to)
    ensures QuietStore(st, Transition(env, st, id, to, actor, now).0)
  {
    QuietSame(st);
    if id in st.decisions {
      var d := st.decisions[id];
      assert DecisionOk(env, id, d, st.receipts);
      FirstOpening(env, id, d, st.receipts);
      hide *;
      if CanTransition(d.state, to) {
        MovedIsQuiet(env, id, d, to, actor, now);
        QuietReplace(st, id, Moved(env, id, d, to, actor, now));
      }
    }
    hide *;
    TransitionCases(env, st, id, to, actor, now);
  }

  lemma PublishedIsQuiet(d: Decision, e: Event, cp: Checkpoint)
    requires CanTransition(d.state, Published) && cp.treeSize == |d.ballots|
    ensures Quiet(d, d.(events := d.events + [e], state := Published, checkpoints := d.checkpoints + [cp]))
  {
  }

  lemma BuiltSize(env: Env, id: string, leaves: seq<string>, prev: Option<string>)
    ensures BuildCheckpoint(env, id, leaves, prev).treeSize == |leaves|
  {
  }

  lemma PublishQuiet(env: Env, st: Store, id: string, actor: string, now: int)
    ensures QuietStore(st, Publish(env, st, id, actor, now).0)
  {
    hide *;
    QuietSame(st);
    PublishCases(env, st, id, actor, now);
    if id in st.decisions && CanTransition(st.decisions[id].state, Published) {
      var d := st.decisions[id];
      var latest := LatestCheckpoint(d.checkpoints);
      var prev := if latest.Some? then Some(latest.value.root) else None;
      var e, cp := TransitionEvent(env, id, d.state, Published, actor, now),
        BuildCheckpoint(env, id, Leaves(d.ballots), prev);
      BuiltSize(env, id, Leaves(d.ballots), prev);
      PublishedIsQuiet(d, e, cp);
      QuietReplace(st, id, d.(events := d.events + [e], state := Published, checkpoints := d.checkpoints + [cp]));
    }
  }

  lemma ExtendQuiet(env: Env, st: Store, id: string, closesAt: int, actor: string, now: int)
    ensures QuietStore(st, Extend(env, st, id, closesAt, actor, now).0)
  {
    hide ExtendEvent;
  }

  lemma ReconcileQuiet(env: Env, st: Store, now: int)
    ensures QuietStore(st, Reconcile(env, st, now))
  {
    hide TransitionEvent, Expired;
  }

  /** Every step but a cast, or the end of a paused one, leaves every log alone. */
  lemma OtherStepsQuiet(env: Env, sys: System, step: Step)
    requires SystemOk(env, sys) && !step.DoCast? && !step.Resume?
    ensures QuietStore(sys.store, Apply(env, sys, step).store)
  {
    hide QuietStore, StoreOk, CreateDecision, Transition, Publish, Extend, Reconcile, Cast, AfterAdmission,
      Admission, Served;
    QuietSame(sys.store);
    match step
    case DoCreate(id, c) => CreateQuiet(env, sys.store, id, c);
    case DoTransition(id, to, actor, now) => if Served(to) { TransitionQuiet(env, sys.store, id, to, actor, now); }
    case DoPublish(id, actor, now) => PublishQuiet(env, sys.store, id, actor, now);
    case DoExtend(id, closesAt, actor, now) => ExtendQuiet(env, sys.store, id, closesAt, actor, now);
    case DoReconcile(now) => ReconcileQuiet(env, sys.store, now);
    case Begin(req, now) =>
  }

  // ---- the exact condition for one step ------------------------------------------------------

  /**
   * The step lets a paused cast for decision `id` go on that the tables, as they are, would take:
   * its credential checks out, its serial and key are unused, its ballot is valid, its leaf is new.
   */
  ghost predicate LandsPaused(env: Env, sys: System, step: Step, id: string) {
    && step.Resume? && step.k < |sys.waiting| && sys.waiting[step.k].decisionId == id
    && id in sys.store.decisions && WouldLand(env, sys.store, sys.waiting[step.k])
  }

  lemma LogStep(env: Env, sys: System, step: Step, id: string)
    requires SystemOk(env, sys) && id in sys.store.decisions && AfterVoting(sys.store.decisions[id].state)
    ensures var d, sys' := sys.store.decisions[id], Apply(env, sys, step);
      && id in sys'.store.decisions && AfterVoting(sys'.store.decisions[id].state)
      && if LandsPaused(env, sys, step, id) then |sys'.store.decisions[id].ballots| == |d.ballots| + 1
         else sys'.store.decisions[id].ballots == d.ballots && sys'.store.decisions[id].head == d.head
  {
    hide StoreOk, AfterAdmission, WouldLand, CreateDecision, Transition, Publish, Extend, Reconcile, Cast, Admission;
    if step.DoCast? {
      CastChanges(env, sys.store, step.req, step.now, id);
    } else if step.Resume? {
      if step.k < |sys.waiting| {
        assert WaitingOk(sys.store, sys.waiting[step.k]);
        AcceptedIffLands(env, sys.store, sys.waiting[step.k]);
        ResumeChanges(env, sys.store, sys.waiting[step.k], id);
      }
    } else {
      OtherStepsQuiet(env, sys, step);
      hide Apply;
    }
  }

  lemma HeadCounts(env: Env, sys: System, id: string)
    requires SystemOk(env, sys) && id in sys.store.decisions
    ensures var d := sys.store.decisions[id];
      if d.head.Some? then d.head.value.leafCount == |d.ballots| else d.ballots == []
  {
    hide LogOk, CheckpointsOk, LifecycleOk, SetupCommitment, RootText;
    assert DecisionOk(env, id, sys.store.decisions[id], sys.store.receipts);
  }

  /**
   * Once voting is over, a step changes a decision's log, and its head, exactly when it lets such a paused
   * cast land.
   */
  lemma ThawsIff(env: Env, sys: System, step: Step, id: string)
    requires SystemOk(env, sys) && id in sys.store.decisions && AfterVoting(sys.store.decisions[id].state)
    ensures var sys' := Apply(env, sys, step);
      && id in sys'.store.decisions && AfterVoting(sys'.store.decisions[id].state)
      && (sys'.store.decisions[id].ballots != sys.store.decisions[id].ballots <==> LandsPaused(env, sys, step, id))
      && (sys'.store.decisions[id].head != sys.store.decisions[id].head <==> LandsPaused(env, sys, step, id))
  {
    hide *;
    LogStep(env, sys, step, id);
    StepKeeps(env, sys, step);
    HeadCounts(env, sys, id);
    HeadCounts(env, Apply(env, sys, step), id);
  }

  /** A cast without a pause touches open decisions only. */
  lemma CastChanges(env: Env, st: Store, req: CastRequest, now: int, id: string)
    requires StoreOk(env, st) && id in st.decisions
    ensures var st' := Cast(env, st, req, now).0;
      && id in st'.decisions && st'.decisions[id].config == st.decisions[id].config
      && st'.decisions[id].state == st.decisions[id].state
          && st'.decisions[id].checkpoints == st.decisions[id].checkpoints
      && (st.decisions[id].state != Open ==> st'.decisions[id] == st.decisions[id])
      && |st'.decisions[id].ballots| <= |st.decisions[id].ballots| + 1
      && (Admission(st, req, now).Some? || req.decisionId != id ==> st'.decisions[id] == st.decisions[id])
      && st'.decisions.Keys == st.decisions.Keys
  {
    hide StoreOk, Admission, AfterAdmission;
    if Admission(st, req, now).None? {
      AdmittedIsOpen(env, st, req, now);
      ResumeChanges(env, st, req, id);
    }
  }

  /** What comes after admission touches its own decision only, and changes its log exactly when it accepts. */
  lemma ResumeChanges(env: Env, st: Store, req: CastRequest, id: string)
    requires StoreOk(env, st) && id in st.decisions && req.decisionId in st.decisions
        && st.decisions[req.decisionId].head.Some?
    ensures var (st', reply) := AfterAdmission(env, st, req);
      && id in st'.decisions && st'.decisions[id].config == st.decisions[id].config
      && st'.decisions[id].state == st.decisions[id].state
          && st'.decisions[id].checkpoints == st.decisions[id].checkpoints
      && (req.decisionId != id || !reply.Accepted? ==> st'.decisions[id] == st.decisions[id])
      && (req.decisionId == id && reply.Accepted? ==> |st'.decisions[id].ballots| == |st.decisions[id].ballots| + 1)
      && st'.decisions.Keys == st.decisions.Keys
  {
    hide *;
    AfterAdmissionKeeps(env, st, req);
    AfterAdmissionKeys(env, st, req);
    var (st', reply) := AfterAdmission(env, st, req);
    if reply.Accepted? {
      OneMoreMeans(st, st', req.decisionId, req.payload.value, req.idempotencyKey,
        SerialOf(st.decisions[req.decisionId], req), reply.receipt, id);
    }
  }

  lemma OneMoreMeans(st: Store, st': Store, target: string, payload: Payload, key: string, serial: Option<string>,
      receipt: Receipt, id: string)
    requires OneBallotMore(st, st', target, payload, key, serial, receipt) && id in st.decisions
    ensures id in st'.decisions && st'.decisions[id].config == st.decisions[id].config
    ensures st'.decisions[id].state == st.decisions[id].state
        && st'.decisions[id].checkpoints == st.decisions[id].checkpoints
    ensures id != target ==> st'.decisions[id] == st.decisions[id]
    ensures id == target ==> |st'.decisions[id].ballots| == |st.decisions[id].ballots| + 1
  {
  }

  lemma AfterAdmissionKeys(env: Env, st: Store, req: CastRequest)
    requires req.decisionId in st.decisions
    ensures AfterAdmission(env, st, req).0.decisions.Keys == st.decisions.Keys
  {
    AfterAdmissionCases(env, st, req);
    if req.payload.Some? {
      CommitCases(env, st, req.decisionId, req.payload.value, req.idempotencyKey,
        SerialOf(st.decisions[req.decisionId], req));
    }
    hide Commit, AfterAdmission, Appended, NewReceipt, NewRow, FindKey;
  }

  // ---- the cap, in any interleaving ------------------------------------------------------------

  ghost predicate WithinCap(d: Decision) {
    d.config.maxParticipants.Some? ==> |d.ballots| <= d.config.maxParticipants.value
  }

  /** The step lets a paused cast land in a log that is already at its cap. */
  ghost predicate Overfills(env: Env, sys: System, step: Step, id: string) {
    && LandsPaused(env, sys, step, id)
    && var d := sys.store.decisions[id];
       d.config.maxParticipants.Some? && |d.ballots| == d.config.maxParticipants.value
  }

  ghost predicate CapKept(sys: System, id: string) { id in sys.store.decisions ==> WithinCap(sys.store.decisions[id]) }

  lemma CapStep(env: Env, sys: System, step: Step, id: string)
    requires SystemOk(env, sys) && CapKept(sys, id)
    ensures CapKept(Apply(env, sys, step), id) <==> !Overfills(env, sys, step, id)
  {
    hide StoreOk, AfterAdmission, WouldLand, CreateDecision, Transition, Publish, Extend, Reconcile, Cast, Admission;
    if step.DoCast? {
      CastCap(env, sys.store, step.req, step.now, id);
    } else if step.Resume? {
      if step.k < |sys.waiting| {
        assert WaitingOk(sys.store, sys.waiting[step.k]);
        AcceptedIffLands(env, sys.store, sys.waiting[step.k]);
        if id in sys.store.decisions { ResumeChanges(env, sys.store, sys.waiting[step.k], id); }
        AfterAdmissionKeys(env, sys.store, sys.waiting[step.k]);
      }
    } else {
      hide Apply, SystemOk;
      OtherStepsQuiet(env, sys, step);
      StepKeeps(env, sys, step);
      SystemStore(env, Apply(env, sys, step));
      QuietCap(env, sys.store, Apply(env, sys, step).store, id);
    }
  }

  lemma SystemStore(env: Env, sys: System)
    requires SystemOk(env, sys)
    ensures StoreOk(env, sys.store)
  {
  }

  lemma QuietCap(env: Env, st: Store, st': Store, id: string)
    requires QuietStore(st, st') && StoreOk(env, st') && (id in st.decisions ==> WithinCap(st.decisions[id]))
    ensures id in st'.decisions ==> WithinCap(st'.decisions[id])
  {
    if id in st'.decisions { assert DecisionOk(env, id, st'.decisions[id], st'.receipts); }
  }

  lemma CastCap(env: Env, st: Store, req: CastRequest, now: int, id: string)
    requires StoreOk(env, st) && (id in st.decisions ==> WithinCap(st.decisions[id]))
    ensures var st' := Cast(env, st, req, now).0; id in st'.decisions ==> WithinCap(st'.decisions[id])
  {
    hide *;
    CastKeys(env, st, req, now);
    if id in st.decisions {
      CapMeans(st.decisions[id]);
      CapMeans(Cast(env, st, req, now).0.decisions[id]);
      CastChanges(env, st, req, now, id);
      if Admission(st, req, now).None? { AdmittedIsOpen(env, st, req, now); }
    }
  }

  lemma CapMeans(d: Decision)
    ensures WithinCap(d) <==> (d.config.maxParticipants.Some? ==> |d.ballots| <= d.config.maxParticipants.value)
  {
  }

  lemma CastKeys(env: Env, st: Store, req: CastRequest, now: int)
    ensures Cast(env, st, req, now).0.decisions.Keys == st.decisions.Keys
  {
    hide AfterAdmission;
    if Admission(st, req, now).None? { AfterAdmissionKeys(env, st, req); }
  }

  lemma {:induction false} CapKeptUpTo(env: Env, steps: seq<Step>, id: string, k: nat)
    requires k <= |steps| && forall j | 0 <= j < k :: !Overfills(env, Run(env, steps[..j]), steps[j], id)
    ensures CapKept(Run(env, steps[..k]), id)
  {
    hide *;
    if k == 0 {
      CapOfNothing(id);
      NoSteps(env, steps);
    } else {
      CapKeptUpTo(env, steps, id, k - 1);
      RunTo(env, steps, k - 1);
      ReachableOk(env, steps[..k - 1]);
      CapStep(env, Run(env, steps[..k - 1]), steps[k - 1], id);
    }
  }

  lemma NoSteps(env: Env, steps: seq<Step>)
    ensures Run(env, steps[..0]) == EMPTY
  {
  }

  lemma CapOfNothing(id: string)
    ensures CapKept(EMPTY, id)
  {
  }

  /**
   * In any interleaving, a decision stays within its cap all along a run exactly when the run never
   * lets a paused cast go on that would land while the log is already at the cap.
   */
  lemma CapKeptIff(env: Env, steps: seq<Step>, id: string)
    ensures (forall k | 0 <= k <= |steps| :: CapKept(Run(env, steps[..k]), id))
       <==> (forall k | 0 <= k < |steps| :: !Overfills(env, Run(env, steps[..k]), steps[k], id))
  {
    hide Run, Apply, Overfills, CapKept;
    if forall k | 0 <= k <= |steps| :: CapKept(Run(env, steps[..k]), id) {
      forall k | 0 <= k < |steps| ensures !Overfills(env, Run(env, steps[..k]), steps[k], id) {
        RunTo(env, steps, k);
        ReachableOk(env, steps[..k]);
        assert CapKept(Run(env, steps[..k]), id) && CapKept(Run(env, steps[..k + 1]), id);
        CapStep(env, Run(env, steps[..k]), steps[k], id);
      }
    }
    if forall k | 0 <= k < |steps| :: !Overfills(env, Run(env, steps[..k]), steps[k], id) {
      forall k | 0 <= k <= |steps| ensures CapKept(Run(env, steps[..k]), id) {
        CapKeptUpTo(env, steps, id, k);
      }
    }
  }

  // ---- whole runs without pauses ---------------------------------------------------------------

  /** What a run of atomic casts adds to the invariant. */
  ghost predicate Settled(d: Decision) {
    && WithinCap(d)
    && (d.state == Published ==> |d.checkpoints| == 1 && d.checkpoints[0].treeSize == |d.ballots|)
  }

  ghost predicate AllSettled(st: Store) { forall id | id in st.decisions :: Settled(st.decisions[id]) }

  lemma QuietSettles(env: Env, st: Store, st': Store)
    requires AllSettled(st) && QuietStore(st, st') && StoreOk(env, st) && StoreOk(env, st')
    ensures AllSettled(st')
  {
    hide LogOk, HeadOk, LifecycleOk, SetupCommitment, CheckpointOk;
    forall id | id in st'.decisions ensures Settled(st'.decisions[id]) {
      var d' := st'.decisions[id];
      assert DecisionOk(env, id, d', st'.receipts);
      if id in st.decisions {
        assert DecisionOk(env, id, st.decisions[id], st.receipts) && Settled(st.decisions[id]);
      }
    }
  }

  lemma CastSettles(env: Env, st: Store, req: CastRequest, now: int)
    requires AllSettled(st) && StoreOk(env, st)
    ensures AllSettled(Cast(env, st, req, now).0)
  {
    hide Cast, StoreOk;
    CastKeys(env, st, req, now);
    var st' := Cast(env, st, req, now).0;
    forall id | id in st.decisions ensures Settled(st'.decisions[id]) {
      assert Settled(st.decisions[id]);
      CastChanges(env, st, req, now, id);
      CastCap(env, st, req, now, id);
    }
  }

  lemma {:induction false} AtomicRunsSettle(env: Env, steps: seq<Step>)
    requires Atomic(steps)
    ensures Run(env, steps).waiting == [] && AllSettled(Run(env, steps).store)
  {
    if steps != [] {
      var init, step := steps[..|steps| - 1], steps[|steps| - 1];
      var sys := Run(env, init);
      AtomicRunsSettle(env, init);
      ReachableOk(env, init);
      StepKeeps(env, sys, step);
      AtomicStepWaits(env, sys, step);
      if step.DoCast? {
        CastSettles(env, sys.store, step.req, step.now);
      } else {
        OtherStepsQuiet(env, sys, step);
        QuietSettles(env, sys.store, Apply(env, sys, step).store);
      }
      hide Apply, StoreOk, AllSettled;
    }
  }

  lemma AtomicStepWaits(env: Env, sys: System, step: Step)
    requires sys.waiting == [] && !step.Begin? && !step.Resume?
    ensures Apply(env, sys, step).waiting == []
    ensures step.DoCast? ==> Apply(env, sys, step).store == Cast(env, sys.store, step.req, step.now).0
  {
    hide CreateDecision, Transition, Publish, Extend, Reconcile, Cast;
  }

  /** Along `after`, from the state that `before` reaches, no paused cast lands in decision `id`. */
  ghost predicate NoneLands(env: Env, before: seq<Step>, after: seq<Step>, id: string) {
    forall k | 0 <= k < |after| :: !LandsPaused(env, Run(env, before + after[..k]), after[k], id)
  }

  lemma RunFurther(env: Env, before: seq<Step>, after: seq<Step>, k: nat)
    requires k < |after|
    ensures Run(env, before + after[..k + 1]) == Apply(env, Run(env, before + after[..k]), after[k])
  {
    hide *;
    RunStep(env, before + after[..k], after[k]);
    assert before + after[..k + 1] == before + after[..k] + [after[k]];
  }

  lemma NoneLandsAt(env: Env, before: seq<Step>, after: seq<Step>, id: string, k: nat)
    requires k < |after|
    ensures NoneLands(env, before, after, id) ==> !LandsPaused(env, Run(env, before + after[..k]), after[k], id)
  {
    hide Run, LandsPaused;
  }

  ghost predicate VotingOver(st: Store, id: string) { id in st.decisions && AfterVoting(st.decisions[id].state) }

  ghost predicate SameLog(st: Store, st': Store, id: string) {
    && id in st.decisions && id in st'.decisions
    && st'.decisions[id].ballots == st.decisions[id].ballots && st'.decisions[id].head == st.decisions[id].head
  }

  lemma SameAsItself(st: Store, id: string)
    requires VotingOver(st, id)
    ensures SameLog(st, st, id)
  {
  }

  lemma FrozenStep(env: Env, st: Store, sys: System, step: Step, id: string)
    requires SystemOk(env, sys) && VotingOver(sys.store, id)
    ensures VotingOver(Apply(env, sys, step).store, id)
    ensures !LandsPaused(env, sys, step, id) && SameLog(st, sys.store, id)
        ==> SameLog(st, Apply(env, sys, step).store, id)
  {
    hide LandsPaused, SystemOk, Apply;
    ThawsIff(env, sys, step, id);
  }

  lemma {:induction false} AfterVotingFrom(env: Env, before: seq<Step>, after: seq<Step>, id: string, k: nat)
    requires k <= |after| && VotingOver(Run(env, before).store, id)
    ensures VotingOver(Run(env, before + after[..k]).store, id)
    ensures NoneLands(env, before, after, id)
        ==> SameLog(Run(env, before).store, Run(env, before + after[..k]).store, id)
    decreases k
  {
    hide *;
    if k == 0 {
      assert before + after[..0] == before;
      SameAsItself(Run(env, before).store, id);
    } else {
      AfterVotingFrom(env, before, after, id, k - 1);
      NoneLandsAt(env, before, after, id, k - 1);
      RunFurther(env, before, after, k - 1);
      ReachableOk(env, before + after[..k - 1]);
      FrozenStep(env, Run(env, before).store, Run(env, before + after[..k - 1]), after[k - 1], id);
    }
  }

  /** A landing lengthens the log for good. */
  lemma LandingStays(env: Env, before: seq<Step>, after: seq<Step>, id: string, k: nat)
    requires k < |after| && LandsPaused(env, Run(env, before + after[..k]), after[k], id)
    requires VotingOver(Run(env, before).store, id)
    ensures var st, st' := Run(env, before).store, Run(env, before + after).store;
      id in st.decisions && id in st'.decisions && |st'.decisions[id].ballots| > |st.decisions[id].ballots|
  {
    hide Run, LandsPaused, AfterVoting, SystemOk, Apply, Extends;
    AfterVotingFrom(env, before, after, id, k);
    RunFurther(env, before, after, k);
    ReachableOk(env, before + after[..k]);
    LogStep(env, Run(env, before + after[..k]), after[k], id);
    RunsOnlyExtend(env, before, after[..k]);
    RunsOnlyExtend(env, before + after[..k + 1], after[k + 1..]);
    assert before + after == before + after[..k + 1] + after[k + 1..];
    LogsGrow(Run(env, before).store, Run(env, before + after[..k]).store, id);
    LogsGrow(Run(env, before + after[..k + 1]).store, Run(env, before + after).store, id);
  }

  lemma LogsGrow(st: Store, st': Store, id: string)
    requires Extends(st, st') && id in st.decisions
    ensures id in st'.decisions && |st.decisions[id].ballots| <= |st'.decisions[id].ballots|
  {
    assert DecisionExtends(st.decisions[id], st'.decisions[id]);
  }

  /**
   * After any run, once voting is over, whatever comes next leaves log and head as they are exactly
   * when no paused cast for that decision lands along the way.
   */
  lemma FrozenAfterVoting(env: Env, before: seq<Step>, after: seq<Step>, id: string)
    requires VotingOver(Run(env, before).store, id)
    ensures VotingOver(Run(env, before + after).store, id)
    ensures SameLog(Run(env, before).store, Run(env, before + after).store, id) <==> NoneLands(env, before, after, id)
  {
    hide Run, LandsPaused, VotingOver;
    AfterVotingFrom(env, before, after, id, |after|);
    assert after[..|after|] == after;
    if !NoneLands(env, before, after, id) {
      var k :| 0 <= k < |after| && LandsPaused(env, Run(env, before + after[..k]), after[k], id);
      LandingStays(env, before, after, id, k);
    }
  }

  /**
   * Every run without pauses: each decision opens at most once, never exceeds its cap, and once
   * published has exactly one checkpoint, which signs the head and counts the whole log.
   */
  lemma AtomicRuns(env: Env, steps: seq<Step>, id: string)
    requires Atomic(steps) && id in Run(env, steps).store.decisions
    ensures var d := Run(env, steps).store.decisions[id];
      && Openings(d.events) <= 1
      && WithinCap(d)
      && (d.state == Published ==>
            && |d.checkpoints| == 1 && d.head.Some?
            && d.checkpoints[0].root == d.head.value.head
                && d.checkpoints[0].treeSize == d.head.value.leafCount == |d.ballots|
            && d.checkpoints[0].signedRoot == SignRoot(env, id, d.head.value.head, |d.ballots|))
      && (d.state != Published ==> d.checkpoints == [])
  {
    ReachableOk(env, steps);
    AtomicRunsSettle(env, steps);
    hide Run, LogOk, SetupCommitment, RootText, SignRoot;
    var sys := Run(env, steps);
    var d := sys.store.decisions[id];
    assert DecisionOk(env, id, d, sys.store.receipts) && Settled(d);
    if d.state == Published {
      assert CheckpointOk(env, id, d.ballots, d.checkpoints[0]);
      assert Leaves(d.ballots)[..|d.ballots|] == Leaves(d.ballots);
    }
  }
}
