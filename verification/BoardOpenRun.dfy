/** From creation to publication in open mode: a run in which a ballot is cast, replayed and counted. */
module BoardOpenRun {
  import opened Basics
  import opened Wire
  import opened Board
  import opened BoardSafety
  import opened BoardRuns
  import opened BoardAccept
  import opened BoardFreeze
  import opened BoardReplay
  import opened BoardMoves
  import Hex
  import TallyTheorems

  /** An acceptable open-mode decision that is not past its scheduled close at time `t`. */
  predicate OpenConfig(c: Config, t: int) {
    && Acceptable(c) && c.ballotMode == OpenBallots
    && (c.schedule.closesAt.Some? ==> t <= c.schedule.closesAt.value)
  }

  /** An eligible request with a key and a valid ballot within budget. */
  predicate OpenRequest(id: string, c: Config, req: CastRequest) {
    && req.decisionId == id && req.eligible && req.idempotencyKey != "" && req.payload.Some?
    && SchemaOk(c.scheme, |c.options|, req.payload.value)
    && (req.payload.value.Quadratic? ==> TallyTheorems.CreditsSpent(req.payload.value.votes) <= 100)
  }

  /** Create, open, cast, close, publish. */
  function OpenSteps(id: string, c: Config, req: CastRequest, t: int): seq<Step> {
    [DoCreate(id, c), DoTransition(id, Open, c.convener, t), DoCast(req, t),
     DoTransition(id, Closed, c.convener, t), DoPublish(id, c.convener, t)]
  }

  /** The one decision of the store, as a stage of the run leaves it. */
  ghost predicate Stage(st: Store, id: string, c: Config, state: LifecycleState, ballots: nat) {
    && id in st.decisions && st.decisions[id].config == c && st.decisions[id].state == state
    && |st.decisions[id].ballots| == ballots
  }

  lemma CreateStage(env: Env, id: string, c: Config, t: int)
    requires OpenConfig(c, t)
    ensures var st := Apply(env, EMPTY, DoCreate(id, c)).store;
      Stage(st, id, c, Draft, 0) && st.receipts == map[] && st.decisions[id].events == []
  {
    hide Acceptable, CreateDecision;
    CreatedIff(env, EMPTY.store, id, c);
  }

  predicate NoExtension(events: seq<Event>) { forall i | 0 <= i < |events| :: !IsExtend(events[i]) }

  lemma MoveIs(env: Env, sys: System, id: string, to: LifecycleState, actor: string, t: int)
    requires to in {Open, Closed, Cancelled}
    ensures Served(to)
    ensures Apply(env, sys, DoTransition(id, to, actor, t))
        == sys.(store := Transition(env, sys.store, id, to, actor, t).0)
  {
    hide Transition;
  }

  lemma StageMeans(st: Store, id: string, c: Config, state: LifecycleState, ballots: nat)
    ensures Stage(st, id, c, state, ballots) <==>
      && id in st.decisions && st.decisions[id].config == c && st.decisions[id].state == state
      && |st.decisions[id].ballots| == ballots
  {
  }

  /** A decision moved by its convener from a state that allows it. */
  lemma MoveStage(env: Env, steps: seq<Step>, id: string, c: Config, from: LifecycleState, to: LifecycleState,
      n: nat, t: int)
    requires Stage(Run(env, steps).store, id, c, from, n) && to in {Open, Closed, Cancelled} && MayMove(from, to)
    ensures var st, st' := Run(env, steps).store,
        Apply(env, Run(env, steps), DoTransition(id, to, c.convener, t)).store;
      && Stage(st', id, c, to, n) && st'.receipts == st.receipts
          && st'.decisions[id].ballots == st.decisions[id].ballots
      && (NoExtension(st.decisions[id].events) ==> NoExtension(st'.decisions[id].events))
  {
    hide *;
    var sys := Run(env, steps);
    var st := sys.store;
    var st' := Transition(env, st, id, to, c.convener, t).0;
    StageMeans(st, id, c, from, n);
    StageMeans(st', id, c, to, n);
    MoveIs(env, sys, id, to, c.convener, t);
    MovesIff(env, steps, id, to, c.convener, t);
    AnsweredDone(st, id, c.convener, MayMove(from, to), Transition(env, st, id, to, c.convener, t).1);
    ReachableOk(env, steps);
    SystemAt(env, sys, 0);
    StoreAt(env, st, id);
    FirstOpening(env, id, st.decisions[id], st.receipts);
    TransitionCases(env, st, id, to, c.convener, t);
    MovedKeepsRest(env, id, st.decisions[id], to, c.convener, t);
  }

  lemma AnsweredDone(st: Store, id: string, actor: string, allowed: bool, reply: Reply)
    requires Answered(st, id, actor, allowed, reply) && id in st.decisions && st.decisions[id].config.convener == actor
    ensures allowed ==> reply == Done
  {
  }

  lemma MovedKeepsRest(env: Env, id: string, d: Decision, to: LifecycleState, actor: string, t: int)
    ensures var d' := Moved(env, id, d, to, actor, t);
      && d'.config == d.config && d'.ballots == d.ballots && d'.state == to
      && (NoExtension(d.events) ==> NoExtension(d'.events))
  {
    hide RootText;
    var e := TransitionEvent(env, id, d.state, to, actor, t);
    assert !IsExtend(e);
    hide TransitionEvent, IsExtend;
  }

  /** A first cast in an open decision with nothing against it is accepted. */
  lemma CastStage(env: Env, steps: seq<Step>, id: string, c: Config, req: CastRequest, t: int)
    requires OpenConfig(c, t) && OpenRequest(id, c, req)
    requires var st := Run(env, steps).store;
      && Stage(st, id, c, Open, 0) && st.receipts == map[]
      && NoExtension(st.decisions[id].events)
    ensures var (st', reply) := Cast(env, Run(env, steps).store, req, t);
      && reply.Accepted? && Stage(st', id, c, Open, 1)
      && st'.decisions[id].ballots[0].payload == req.payload.value
      && st'.decisions[id].events == Run(env, steps).store.decisions[id].events
  {
    var sys := Run(env, steps);
    var st := sys.store;
    hide *;
    ReachableOk(env, steps);
    SystemAt(env, sys, 0);
    StageMeans(st, id, c, Open, 0);
    NothingAgainst(env, st, id, c, req, t);
    RequestHas(id, c, req);
    AdmittedIsOpen(env, st, req, t);
    AcceptedIffLands(env, st, req);
    AfterAdmissionKeeps(env, st, req);
    OneBallotLands(env, st, req, t);
    StageMeans(Cast(env, st, req, t).0, id, c, Open, 1);
  }

  lemma RequestHas(id: string, c: Config, req: CastRequest)
    requires OpenRequest(id, c, req)
    ensures req.decisionId == id && req.payload.Some?
  {
  }

  lemma OneBallotLands(env: Env, st: Store, req: CastRequest, t: int)
    requires Admission(st, req, t).None? && req.decisionId in st.decisions && req.payload.Some?
    requires var (st', reply) := AfterAdmission(env, st, req);
      reply.Accepted? && OneBallotMore(st, st', req.decisionId, req.payload.value, req.idempotencyKey,
                                       SerialOf(st.decisions[req.decisionId], req), reply.receipt)
    ensures var (st', reply) := Cast(env, st, req, t);
      && reply.Accepted? && req.decisionId in st'.decisions
      && var d, d' := st.decisions[req.decisionId], st'.decisions[req.decisionId];
         && d'.config == d.config && d'.state == d.state && d'.events == d.events && |d'.ballots| == |d.ballots| + 1
         && d'.ballots[|d.ballots|].payload == req.payload.value
  {
    hide Admission, AfterAdmission;
  }

  lemma NothingAgainst(env: Env, st: Store, id: string, c: Config, req: CastRequest, t: int)
    requires OpenConfig(c, t) && OpenRequest(id, c, req) && Stage(st, id, c, Open, 0) && st.receipts == map[]
    requires NoExtension(st.decisions[id].events)
    ensures Admission(st, req, t).None? && WouldLand(env, st, req)
  {
    hide SchemaOk, TallyTheorems.CreditsSpent, IsExtend, Hex.Encode, PercentInRange;
    LatestExtendIsInForce(st.decisions[id].events);
    NoneInForce(st.decisions[id].events);
    hide LatestExtend;
  }

  lemma NoneInForce(events: seq<Event>)
    requires NoExtension(events)
    ensures LatestExtend(events).None?
  {
    LatestExtendIsInForce(events);
    hide LatestExtend;
  }

  lemma PublishIs(env: Env, sys: System, id: string, actor: string, t: int)
    ensures Apply(env, sys, DoPublish(id, actor, t)) == sys.(store := Publish(env, sys.store, id, actor, t).0)
  {
    hide Publish;
  }

  lemma CastIs(env: Env, sys: System, req: CastRequest, t: int)
    ensures Apply(env, sys, DoCast(req, t)) == sys.(store := Cast(env, sys.store, req, t).0)
  {
    hide Cast;
  }

  lemma PublishStage(env: Env, sys: System, id: string, c: Config, n: nat, t: int)
    requires Stage(sys.store, id, c, Closed, n)
    ensures var st' := Apply(env, sys, DoPublish(id, c.convener, t)).store;
      Stage(st', id, c, Published, n) && st'.decisions[id].ballots == sys.store.decisions[id].ballots
  {
    hide *;
    PublishIs(env, sys, id, c.convener, t);
    PublishesIff(env, sys.store, id, c.convener, t);
    StageMeans(sys.store, id, c, Closed, n);
    ClosedMayPublish();
    AnsweredDone(sys.store, id, c.convener, MayMove(Closed, Published), Publish(env, sys.store, id, c.convener, t).1);
    PublishCases(env, sys.store, id, c.convener, t);
    StageMeans(Publish(env, sys.store, id, c.convener, t).0, id, c, Published, n);
  }

  lemma ClosedMayPublish()
    ensures MayMove(Closed, Published) && MayMove(Draft, Open) && MayMove(Open, Closed)
  {
  }

  lemma OpenStepsAre(id: string, c: Config, req: CastRequest, t: int)
    ensures OpenSteps(id, c, req, t) ==
      [DoCreate(id, c), DoTransition(id, Open, c.convener, t), DoCast(req, t),
       DoTransition(id, Closed, c.convener, t), DoPublish(id, c.convener, t)]
    ensures Atomic(OpenSteps(id, c, req, t)) && NoExtension([])
  {
  }

  /**
   * For every acceptable open-mode decision and every eligible, valid request by its close: the cast
   * is accepted, and the run ends published with that one ballot, counted by its one checkpoint.
   */
  lemma OpenBallotCounts(env: Env, id: string, c: Config, req: CastRequest, t: int)
    requires OpenConfig(c, t) && OpenRequest(id, c, req)
    ensures var all := OpenSteps(id, c, req, t);
      && Cast(env, Run(env, all[..2]).store, req, t).1.Accepted?
      && Stage(Run(env, all[..3]).store, id, c, Open, 1)
      && Stage(Run(env, all).store, id, c, Published, 1)
      && var d := Run(env, all).store.decisions[id];
         && d.ballots[0].payload == req.payload.value
         && |d.checkpoints| == 1 && d.checkpoints[0].treeSize == 1
         && d.head.Some? && d.checkpoints[0].root == d.head.value.head
  {
    var all := OpenSteps(id, c, req, t);
    hide *;
    OpenStepsAre(id, c, req, t);
    ClosedMayPublish();
    assert all[..5] == all;
    RequestHas(id, c, req);
    RunTo(env, all, 0);
    CreateStage(env, id, c, t);
    StageMeans(Run(env, all[..1]).store, id, c, Draft, 0);
    RunTo(env, all, 1);
    MoveStage(env, all[..1], id, c, Draft, Open, 0, t);
    RunTo(env, all, 2);
    CastStage(env, all[..2], id, c, req, t);
    CastIs(env, Run(env, all[..2]), req, t);
    StageMeans(Run(env, all[..3]).store, id, c, Open, 1);
    RunTo(env, all, 3);
    MoveStage(env, all[..3], id, c, Open, Closed, 1, t);
    StageMeans(Run(env, all[..4]).store, id, c, Closed, 1);
    RunTo(env, all, 4);
    PublishStage(env, Run(env, all[..4]), id, c, 1, t);
    StageMeans(Run(env, all).store, id, c, Published, 1);
    AtomicRuns(env, all, id);
  }

  /**
   * While it is open, below any cap, the same request again changes nothing and is answered with the
   * receipt of the first; with another valid ballot it is answered with a conflict.
   */
  lemma OpenBallotReplays(env: Env, id: string, c: Config, req: CastRequest, again: CastRequest, t: int)
    requires OpenConfig(c, t) && OpenRequest(id, c, req) && OpenRequest(id, c, again)
    requires again.idempotencyKey == req.idempotencyKey && c.maxParticipants != Some(1)
    ensures var all := OpenSteps(id, c, req, t);
      var st, first := Run(env, all[..3]).store, Cast(env, Run(env, all[..2]).store, req, t).1;
      && first.Accepted?
      && Cast(env, st, again, t)
         == (st, if again.payload == req.payload then Replayed(first.receipt) else IdempotencyConflict)
  {
    var all := OpenSteps(id, c, req, t);
    hide *;
    OpenStepsAre(id, c, req, t);
    OpenBallotCounts(env, id, c, req, t);
    RunTo(env, all, 2);
    assert all[..3] == all[..2] + [DoCast(req, t)] + [];
    NotClosedYet(env, id, c, req, t);
    StillCastable(Run(env, all[..3]).store, id, c, again, t);
    RequestHas(id, c, req);
    RequestHas(id, c, again);
    RequestKey(id, c, again);
    ReplayReturnsOriginal(env, all[..2], req, t, [], again, t);
  }

  lemma RequestKey(id: string, c: Config, req: CastRequest)
    requires OpenRequest(id, c, req)
    ensures req.idempotencyKey != "" && req.eligible
  {
  }

  lemma NotClosedYet(env: Env, id: string, c: Config, req: CastRequest, t: int)
    requires OpenConfig(c, t) && OpenRequest(id, c, req)
    ensures var st := Run(env, OpenSteps(id, c, req, t)[..3]).store;
      id in st.decisions && NoExtension(st.decisions[id].events)
  {
    var all := OpenSteps(id, c, req, t);
    hide *;
    OpenStepsAre(id, c, req, t);
    ClosedMayPublish();
    RunTo(env, all, 0);
    CreateStage(env, id, c, t);
    RunTo(env, all, 1);
    MoveStage(env, all[..1], id, c, Draft, Open, 0, t);
    RunTo(env, all, 2);
    CastStage(env, all[..2], id, c, req, t);
    CastIs(env, Run(env, all[..2]), req, t);
    StageMeans(Run(env, all[..3]).store, id, c, Open, 1);
    StageMeans(Run(env, all[..2]).store, id, c, Open, 0);
  }

  lemma StillCastable(st: Store, id: string, c: Config, req: CastRequest, t: int)
    requires OpenConfig(c, t) && OpenRequest(id, c, req) && Stage(st, id, c, Open, 1) && c.maxParticipants != Some(1)
    requires NoExtension(st.decisions[id].events)
    ensures Castable(st, req, t)
  {
    hide SchemaOk, TallyTheorems.CreditsSpent, IsExtend, PercentInRange;
    NoneInForce(st.decisions[id].events);
    hide LatestExtend;
  }
}
