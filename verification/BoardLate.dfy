/** A run in which a paused secret-mode cast lands in a decision that has been published meanwhile. */
module BoardLate {
  import opened Basics
  import opened Tallies
  import opened Wire
  import opened Board
  import opened BoardRuns
  import TallyTheorems

  /** A credentialed abstention. */
  predicate GoodRequest(env: Env, id: string, c: Config, req: CastRequest) {
    && ValidConfig(c) && c.ballotMode == SecretBallots && c.schedule.closesAt.None?
    && req.decisionId == id && req.payload == Some(Abstain)
    && req.idempotencyKey != "" && req.serial != "" && req.credentialSig != ""
    && env.credentialOk(c.issuer.value.publicKeyPem, id + "|" + req.serial, req.credentialSig)
  }

  /** Create, open, admit a cast, close, publish, and only then let the cast finish. */
  function LateSteps(id: string, c: Config, req: CastRequest): seq<Step> {
    [DoCreate(id, c), DoTransition(id, Open, c.convener, 0), Begin(req, 0),
     DoTransition(id, Closed, c.convener, 0), DoPublish(id, c.convener, 0), Resume(0)]
  }

  /** A store with one decision and no receipts. */
  predicate Single(sys: System, id: string, d: Decision, waiting: seq<CastRequest>) {
    sys == System(Store(map[id := d], map[]), waiting)
  }

  lemma Created(env: Env, id: string, c: Config)
    requires ValidConfig(c) && c.ballotMode == SecretBallots
    ensures Single(Apply(env, EMPTY, DoCreate(id, c)), id, NewDecision(env, c), [])
    ensures NewDecision(env, c).state == Registration
  {
    hide SetupCommitment, SetupOf, ValidConfig;
  }

  lemma Moves(env: Env, sys: System, id: string, d: Decision, waiting: seq<CastRequest>, to: LifecycleState)
    requires Single(sys, id, d, waiting) && Served(to) && CanTransition(d.state, to)
    requires to == Open ==> d.state == Registration && d.head.None?
    ensures Single(Apply(env, sys, DoTransition(id, to, d.config.convener, 0)), id,
                   Moved(env, id, d, to, d.config.convener, 0), waiting)
  {
    hide TransitionEvent, RootText;
  }

  lemma Pauses(env: Env, sys: System, id: string, d: Decision, req: CastRequest)
    requires Single(sys, id, d, []) && GoodRequest(env, id, d.config, req)
    requires d.state == Open && d.ballots == [] && LatestExtend(d.events).None?
    ensures Single(Apply(env, sys, Begin(req, 0)), id, d, [req])
  {
    hide LatestExtend;
  }

  lemma Publishes(env: Env, sys: System, id: string, d: Decision, waiting: seq<CastRequest>)
    requires Single(sys, id, d, waiting) && d.state == Closed && d.checkpoints == []
    ensures var sys' := Apply(env, sys, DoPublish(id, d.config.convener, 0));
      && id in sys'.store.decisions
      && var d' := sys'.store.decisions[id];
         Single(sys', id, d', waiting) && d'.state == Published && d'.config == d.config && d'.ballots == d.ballots
         && d'.head == d.head && |d'.checkpoints| == 1 && d'.checkpoints[0].treeSize == |d.ballots|
  {
    hide TransitionEvent, RootText, SignRoot;
  }

  lemma Lands(env: Env, sys: System, id: string, d: Decision, req: CastRequest)
    requires Single(sys, id, d, [req]) && GoodRequest(env, id, d.config, req)
    requires d.ballots == [] && d.head.Some? && d.head.value.leafCount == 0
    ensures var sys' := Apply(env, sys, Resume(0));
      && id in sys'.store.decisions
      && var d' := sys'.store.decisions[id];
         d'.state == d.state && d'.checkpoints == d.checkpoints && |d'.ballots| == 1
  {
    hide RootText, BallotHash, ReceiptFor, TallyTheorems.CreditsSpent;
    assert !SerialExists([], req.serial);
  }

  lemma NoExtend(env: Env, id: string, from: LifecycleState, actor: string)
    ensures LatestExtend([TransitionEvent(env, id, from, Open, actor, 0)]).None?
  {
    var e := TransitionEvent(env, id, from, Open, actor, 0);
    assert !IsExtend(e);
    assert [e][..0] == [];
  }

  /**
   * For every such decision and request, the run ends published, with a ballot that its only
   * checkpoint does not count: the freeze does not hold once casts pause.
   */
  lemma LateBallot(env: Env, id: string, c: Config, req: CastRequest)
    requires GoodRequest(env, id, c, req)
    ensures var sys := Run(env, LateSteps(id, c, req));
      && id in sys.store.decisions
      && var d := sys.store.decisions[id];
         d.state == Published && |d.ballots| == 1 && |d.checkpoints| == 1 && d.checkpoints[0].treeSize == 0
  {
    var d0 := NewDecision(env, c);
    var d1 := Moved(env, id, d0, Open, c.convener, 0);
    var d2 := Moved(env, id, d1, Closed, c.convener, 0);
    var all := LateSteps(id, c, req);
    hide *;
    LateStepsAre(id, c, req);
    CreatedFrom(env, id, c, req);
    Opened(env, id, c);
    assert all[..6] == all;
    RunTo(env, all, 0);
    RunTo(env, all, 1);
    Moves(env, Run(env, all[..1]), id, d0, [], Open);
    RunTo(env, all, 2);
    Pauses(env, Run(env, all[..2]), id, d1, req);
    RunTo(env, all, 3);
    Moves(env, Run(env, all[..3]), id, d1, [req], Closed);
    RunTo(env, all, 4);
    Publishes(env, Run(env, all[..4]), id, d2, [req]);
    RunTo(env, all, 5);
    Lands(env, Run(env, all[..5]), id, Run(env, all[..5]).store.decisions[id], req);
  }

  lemma LateStepsAre(id: string, c: Config, req: CastRequest)
    ensures LateSteps(id, c, req) == [DoCreate(id, c), DoTransition(id, Open, c.convener, 0), Begin(req, 0),
                                      DoTransition(id, Closed, c.convener, 0), DoPublish(id, c.convener, 0), Resume(0)]
  {
  }

  /** The decision after opening, and after closing. */
  lemma Opened(env: Env, id: string, c: Config)
    requires c.ballotMode == SecretBallots
    ensures var d0 := NewDecision(env, c);
      var d1 := Moved(env, id, d0, Open, c.convener, 0);
      var d2 := Moved(env, id, d1, Closed, c.convener, 0);
      && Served(Open) && Served(Closed) && CanTransition(d0.state, Open) && CanTransition(d1.state, Closed)
      && d0.config == d1.config == d2.config == c && d0.state == Registration && d0.head.None?
      && d1.ballots == d2.ballots == [] && d1.state == Open && d2.state == Closed && d2.checkpoints == []
      && d1.head.Some? && d1.head == d2.head && d1.head.value.leafCount == 0
      && LatestExtend(d1.events).None?
  {
    hide TransitionEvent, RootText, SetupCommitment, SetupOf, LatestExtend;
    var d0 := NewDecision(env, c);
    var e := TransitionEvent(env, id, d0.state, Open, c.convener, 0);
    NoExtend(env, id, d0.state, c.convener);
    assert Moved(env, id, d0, Open, c.convener, 0).events == [e];
  }

  lemma CreatedFrom(env: Env, id: string, c: Config, req: CastRequest)
    requires GoodRequest(env, id, c, req)
    ensures Single(Apply(env, EMPTY, DoCreate(id, c)), id, NewDecision(env, c), []) && c.ballotMode == SecretBallots
  {
    Created(env, id, c);
  }

  // ---- one ballot too many -----------------------------------------------------------------------

  /** Create, open, admit two casts to a decision for one participant, and let both finish. */
  function CrowdSteps(id: string, c: Config, first: CastRequest, second: CastRequest): seq<Step> {
    [DoCreate(id, c), DoTransition(id, Open, c.convener, 0), Begin(first, 0), Begin(second, 0), Resume(0), Resume(0)]
  }

  /** Two paused casts, of which the first has landed. */
  ghost predicate OneLanded(env: Env, sys: System, id: string, c: Config, first: CastRequest, second: CastRequest) {
    && sys.waiting == [second] && id in sys.store.decisions
    && var d := sys.store.decisions[id];
       && d.config == c && d.head.Some? && d.head.value.leafCount == 1
       && |d.ballots| == 1 && d.ballots[0].serial == Some(first.serial)
           && d.ballots[0].idempotencyKey == first.idempotencyKey
       && sys.store.receipts.Keys == {BallotHash(env, id, 0, Abstain, Some(first.serial))}
  }

  lemma PausesAlso(env: Env, sys: System, id: string, d: Decision, first: CastRequest, second: CastRequest)
    requires Single(sys, id, d, [first]) && GoodRequest(env, id, d.config, second)
    requires d.state == Open && d.ballots == [] && LatestExtend(d.events).None?
    ensures Single(Apply(env, sys, Begin(second, 0)), id, d, [first, second])
  {
    hide LatestExtend;
  }

  lemma FirstLands(env: Env, sys: System, id: string, d: Decision, first: CastRequest, second: CastRequest)
    requires Single(sys, id, d, [first, second]) && GoodRequest(env, id, d.config, first)
    requires d.ballots == [] && d.head.Some? && d.head.value.leafCount == 0
    ensures OneLanded(env, Apply(env, sys, Resume(0)), id, d.config, first, second)
  {
    hide RootText, BallotHash, ReceiptFor, TallyTheorems.CreditsSpent;
    assert !SerialExists([], first.serial);
  }

  lemma SecondLands(env: Env, sys: System, id: string, c: Config, first: CastRequest, second: CastRequest)
    requires OneLanded(env, sys, id, c, first, second) && GoodRequest(env, id, c, second)
    requires first.serial != second.serial && first.idempotencyKey != second.idempotencyKey
    requires BallotHash(env, id, 0, Abstain, Some(first.serial)) != BallotHash(env, id, 1, Abstain, Some(second.serial))
    ensures var sys' := Apply(env, sys, Resume(0));
      id in sys'.store.decisions && sys'.store.decisions[id].config == c && |sys'.store.decisions[id].ballots| == 2
  {
    hide RootText, BallotHash, ReceiptFor, TallyTheorems.CreditsSpent;
    var ballots := sys.store.decisions[id].ballots;
    assert !SerialExists(ballots, second.serial);
    assert FindKey(ballots, second.idempotencyKey).None?;
  }

  /**
   * For every such decision for one participant and two such requests with different serials, keys
   * and leaves, the run ends with two ballots: the cap does not hold once casts pause.
   */
  lemma CrowdedOut(env: Env, id: string, c: Config, first: CastRequest, second: CastRequest)
    requires GoodRequest(env, id, c, first) && GoodRequest(env, id, c, second) && c.maxParticipants == Some(1)
    requires first.serial != second.serial && first.idempotencyKey != second.idempotencyKey
    requires BallotHash(env, id, 0, Abstain, Some(first.serial)) != BallotHash(env, id, 1, Abstain, Some(second.serial))
    ensures var sys := Run(env, CrowdSteps(id, c, first, second));
      && id in sys.store.decisions
      && var d := sys.store.decisions[id]; d.config.maxParticipants == Some(1) && |d.ballots| == 2
  {
    var d0 := NewDecision(env, c);
    var d1 := Moved(env, id, d0, Open, c.convener, 0);
    var all := CrowdSteps(id, c, first, second);
    hide *;
    CrowdStepsAre(id, c, first, second);
    CreatedFrom(env, id, c, first);
    Opened(env, id, c);
    assert all[..6] == all;
    RunTo(env, all, 0);
    RunTo(env, all, 1);
    Moves(env, Run(env, all[..1]), id, d0, [], Open);
    RunTo(env, all, 2);
    Pauses(env, Run(env, all[..2]), id, d1, first);
    RunTo(env, all, 3);
    PausesAlso(env, Run(env, all[..3]), id, d1, first, second);
    RunTo(env, all, 4);
    FirstLands(env, Run(env, all[..4]), id, d1, first, second);
    RunTo(env, all, 5);
    SecondLands(env, Run(env, all[..5]), id, c, first, second);
  }

  lemma CrowdStepsAre(id: string, c: Config, first: CastRequest, second: CastRequest)
    ensures CrowdSteps(id, c, first, second)
         == [DoCreate(id, c), DoTransition(id, Open, c.convener, 0), Begin(first, 0), Begin(second, 0), Resume(0),
           Resume(0)]
  {
  }
}
