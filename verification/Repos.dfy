/**
 * The tables of db/repos.ts and the routes that write them, statement by statement. Each table
 * operation is specified by the rows a decision has afterwards; each route by its step of Board.
 */
module Repositories {
  import opened Basics
  import opened Tallies
  import opened Wire
  import opened Json
  import opened Board
  import opened BoardSafety
  import opened BoardRuns
  import TallyTheorems

  /** A row of the decisions table. */
  datatype DecisionRow = DecisionRow(config: Config, setupCommitment: string, state: LifecycleState)

  /** The tables with the rows of one decision replaced. */
  function Put(st: Store, id: string, d: Decision): Store { st.(decisions := st.decisions[id := d]) }

  lemma PutAt(st: Store, id: string, d: Decision)
    ensures id in Put(st, id, d).decisions && Put(st, id, d).decisions[id] == d
        && Put(st, id, d).receipts == st.receipts
    ensures forall d' :: Put(Put(st, id, d), id, d') == Put(st, id, d')
  {
    forall d' ensures Put(Put(st, id, d), id, d') == Put(st, id, d') {
      assert Put(Put(st, id, d), id, d').decisions == Put(st, id, d').decisions;
    }
  }

  /** The rows of one decision, gathered from the tables. */
  function DecisionIn(rows: map<string, DecisionRow>, ballots: map<string, seq<BallotRow>>, heads: map<string, Head>,
                      events: map<string, seq<Event>>, checkpoints: map<string, seq<Checkpoint>>, id: string): Decision
    requires id in rows
  {
    Decision(rows[id].config, rows[id].setupCommitment, rows[id].state,
             if id in ballots then ballots[id] else [], if id in heads then Some(heads[id]) else None,
             if id in events then events[id] else [], if id in checkpoints then checkpoints[id] else [])
  }

  /** The tables, as the store that the steps of Board work on. */
  ghost function ViewOf(rows: map<string, DecisionRow>, ballots: map<string, seq<BallotRow>>, heads: map<string, Head>,
                        events: map<string, seq<Event>>, checkpoints: map<string, seq<Checkpoint>>,
                          receipts: map<string, Receipt>): Store
  {
    Store(map id | id in rows :: DecisionIn(rows, ballots, heads, events, checkpoints, id), receipts)
  }

  datatype AppendResult = Appended | DuplicateSerial | DuplicateKey

  class Repos {
    var rows: map<string, DecisionRow>
    var ballots: map<string, seq<BallotRow>>
    var heads: map<string, Head>
    var events: map<string, seq<Event>>
    var checkpoints: map<string, seq<Checkpoint>>
    var receipts: map<string, Receipt>

    /** Foreign keys: no row of another table without its decision. */
    ghost predicate Valid()
      reads this
    {
      ballots.Keys + heads.Keys + events.Keys + checkpoints.Keys <= rows.Keys
    }

    function BallotsOf(id: string): seq<BallotRow>
      reads this
    {
      if id in ballots then ballots[id] else []
    }

    function EventsOf(id: string): seq<Event>
      reads this
    {
      if id in events then events[id] else []
    }

    function CheckpointsOf(id: string): seq<Checkpoint>
      reads this
    {
      if id in checkpoints then checkpoints[id] else []
    }

    function HeadOf(id: string): Option<Head>
      reads this
    {
      if id in heads then Some(heads[id]) else None
    }

    /** All rows that belong to one decision. */
    function DecisionOf(id: string): Decision
      requires id in rows
      reads this
    {
      DecisionIn(rows, ballots, heads, events, checkpoints, id)
    }

    ghost function View(): Store
      reads this
    {
      ViewOf(rows, ballots, heads, events, checkpoints, receipts)
    }

    /** One decision, in the tables and in the view. */
    lemma At(id: string)
      ensures (id in rows <==> id in View().decisions) && View().receipts == receipts
      ensures id in rows ==> var d := View().decisions[id];
        && d == DecisionOf(id)
        && d.config == rows[id].config && d.setupCommitment == rows[id].setupCommitment && d.state == rows[id].state
        && d.ballots == BallotsOf(id) && d.head == HeadOf(id) && d.events == EventsOf(id)
            && d.checkpoints == CheckpointsOf(id)
    {
    }

    lemma SameKeys()
      ensures View().decisions.Keys == rows.Keys && View().receipts == receipts
    {
    }

    /** After a change to the rows of one decision only, the view differs from `before` in that decision. */
    lemma OneDecision(before: Store, id: string, d: Decision)
      requires rows.Keys == before.decisions.Keys + {id} && receipts == before.receipts
      requires id in rows && DecisionOf(id) == d
      requires forall x | x in before.decisions && x != id :: x in rows && DecisionOf(x) == before.decisions[x]
      ensures View() == Put(before, id, d)
    {
    }

    constructor ()
      ensures Valid() && View() == EMPTY.store
    {
      rows, ballots, heads, events, checkpoints, receipts := map[], map[], map[], map[], map[], map[];
    }

    // ---- table operations -----------------------------------------------------------------

    /** decisions.insert */
    method InsertDecision(id: string, row: DecisionRow)
      requires Valid() && id !in rows
      modifies this
      ensures Valid()
      ensures View() == Put(old(View()), id, Decision(row.config, row.setupCommitment, row.state, [], None, [], []))
    {
      ghost var before := View();
      rows := rows[id := row];
      OneDecision(before, id, Decision(row.config, row.setupCommitment, row.state, [], None, [], []));
    }

    /** decisions.setState */
    method SetState(id: string, state: LifecycleState)
      requires Valid() && id in rows
      modifies this
      ensures Valid() && rows.Keys == old(rows.Keys)
      ensures View() == Put(old(View()), id, old(DecisionOf(id)).(state := state))
    {
      ghost var before := View();
      rows := rows[id := rows[id].(state := state)];
      OneDecision(before, id, old(DecisionOf(id)).(state := state));
    }

    /** lifecycle.append */
    method AppendEvent(id: string, e: Event)
      requires Valid() && id in rows
      modifies this
      ensures Valid() && rows == old(rows)
      ensures View() == Put(old(View()), id, old(DecisionOf(id)).(events := old(EventsOf(id)) + [e]))
    {
      ghost var before := View();
      events := events[id := EventsOf(id) + [e]];
      OneDecision(before, id, old(DecisionOf(id)).(events := old(EventsOf(id)) + [e]));
    }

    /** checkpoints.append */
    method AppendCheckpoint(id: string, cp: Checkpoint)
      requires Valid() && id in rows
      modifies this
      ensures Valid() && rows == old(rows)
      ensures View() == Put(old(View()), id, old(DecisionOf(id)).(checkpoints := old(CheckpointsOf(id)) + [cp]))
    {
      ghost var before := View();
      checkpoints := checkpoints[id := CheckpointsOf(id) + [cp]];
      OneDecision(before, id, old(DecisionOf(id)).(checkpoints := old(CheckpointsOf(id)) + [cp]));
    }

    /** ballots.append: the UNIQUE index on serials and the UNIQUE constraint on keys. */
    method AppendBallot(id: string, row: BallotRow) returns (r: AppendResult)
      requires Valid() && id in rows
      modifies this
      ensures Valid() && rows == old(rows) && heads == old(heads) && receipts == old(receipts)
      ensures events == old(events) && checkpoints == old(checkpoints)
      ensures r == if row.serial.Some? && SerialExists(old(BallotsOf(id)), row.serial.value) then DuplicateSerial
                   else if FindKey(old(BallotsOf(id)), row.idempotencyKey).Some? then DuplicateKey else Appended
      ensures r.Appended? ==> BallotsOf(id) == old(BallotsOf(id)) + [row]
      ensures View() == if r.Appended?
        then Put(old(View()), id, old(DecisionOf(id)).(ballots := old(BallotsOf(id)) + [row]))
        else old(View())
    {
      ghost var before := View();
      hide FindKey, SerialExists;
      if row.serial.Some? && SerialExists(BallotsOf(id), row.serial.value) { return DuplicateSerial; }
      var clash := FindKey(BallotsOf(id), row.idempotencyKey);
      if clash.Some? { return DuplicateKey; }
      ballots := ballots[id := BallotsOf(id) + [row]];
      r := Appended;
      OneDecision(before, id, old(DecisionOf(id)).(ballots := old(BallotsOf(id)) + [row]));
    }

    /** head.set: refuses to lower an existing leaf count. */
    method SetHead(id: string, head: string, leafCount: int) returns (ok: bool)
      requires Valid() && id in rows
      modifies this
      ensures Valid() && rows == old(rows) && receipts == old(receipts)
      ensures events == old(events) && checkpoints == old(checkpoints)
      ensures ok == HeadAccepts(old(HeadOf(id)), leafCount)
      ensures View() == if ok
        then Put(old(View()), id, old(DecisionOf(id)).(head := Some(Head(head, leafCount))))
        else old(View())
    {
      ghost var before := View();
      if id in heads && heads[id].leafCount > leafCount { return false; }
      heads := heads[id := Head(head, leafCount)];
      ok := true;
      OneDecision(before, id, old(DecisionOf(id)).(head := Some(Head(head, leafCount))));
    }

    /** receipts.put: the leaf hash is the primary key. */
    method PutReceipt(receipt: Receipt) returns (ok: bool)
      requires Valid()
      modifies this
      ensures Valid() && rows == old(rows) && events == old(events) && checkpoints == old(checkpoints)
      ensures !ok ==> receipts == old(receipts)
      ensures ok == (receipt.ballotHash !in old(receipts))
      ensures View() == if ok
        then old(View()).(receipts := old(View()).receipts[receipt.ballotHash := receipt])
        else old(View())
    {
      if receipt.ballotHash in receipts { return false; }
      receipts := receipts[receipt.ballotHash := receipt];
      ok := true;
    }

    // ---- routes ------------------------------------------------------------------------------

    /** POST /decisions */
    method Create(env: Env, id: string, c: Config) returns (reply: Reply)
      requires this.Valid()
      modifies this
      ensures this.Valid() && (View(), reply) == CreateDecision(env, old(View()), id, c)
    {
      if !ValidConfig(c) { return Invalid; }
      if id in rows { return ServerError; }
      var commitment := SetupCommitment(env, SetupOf(env, c));
      InsertDecision(id, DecisionRow(c, commitment, if c.ballotMode == SecretBallots then Registration else Draft));
      reply := Done;
    }

    /** transitionHandler(to) */
    method Move(env: Env, id: string, to: LifecycleState, actor: string, now: int) returns (reply: Reply)
      requires this.Valid()
      modifies this
      ensures this.Valid() && (View(), reply) == Transition(env, old(View()), id, to, actor, now)
    {
      hide *;
      ghost var before := View();
      TransitionIs(env, before, id, to, actor, now);
      At(id);
      if id !in rows { return NotFound; }
      if rows[id].config.convener != actor { return Forbidden; }
      var from := rows[id].state;
      if !CanTransition(from, to) { return IllegalTransition; }
      ghost var d := before.decisions[id];
      AppendEvent(id, TransitionEvent(env, id, from, to, actor, now));
      PutAt(before, id, d.(events := d.events + [TransitionEvent(env, id, from, to, actor, now)]));
      At(id);
      SetState(id, to);
      PutAt(before, id, d.(events := d.events + [TransitionEvent(env, id, from, to, actor, now)], state := to));
      if to == Open && from in {Draft, Registration} {
        At(id);
        var ok := SetHead(id, RootText(env, []), 0);
        if !ok { return ServerError; }
      }
      reply := Done;
    }

    /** POST /decisions/:id/publish */
    method PublishRoute(env: Env, id: string, actor: string, now: int) returns (reply: Reply)
      requires this.Valid()
      modifies this
      ensures this.Valid() && (View(), reply) == Publish(env, old(View()), id, actor, now)
    {
      hide *;
      ghost var before := View();
      PublishIs(env, before, id, actor, now);
      At(id);
      if id !in rows { return NotFound; }
      if rows[id].config.convener != actor { return Forbidden; }
      var from := rows[id].state;
      if !CanTransition(from, Published) { return IllegalTransition; }
      ghost var d := before.decisions[id];
      AppendEvent(id, TransitionEvent(env, id, from, Published, actor, now));
      PutAt(before, id, d.(events := d.events + [TransitionEvent(env, id, from, Published, actor, now)]));
      At(id);
      SetState(id, Published);
      PutAt(before, id, d.(events := d.events + [TransitionEvent(env, id, from, Published, actor, now)],
        state := Published));
      At(id);
      var latest := LatestCheckpoint(CheckpointsOf(id));
      var prevRoot := if latest.Some? then Some(latest.value.root) else None;
      AppendCheckpoint(id, BuildCheckpoint(env, id, Leaves(BallotsOf(id)), prevRoot));
      reply := Done;
    }

    /** POST /decisions/:id/extend */
    method ExtendRoute(env: Env, id: string, closesAt: int, actor: string, now: int) returns (reply: Reply)
      requires this.Valid()
      modifies this
      ensures this.Valid() && (View(), reply) == Extend(env, old(View()), id, closesAt, actor, now)
    {
      hide *;
      ExtendIs(env, View(), id, closesAt, actor, now);
      At(id);
      if id !in rows { return NotFound; }
      if rows[id].config.convener != actor { return Forbidden; }
      if rows[id].state != Open { return IllegalTransition; }
      AppendEvent(id, ExtendEvent(env, id, closesAt, actor, now));
      reply := Done;
    }

    /** effectiveClose: one pass that keeps the latest amendment seen. */
    method ComputeEffectiveClose(id: string) returns (close: Option<int>)
      requires this.Valid() && id in rows
      ensures close == EffectiveClose(EventsOf(id), rows[id].config.schedule)
    {
      var latest: Option<Event> := None;
      var es := EventsOf(id);
      for i := 0 to |es|
        invariant latest == LatestExtend(es[..i])
      {
        assert es[..i + 1][..i] == es[..i];
        if IsExtend(es[i]) && (latest.None? || es[i].ts > latest.value.ts) {
          latest := Some(es[i]);
        }
      }
      assert es[..|es|] == es;
      close := if latest.Some? then latest.value.closesAt else rows[id].config.schedule.closesAt;
    }

    /** One decision closed by the server. */
    method CloseExpired(env: Env, id: string, now: int)
      requires this.Valid() && id in rows
      modifies this
      ensures this.Valid() && rows.Keys == old(rows.Keys)
      ensures View() == Put(old(View()), id, old(DecisionOf(id)).(
        events := old(EventsOf(id)) + [TransitionEvent(env, id, Open, Closed, "system:reconcile", now)],
          state := Closed))
    {
      hide *;
      ghost var st := View();
      At(id);
      var e := TransitionEvent(env, id, Open, Closed, "system:reconcile", now);
      AppendEvent(id, e);
      PutAt(st, id, st.decisions[id].(events := st.decisions[id].events + [e]));
      At(id);
      SetState(id, Closed);
    }

    /**
     * reconcileExpiredDecisions over the open decisions, in whatever order they are listed; returns those it
     * closed.
     */
    method ReconcileExpired(env: Env, now: int) returns (closed: seq<string>)
      requires this.Valid()
      modifies this
      ensures this.Valid() && View() == Reconcile(env, old(View()), now)
      ensures forall id :: id in closed <==> IsExpired(old(View()), id, now)
      ensures forall i, j | 0 <= i < j < |closed| :: closed[i] != closed[j]
    {
      hide *;
      closed := [];
      var todo := set id | id in rows && rows[id].state == Open;
      ghost var before, openOnes := View(), todo;
      SameKeys();
      forall id | id in before.decisions
        ensures id in rows && before.decisions[id] == SoFar(env, before, todo, id, now)
        ensures id in todo <==> before.decisions[id].state == Open
      {
        At(id);
        SoFarMeans(env, before, todo, id, now);
        ReconciledMeans(env, id, before.decisions[id], now);
      }
      NoneClosed(before, openOnes, now);
      while todo != {}
        invariant this.Valid() && todo <= openOnes <= before.decisions.Keys == rows.Keys
        invariant View().receipts == before.receipts && View().decisions.Keys == before.decisions.Keys
        invariant forall id | id in before.decisions :: View().decisions[id] == SoFar(env, before, todo, id, now)
        invariant ClosedAre(before, openOnes, todo, closed, now)
        decreases todo
      {
        var id :| id in todo;
        ghost var st, d := View(), before.decisions[id];
        At(id);
        SoFarMeans(env, before, todo, id, now);
        ReconciledMeans(env, id, d, now);
        ExpiredMeans(d, now);
        var close := ComputeEffectiveClose(id);
        CloseOne(before, openOnes, todo, closed, id, now);
        if close.Some? && now > close.value {
          CloseExpired(env, id, now);
          closed := closed + [id];
        }
        SettleOne(env, before, todo, id, st, View(), now);
        todo := todo - {id};
      }
      AllClosed(before, openOnes, closed, now);
      ReconcileRows(env, before, View(), now);
    }

    /** The checks before anything else. */
    method Admit(req: CastRequest, now: int) returns (refusal: Option<CastReply>)
      requires this.Valid()
      ensures refusal == Admission(View(), req, now)
    {
      hide View, DecisionOf, EffectiveClose;
      At(req.decisionId);
      if req.decisionId !in rows { return Some(NoSuchDecision); }
      var row := rows[req.decisionId];
      ExpiredMeans(View().decisions[req.decisionId], now);
      hide Expired;
      if row.state != Open { return Some(DecisionClosed); }
      if row.config.maxParticipants.Some? && |BallotsOf(req.decisionId)| >= row.config.maxParticipants.value {
        return Some(DecisionFull);
      }
      var close := ComputeEffectiveClose(req.decisionId);
      if close.Some? && now > close.value { return Some(DecisionClosed); }
      if row.config.ballotMode == SecretBallots
        && (req.serial == "" || req.credentialSig == "" || row.config.issuer.None?) {
        return Some(Ineligible);
      }
      refusal := None;
    }

    /** The statements of the cast transaction, up to the first that fails. */
    method CastStatements(env: Env, id: string, payload: Payload, key: string, serial: Option<string>)
        returns (reply: CastReply)
      requires this.Valid() && id in rows
      modifies this
      ensures this.Valid() && rows == old(rows) && events == old(events) && checkpoints == old(checkpoints)
      ensures reply == Commit(env, old(View()), id, payload, key, serial).1
      ensures !RollsBack(reply) ==> View() == Commit(env, old(View()), id, payload, key, serial).0
      ensures RollsBack(reply) ==> receipts == old(receipts)
    {
      hide *;
      ghost var before := View();
      At(id);
      CommitIs(env, before, id, payload, key, serial);
      WhichRollBack();
      ghost var d := before.decisions[id];
      if serial.Some? && SerialExists(BallotsOf(id), serial.value) { return SerialUsed; }
      var head := HeadOf(id);
      var prevHead := if head.Some? then head.value.head else "";
      var logSeq := |BallotsOf(id)|;
      var ballotHash := BallotHash(env, id, logSeq, payload, serial);
      var row := BallotRow(payload, serial, key, logSeq, prevHead, ballotHash);
      var appended := AppendBallot(id, row);
      if appended == DuplicateKey {
        At(id);
        var stored := FindKey(BallotsOf(id), key);
        reply := AnswerDuplicate(receipts, BallotsOf(id)[stored.value], payload);
        AnswersStay(receipts, BallotsOf(id)[stored.value], payload);
        return;
      }
      PutAt(before, id, d.(ballots := d.ballots + [row]));
      At(id);
      var newRoot := RootText(env, Leaves(BallotsOf(id)));
      var headOk := SetHead(id, newRoot, logSeq + 1);
      if !headOk { return HeadRefused; }
      PutAt(before, id, d.(ballots := d.ballots + [row], head := Some(Head(newRoot, logSeq + 1))));
      At(id);
      var receipt := ReceiptFor(env, id, logSeq, ballotHash, newRoot);
      ReceiptKey(env, id, logSeq, ballotHash, newRoot);
      var receiptOk := PutReceipt(receipt);
      if !receiptOk { return ReceiptClash; }
      reply := Accepted(receipt);
    }

    /** The cast transaction: when a statement fails, every table is as it was before. */
    method CommitCast(env: Env, id: string, payload: Payload, key: string, serial: Option<string>)
        returns (reply: CastReply)
      requires this.Valid() && id in rows
      modifies this
      ensures this.Valid() && rows == old(rows) && (View(), reply) == Commit(env, old(View()), id, payload, key, serial)
    {
      hide Commit, BallotsOf;
      var savedBallots, savedHeads := ballots, heads;
      ghost var before := View();
      At(id);
      FailedCommit(env, before, id, payload, key, serial);
      reply := CastStatements(env, id, payload, key, serial);
      if RollsBack(reply) {
        Restore(savedBallots, savedHeads);
      }
    }

    /** The tables that the transaction had touched, put back. */
    method Restore(savedBallots: map<string, seq<BallotRow>>, savedHeads: map<string, Head>)
      modifies this`ballots, this`heads
      ensures ballots == savedBallots && heads == savedHeads
    {
      ballots, heads := savedBallots, savedHeads;
    }

    /** What follows admission: credential or eligibility, the ballot itself, the transaction. */
    method FinishCast(env: Env, req: CastRequest) returns (reply: CastReply)
      requires this.Valid() && req.decisionId in rows
      modifies this
      ensures this.Valid() && (View(), reply) == AfterAdmission(env, old(View()), req)
    {
      hide SerialExists, SchemaOk, Commit, TallyTheorems.CreditsSpent;
      var id, c := req.decisionId, rows[req.decisionId].config;
      At(id);
      var serial: Option<string> := None;
      if c.ballotMode == SecretBallots {
        if c.issuer.None? { return Ineligible; }
        var ok := env.credentialOk(c.issuer.value.publicKeyPem, id + "|" + req.serial, req.credentialSig);
        if !ok { return Ineligible; }
        if SerialExists(BallotsOf(id), req.serial) { return SerialUsed; }
        serial := Some(req.serial);
      } else if !req.eligible {
        return Ineligible;
      }
      if req.payload.None? || !SchemaOk(c.scheme, |c.options|, req.payload.value) { return InvalidBallot; }
      if c.scheme == QuadraticVote && req.payload.value.Quadratic? {
        var spent := TallyTheorems.SpendCredits(req.payload.value.votes);
        if spent > TallyTheorems.QUADRATIC_CREDITS { return BudgetExceeded; }
      }
      if req.idempotencyKey == "" { return KeyRequired; }
      reply := CommitCast(env, id, req.payload.value, req.idempotencyKey, serial);
    }

    /** POST /ballots, from the first check to the reply, without a pause. */
    method CastRoute(env: Env, req: CastRequest, now: int) returns (reply: CastReply)
      requires this.Valid()
      modifies this
      ensures this.Valid() && (View(), reply) == Cast(env, old(View()), req, now)
    {
      hide Admission, AfterAdmission;
      var refusal := Admit(req, now);
      if refusal.Some? { return refusal.value; }
      assert req.decisionId in rows by { AdmissionFinds(View(), req, now); }
      reply := FinishCast(env, req);
    }

    /** Any request, with the secret-mode casts that wait for their credential check. */
    method Serve(env: Env, waiting: seq<CastRequest>, step: Step) returns (waiting': seq<CastRequest>)
      requires this.Valid()
      modifies this
      ensures this.Valid() && System(View(), waiting') == Apply(env, System(old(View()), waiting), step)
    {
      hide View, CreateDecision, Transition, Publish, Extend, Reconcile, Cast, Admission, AfterAdmission;
      SameKeys();
      waiting' := waiting;
      match step
      case DoCreate(id, c) => var _ := Create(env, id, c);
      case DoTransition(id, to, actor, now) => if Served(to) { var _ := Move(env, id, to, actor, now); }
      case DoPublish(id, actor, now) => var _ := PublishRoute(env, id, actor, now);
      case DoExtend(id, closesAt, actor, now) => var _ := ExtendRoute(env, id, closesAt, actor, now);
      case DoReconcile(now) => var _ := ReconcileExpired(env, now);
      case DoCast(req, now) => var _ := CastRoute(env, req, now);
      case Begin(req, now) =>
        AdmissionFinds(View(), req, now);
        At(req.decisionId);
        var refusal := Admit(req, now);
        if refusal.None? && rows[req.decisionId].config.ballotMode == SecretBallots { waiting' := waiting + [req]; }
      case Resume(k) =>
        if k < |waiting| && waiting[k].decisionId in rows {
          var _ := FinishCast(env, waiting[k]);
          waiting' := waiting[..k] + waiting[k + 1..];
        }
    }
  }

  /** A server started on empty tables that serves any requests in any interleaving. */
  method ServeAll(env: Env, steps: seq<Step>) returns (repos: Repos, waiting: seq<CastRequest>)
    ensures fresh(repos) && repos.Valid() && System(repos.View(), waiting) == Run(env, steps)
    ensures SystemOk(env, Run(env, steps))
  {
    hide Apply, SystemOk;
    repos := new Repos();
    waiting := [];
    for i := 0 to |steps|
      invariant fresh(repos) && repos.Valid() && System(repos.View(), waiting) == Run(env, steps[..i])
    {
      RunStep(env, steps[..i], steps[i]);
      assert steps[..i] + [steps[i]] == steps[..i + 1];
      waiting := repos.Serve(env, waiting, steps[i]);
    }
    assert steps[..|steps|] == steps;
    ReachableOk(env, steps);
  }

  // ---- the steps of Board, as replacements of one decision ---------------------------------------------

  lemma TransitionIs(env: Env, st: Store, id: string, to: LifecycleState, actor: string, now: int)
    ensures Transition(env, st, id, to, actor, now) ==
      if id !in st.decisions then (st, NotFound)
      else var d := st.decisions[id];
        if d.config.convener != actor then (st, Forbidden)
        else if !CanTransition(d.state, to) then (st, IllegalTransition)
        else var moved := d.(events := d.events + [TransitionEvent(env, id, d.state, to, actor, now)], state := to);
          if !(to == Open && d.state in {Draft, Registration}) then (Put(st, id, moved), Done)
          else if HeadAccepts(d.head, 0) then (Put(st, id, moved.(head := Some(Head(RootText(env, []), 0)))), Done)
          else (Put(st, id, moved), ServerError)
  {
    hide TransitionEvent, RootText, CanTransition, HeadAccepts;
  }

  lemma PublishIs(env: Env, st: Store, id: string, actor: string, now: int)
    ensures Publish(env, st, id, actor, now) ==
      if id !in st.decisions then (st, NotFound)
      else var d := st.decisions[id];
        if d.config.convener != actor then (st, Forbidden)
        else if !CanTransition(d.state, Published) then (st, IllegalTransition)
        else
          var latest := LatestCheckpoint(d.checkpoints);
          var cp := BuildCheckpoint(env, id, Leaves(d.ballots), if latest.Some? then Some(latest.value.root) else None);
          (Put(st, id, d.(events := d.events + [TransitionEvent(env, id, d.state, Published, actor, now)],
                          state := Published, checkpoints := d.checkpoints + [cp])), Done)
  {
    hide TransitionEvent, BuildCheckpoint, CanTransition, LatestCheckpoint, Leaves;
  }

  lemma ExtendIs(env: Env, st: Store, id: string, closesAt: int, actor: string, now: int)
    ensures Extend(env, st, id, closesAt, actor, now) ==
      if id !in st.decisions then (st, NotFound)
      else var d := st.decisions[id];
        if d.config.convener != actor then (st, Forbidden)
        else if d.state != Open then (st, IllegalTransition)
        else (Put(st, id, d.(events := d.events + [ExtendEvent(env, id, closesAt, actor, now)])), Done)
  {
    hide ExtendEvent;
  }

  lemma CommitIs(env: Env, st: Store, id: string, payload: Payload, key: string, serial: Option<string>)
    requires id in st.decisions
    ensures Commit(env, st, id, payload, key, serial) ==
      var d := st.decisions[id];
      if serial.Some? && SerialExists(d.ballots, serial.value) then (st, SerialUsed)
      else
        var n, stored := |d.ballots|, FindKey(d.ballots, key);
        var hash := BallotHash(env, id, n, payload, serial);
        if stored.Some? then (st, AnswerDuplicate(st.receipts, d.ballots[stored.value], payload))
        else
          var prevHead := if d.head.Some? then d.head.value.head else "";
          var ballots' := d.ballots + [BallotRow(payload, serial, key, n, prevHead, hash)];
          var root := RootText(env, Leaves(ballots'));
          if !HeadAccepts(d.head, n + 1) then (st, HeadRefused)
          else if hash in st.receipts then (st, ReceiptClash)
          else
            var receipt := ReceiptFor(env, id, n, hash, root);
            (Put(st, id, d.(ballots := ballots', head := Some(Head(root, n + 1)))).(receipts :=
              st.receipts[hash := receipt]),
             Accepted(receipt))
  {
    hide RootText, BallotHash, ReceiptFor, FindKey, Leaves, AnswerDuplicate, SerialExists, HeadAccepts;
  }

  lemma AnswersStay(receipts: map<string, Receipt>, stored: BallotRow, payload: Payload)
    ensures !RollsBack(AnswerDuplicate(receipts, stored, payload))
  {
    hide Encode, PayloadJson;
  }

  /** A decision while the loop of reconcileExpiredDecisions has `todo` ahead of it. */
  ghost function SoFar(env: Env, before: Store, todo: set<string>, id: string, now: int): Decision
    requires id in before.decisions
  {
    if id in todo then before.decisions[id] else Reconciled(env, id, before.decisions[id], now)
  }

  lemma SoFarMeans(env: Env, before: Store, todo: set<string>, id: string, now: int)
    requires id in before.decisions
    ensures SoFar(env, before, todo, id, now)
      == if id in todo then before.decisions[id] else Reconciled(env, id, before.decisions[id], now)
  {
    hide Reconciled;
  }

  lemma ReconciledMeans(env: Env, id: string, d: Decision, now: int)
    ensures Reconciled(env, id, d, now)
      == if d.state == Open && Expired(d, now)
         then d.(events := d.events + [TransitionEvent(env, id, Open, Closed, "system:reconcile", now)],
                 state := Closed)
         else d
  {
  }

  /** An open decision past its effective close. */
  ghost predicate IsExpired(st: Store, id: string, now: int) {
    id in st.decisions && st.decisions[id].state == Open && Expired(st.decisions[id], now)
  }

  /** The decisions closed while `todo` lies ahead, each once. */
  ghost predicate ClosedAre(before: Store, openOnes: set<string>, todo: set<string>, closed: seq<string>, now: int) {
    && (forall id :: id in closed <==>
          id in openOnes - todo && id in before.decisions && Expired(before.decisions[id], now))
    && forall i, j | 0 <= i < j < |closed| :: closed[i] != closed[j]
  }

  lemma NoneClosed(before: Store, openOnes: set<string>, now: int)
    ensures ClosedAre(before, openOnes, openOnes, [], now)
  {
    hide Expired;
  }

  lemma CloseOne(before: Store, openOnes: set<string>, todo: set<string>, closed: seq<string>, id: string, now: int)
    requires ClosedAre(before, openOnes, todo, closed, now) && id in todo && todo <= openOnes && id in before.decisions
    ensures ClosedAre(before, openOnes, todo - {id},
                      if Expired(before.decisions[id], now) then closed + [id] else closed, now)
  {
    hide Expired;
  }

  lemma AllClosed(before: Store, openOnes: set<string>, closed: seq<string>, now: int)
    requires ClosedAre(before, openOnes, {}, closed, now)
    requires forall id | id in before.decisions :: id in openOnes <==> before.decisions[id].state == Open
    ensures forall id :: id in closed <==> IsExpired(before, id, now)
    ensures forall i, j | 0 <= i < j < |closed| :: closed[i] != closed[j]
  {
    hide Expired;
  }

  /** One pass of the loop settles one decision more. */
  lemma SettleOne(env: Env, before: Store, todo: set<string>, id: string, st: Store, st': Store, now: int)
    requires id in todo && id in before.decisions && st.decisions.Keys == before.decisions.Keys
    requires forall x | x in before.decisions :: st.decisions[x] == SoFar(env, before, todo, x, now)
    requires var d := Reconciled(env, id, before.decisions[id], now);
      st' == Put(st, id, d) || (st' == st && d == before.decisions[id])
    ensures st'.receipts == st.receipts && st'.decisions.Keys == before.decisions.Keys
    ensures forall x | x in before.decisions :: st'.decisions[x] == SoFar(env, before, todo - {id}, x, now)
  {
    hide Reconciled;
  }

  lemma ReconcileRows(env: Env, st: Store, st': Store, now: int)
    requires st'.receipts == st.receipts && st'.decisions.Keys == st.decisions.Keys
    requires forall id | id in st.decisions :: st'.decisions[id] == SoFar(env, st, {}, id, now)
    ensures st' == Reconcile(env, st, now)
  {
    assert st'.decisions == Reconcile(env, st, now).decisions;
  }

  /** The replies that come with an aborted transaction. */
  predicate RollsBack(reply: CastReply) { reply.HeadRefused? || reply.ReceiptClash? }

  lemma WhichRollBack()
    ensures RollsBack(HeadRefused) && RollsBack(ReceiptClash) && !RollsBack(SerialUsed)
    ensures forall receipt :: !RollsBack(Accepted(receipt))
  {
  }

  lemma FailedCommit(env: Env, st: Store, id: string, payload: Payload, key: string, serial: Option<string>)
    requires id in st.decisions
    ensures var (st', reply) := Commit(env, st, id, payload, key, serial); RollsBack(reply) ==> st' == st
  {
    hide RootText, BallotHash, ReceiptFor, FindKey, Leaves, AnswerDuplicate, SerialExists;
  }

  lemma ReceiptKey(env: Env, id: string, position: int, ballotHash: string, root: string)
    ensures ReceiptFor(env, id, position, ballotHash, root).ballotHash == ballotHash
  {
  }

  lemma AdmissionFinds(st: Store, req: CastRequest, now: int)
    ensures Admission(st, req, now).None? ==> req.decisionId in st.decisions
  {
  }

  lemma ExpiredMeans(d: Decision, now: int)
    ensures var close := EffectiveClose(d.events, d.config.schedule);
      Expired(d, now) <==> close.Some? && now > close.value
  {
  }
}
