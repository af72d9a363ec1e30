/** Every answer to an admitted cast, and exactly when it is given. */
module BoardRefusals {
  import opened Basics
  import opened Tallies
  import opened Wire
  import opened Board
  import opened BoardSafety
  import opened BoardRuns
  import opened BoardAccept
  import opened BoardReplay
  import Json
  import TallyTheorems

  /** In secret mode a credential of the decision's own issuer, in open mode a pass of the gate. */
  predicate Vetted(env: Env, d: Decision, req: CastRequest) {
    if d.config.ballotMode == SecretBallots then
      && d.config.issuer.Some?
      && env.credentialOk(d.config.issuer.value.publicKeyPem, req.decisionId + "|" + req.serial, req.credentialSig)
    else req.eligible
  }

  /** The credential has voted already. */
  predicate Spent(d: Decision, req: CastRequest) {
    d.config.ballotMode == SecretBallots && exists i :: 0 <= i < |d.ballots| && d.ballots[i].serial == Some(req.serial)
  }

  predicate ValidBallot(d: Decision, req: CastRequest) {
    req.payload.Some? && SchemaOk(d.config.scheme, |d.config.options|, req.payload.value)
  }

  predicate Overspent(req: CastRequest) {
    req.payload.Some? && req.payload.value.Quadratic? && TallyTheorems.CreditsSpent(req.payload.value.votes) > 100
  }

  /** Row `i` was cast under the key. */
  predicate CastUnder(ballots: seq<BallotRow>, key: string, i: int) {
    0 <= i < |ballots| && ballots[i].idempotencyKey == key
  }

  ghost predicate KeyUsed(ballots: seq<BallotRow>, key: string) { exists i: nat :: CastUnder(ballots, key, i) }

  /** A replay hands out the row's own receipt for its own ballot; a conflict is about another ballot. */
  predicate Repeats(st: Store, row: BallotRow, req: CastRequest, reply: CastReply) {
    && (reply.Replayed? ==> req.payload == Some(row.payload) && row.ballotHash in st.receipts
                            && reply.receipt == st.receipts[row.ballotHash])
    && (reply == IdempotencyConflict ==> req.payload.Some? && req.payload.value != row.payload)
  }

  lemma EntitledIff(env: Env, d: Decision, req: CastRequest)
    ensures Entitled(env, d, req) <==> Vetted(env, d, req) && !Spent(d, req)
    ensures WellCast(d, req) <==> ValidBallot(d, req) && !Overspent(req)
  {
    hide SchemaOk, TallyTheorems.CreditsSpent;
  }

  /** The answers of the transaction when its serial is unused and its key new. */
  lemma NewKeyReplies(env: Env, st: Store, id: string, payload: Payload, key: string, serial: Option<string>)
    requires id in st.decisions && HeadAccepts(st.decisions[id].head, |st.decisions[id].ballots| + 1)
    requires serial.Some? ==> !SerialExists(st.decisions[id].ballots, serial.value)
    requires FindKey(st.decisions[id].ballots, key).None?
    ensures var reply := Commit(env, st, id, payload, key, serial).1;
      if BallotHash(env, id, |st.decisions[id].ballots|, payload, serial) in st.receipts
      then reply == ReceiptClash else reply.Accepted?
  {
    hide RootText, BallotHash, ReceiptFor, FindKey, Leaves, AnswerDuplicate, SerialExists;
  }

  lemma OldKeyReplies(env: Env, st: Store, id: string, payload: Payload, key: string, serial: Option<string>, i: nat)
    requires id in st.decisions && DecisionOk(env, id, st.decisions[id], st.receipts)
    requires serial.Some? ==> !SerialExists(st.decisions[id].ballots, serial.value)
    requires FindKey(st.decisions[id].ballots, key) == Some(i)
    ensures var row, reply := st.decisions[id].ballots[i], Commit(env, st, id, payload, key, serial).1;
      && row.ballotHash in st.receipts
      && reply == (if row.payload == payload then Replayed(st.receipts[row.ballotHash]) else IdempotencyConflict)
  {
    PayloadTextIff(st.decisions[id].ballots[i].payload, payload);
    hide RootText, BallotHash, ReceiptFor, FindKey, Leaves, SerialExists, Json.Encode, PayloadJson, RowOk,
      CheckpointsOk, HeadOk, LifecycleOk, SetupCommitment, SetupOf, ValidConfig, DistinctCasts;
    assert ReceiptOk(env, id, st.decisions[id].ballots, st.receipts, i);
  }

  /** The checks before the transaction, each with its own answer, in the order of the route. */
  lemma ChecksReply(env: Env, st: Store, req: CastRequest)
    requires req.decisionId in st.decisions
    ensures var d, reply := st.decisions[req.decisionId], AfterAdmission(env, st, req).1;
      if !Vetted(env, d, req) then reply == Ineligible
      else if Spent(d, req) then reply == SerialUsed
      else if !ValidBallot(d, req) then reply == InvalidBallot
      else if Overspent(req) then reply == BudgetExceeded
      else if req.idempotencyKey == "" then reply == KeyRequired
      else reply == Commit(env, st, req.decisionId, req.payload.value, req.idempotencyKey, SerialOf(d, req)).1
  {
    var d := st.decisions[req.decisionId];
    assert SerialExists(d.ballots, req.serial) <==>
      exists i :: 0 <= i < |d.ballots| && d.ballots[i].serial == Some(req.serial);
    if ValidBallot(d, req) { BudgetOnlyQuadratic(d, req); }
    hide Commit, SerialExists, SchemaOk, TallyTheorems.CreditsSpent;
  }

  /** What is answered to a request whose ballot reaches the log: a replay, a conflict, a clash or acceptance. */
  lemma LandingReply(env: Env, st: Store, req: CastRequest)
    requires StoreOk(env, st) && req.decisionId in st.decisions
    requires Entitled(env, st.decisions[req.decisionId], req) && req.payload.Some?
    ensures var d := st.decisions[req.decisionId];
      var reply := Commit(env, st, req.decisionId, req.payload.value, req.idempotencyKey, SerialOf(d, req)).1;
      && (forall i: nat | CastUnder(d.ballots, req.idempotencyKey, i) :: Repeats(st, d.ballots[i], req, reply))
      && if KeyUsed(d.ballots, req.idempotencyKey) then reply.Replayed? || reply == IdempotencyConflict
         else if BallotHash(env, req.decisionId, |d.ballots|, req.payload.value, SerialOf(d, req)) in st.receipts
         then reply == ReceiptClash else reply.Accepted?
  {
    var id, d, key := req.decisionId, st.decisions[req.decisionId], req.idempotencyKey;
    var reply := Commit(env, st, id, req.payload.value, key, SerialOf(d, req)).1;
    hide *;
    StoreAt(env, st, id);
    HeadNeverRefuses(env, id, d, st.receipts);
    SerialsOf(env, d, req);
    LogsAreDistinct(env, st, id);
    KeyFound(d.ballots, key);
    if FindKey(d.ballots, key).Some? {
      var i := FindKey(d.ballots, key).value;
      OldKeyReplies(env, st, id, req.payload.value, key, SerialOf(d, req), i);
      RepeatsItsRow(st, d.ballots[i], req, reply);
    } else {
      NewKeyReplies(env, st, id, req.payload.value, key, SerialOf(d, req));
    }
  }

  lemma RepeatsItsRow(st: Store, row: BallotRow, req: CastRequest, reply: CastReply)
    requires row.ballotHash in st.receipts && req.payload.Some?
    requires reply
      == (if row.payload == req.payload.value then Replayed(st.receipts[row.ballotHash]) else IdempotencyConflict)
    ensures Repeats(st, row, req, reply)
  {
  }

  /** The search finds the one row cast under a key. */
  lemma KeyFound(ballots: seq<BallotRow>, key: string)
    requires DistinctCasts(ballots)
    ensures forall i: nat | CastUnder(ballots, key, i) :: i < |ballots| && FindKey(ballots, key) == Some(i)
    ensures if FindKey(ballots, key).Some? then CastUnder(ballots, key, FindKey(ballots, key).value)
        && KeyUsed(ballots, key)
            else !KeyUsed(ballots, key)
  {
    hide DistinctCasts, FindKey;
    forall i: nat | CastUnder(ballots, key, i) ensures FindKey(ballots, key) == Some(i) { FoundRow(ballots, i, key); }
  }

  /** Each check refuses exactly for its own reason, in the order of the route. */
  predicate ChecksAnswer(env: Env, d: Decision, req: CastRequest, reply: CastReply) {
    && (reply == Ineligible <==> !Vetted(env, d, req))
    && (reply == SerialUsed <==> Vetted(env, d, req) && Spent(d, req))
    && (reply == InvalidBallot <==> Entitled(env, d, req) && !ValidBallot(d, req))
    && (reply == BudgetExceeded <==> Entitled(env, d, req) && ValidBallot(d, req) && Overspent(req))
    && (reply == KeyRequired <==> Entitled(env, d, req) && WellCast(d, req) && req.idempotencyKey == "")
  }

  /** A key that is stored is answered from its row, another by acceptance unless its leaf hash is taken. */
  ghost predicate LogAnswers(env: Env, st: Store, req: CastRequest, reply: CastReply)
    requires req.decisionId in st.decisions
  {
    var d, key := st.decisions[req.decisionId], req.idempotencyKey;
    && (reply.Replayed? || reply == IdempotencyConflict
        <==> Entitled(env, d, req) && WellCast(d, req) && key != "" && KeyUsed(d.ballots, key))
    && (forall i: nat | CastUnder(d.ballots, key, i) :: Repeats(st, d.ballots[i], req, reply))
    && (reply == ReceiptClash <==> Fits(env, d, req) && !WouldLand(env, st, req))
    && (reply.Accepted? <==> WouldLand(env, st, req))
  }

  lemma ChecksInOrder(env: Env, st: Store, req: CastRequest)
    requires StoreOk(env, st) && req.decisionId in st.decisions
    ensures ChecksAnswer(env, st.decisions[req.decisionId], req, AfterAdmission(env, st, req).1)
  {
    hide Vetted, Spent, ValidBallot, Overspent, Entitled, WellCast, Commit, AfterAdmission, BallotHash, StoreOk,
      CastUnder, SerialOf;
    ChecksReply(env, st, req);
    EntitledIff(env, st.decisions[req.decisionId], req);
    ValidHasPayload(st.decisions[req.decisionId], req);
    if Entitled(env, st.decisions[req.decisionId], req) && req.payload.Some? { LandingKinds(env, st, req); }
  }

  /** The transaction answers in four ways. */
  lemma LandingKinds(env: Env, st: Store, req: CastRequest)
    requires StoreOk(env, st) && req.decisionId in st.decisions
    requires Entitled(env, st.decisions[req.decisionId], req) && req.payload.Some?
    ensures var d := st.decisions[req.decisionId];
      var reply := Commit(env, st, req.decisionId, req.payload.value, req.idempotencyKey, SerialOf(d, req)).1;
      reply.Replayed? || reply == IdempotencyConflict || reply == ReceiptClash || reply.Accepted?
  {
    hide *;
    LandingReply(env, st, req);
  }

  /** Whether the request gets as far as the transaction. */
  lemma GetsThrough(env: Env, st: Store, req: CastRequest)
    requires req.decisionId in st.decisions
    ensures var d, reply := st.decisions[req.decisionId], AfterAdmission(env, st, req).1;
      if Entitled(env, d, req) && WellCast(d, req) && req.idempotencyKey != ""
      then req.payload.Some?
           && reply == Commit(env, st, req.decisionId, req.payload.value, req.idempotencyKey, SerialOf(d, req)).1
      else reply in {Ineligible, SerialUsed, InvalidBallot, BudgetExceeded, KeyRequired}
  {
    hide *;
    ChecksReply(env, st, req);
    EntitledIff(env, st.decisions[req.decisionId], req);
    ValidHasPayload(st.decisions[req.decisionId], req);
  }

  lemma LogInOrder(env: Env, st: Store, req: CastRequest)
    requires StoreOk(env, st) && req.decisionId in st.decisions
    ensures LogAnswers(env, st, req, AfterAdmission(env, st, req).1)
  {
    var d := st.decisions[req.decisionId];
    var reply := AfterAdmission(env, st, req).1;
    hide *;
    GetsThrough(env, st, req);
    FitsMeans(env, d, req);
    LandsMeans(env, st, req);
    UnusedKey(d.ballots, req.idempotencyKey);
    if Entitled(env, d, req) && WellCast(d, req) && req.idempotencyKey != "" {
      LandingReply(env, st, req);
      HashIs(env, d, req);
    } else {
      NothingRepeated(st, d.ballots, req, reply);
    }
    AnswersTogether(env, st, req, reply);
  }

  lemma AnswersTogether(env: Env, st: Store, req: CastRequest, reply: CastReply)
    requires req.decisionId in st.decisions
    requires var d, key := st.decisions[req.decisionId], req.idempotencyKey;
      && (reply.Replayed? || reply == IdempotencyConflict
          <==> Entitled(env, d, req) && WellCast(d, req) && key != "" && KeyUsed(d.ballots, key))
      && (forall i: nat | CastUnder(d.ballots, key, i) :: Repeats(st, d.ballots[i], req, reply))
      && (reply == ReceiptClash <==> Fits(env, d, req) && !WouldLand(env, st, req))
      && (reply.Accepted? <==> WouldLand(env, st, req))
    ensures LogAnswers(env, st, req, reply)
  {
    hide Entitled, WellCast, Fits, WouldLand, CastUnder, KeyUsed, Repeats;
  }

  lemma NothingRepeated(st: Store, ballots: seq<BallotRow>, req: CastRequest, reply: CastReply)
    requires !reply.Replayed? && reply != IdempotencyConflict
    ensures forall i: nat | i < |ballots| :: Repeats(st, ballots[i], req, reply)
  {
  }

  lemma ValidHasPayload(d: Decision, req: CastRequest)
    ensures ValidBallot(d, req) ==> req.payload.Some?
  {
  }

  lemma UnusedKey(ballots: seq<BallotRow>, key: string)
    ensures (forall i | 0 <= i < |ballots| :: ballots[i].idempotencyKey != key) <==> !KeyUsed(ballots, key)
    ensures forall i: nat | CastUnder(ballots, key, i) :: i < |ballots|
  {
    assert forall i: nat | i < |ballots| :: CastUnder(ballots, key, i) <==> ballots[i].idempotencyKey == key;
  }

  /** In every reachable state: so are paused casts answered, and those that are admitted. */
  lemma EveryAnswerFits(env: Env, steps: seq<Step>, req: CastRequest, now: int)
    requires req.decisionId in Run(env, steps).store.decisions
    ensures var st := Run(env, steps).store;
      var reply := AfterAdmission(env, st, req).1;
      && ChecksAnswer(env, st.decisions[req.decisionId], req, reply) && LogAnswers(env, st, req, reply)
      && (Admission(st, req, now).None? ==> Cast(env, st, req, now).1 == reply)
  {
    var st := Run(env, steps).store;
    CastIsAdmission(env, st, req, now);
    hide *;
    ReachableOk(env, steps);
    SystemAt(env, Run(env, steps), 0);
    ChecksInOrder(env, st, req);
    LogInOrder(env, st, req);
  }

  lemma CastIsAdmission(env: Env, st: Store, req: CastRequest, now: int)
    requires req.decisionId in st.decisions
    ensures Admission(st, req, now).None? ==> Cast(env, st, req, now) == AfterAdmission(env, st, req)
  {
    hide Admission, AfterAdmission;
  }
}
