/** Exactly when a cast that has been admitted is accepted, read off the tables before the call. */
module BoardAccept {
  import opened Basics
  import opened Tallies
  import opened Wire
  import opened Board
  import opened BoardSafety
  import opened BoardRuns
  import Hex
  import TallyTheorems

  /** The right to cast: an unused credential that checks out, or the eligibility gate of open mode. */
  predicate Entitled(env: Env, d: Decision, req: CastRequest) {
    if d.config.ballotMode == SecretBallots then
      && d.config.issuer.Some?
      && env.credentialOk(d.config.issuer.value.publicKeyPem, req.decisionId + "|" + req.serial, req.credentialSig)
      && !SerialExists(d.ballots, req.serial)
    else req.eligible
  }

  /** A ballot of the decision's kind, in range and within the quadratic budget. */
  predicate WellCast(d: Decision, req: CastRequest) {
    && req.payload.Some? && SchemaOk(d.config.scheme, |d.config.options|, req.payload.value)
    && (req.payload.value.Quadratic?
        ==> TallyTheorems.CreditsSpent(req.payload.value.votes) <= TallyTheorems.QUADRATIC_CREDITS)
  }

  /** All that a voter must bring: the right to cast, a valid ballot, and a key not used before. */
  predicate Fits(env: Env, d: Decision, req: CastRequest) {
    && Entitled(env, d, req) && WellCast(d, req)
    && req.idempotencyKey != "" && forall i | 0 <= i < |d.ballots| :: d.ballots[i].idempotencyKey != req.idempotencyKey
  }

  /** The text of the leaf that the ballot would get. */
  function NewLeafText(d: Decision, req: CastRequest): string
    requires req.payload.Some?
  {
    LeafText(req.decisionId, |d.ballots|, req.payload.value, SerialOf(d, req))
  }

  /** The request fits, and no stored receipt has its leaf hash. */
  predicate WouldLand(env: Env, st: Store, req: CastRequest)
    requires req.decisionId in st.decisions
  {
    var d := st.decisions[req.decisionId];
    Fits(env, d, req) && Hex.Encode(env.text(NewLeafText(d, req))) !in st.receipts
  }

  lemma CommitAcceptsIff(env: Env, st: Store, id: string, payload: Payload, key: string, serial: Option<string>)
    requires id in st.decisions && HeadAccepts(st.decisions[id].head, |st.decisions[id].ballots| + 1)
    ensures var d := st.decisions[id];
      Commit(env, st, id, payload, key, serial).1.Accepted?
      <==> && (serial.Some? ==> !SerialExists(d.ballots, serial.value))
           && (forall i | 0 <= i < |d.ballots| :: d.ballots[i].idempotencyKey != key)
           && BallotHash(env, id, |d.ballots|, payload, serial) !in st.receipts
  {
    hide RootText, BallotHash, ReceiptFor, FindKey, Leaves, AnswerDuplicate, SerialExists;
    DuplicatesAreNotAccepted(st.receipts);
  }

  lemma DuplicatesAreNotAccepted(receipts: map<string, Receipt>)
    ensures forall stored, p :: !AnswerDuplicate(receipts, stored, p).Accepted?
  {
  }

  lemma HashIs(env: Env, d: Decision, req: CastRequest)
    requires req.payload.Some?
    ensures BallotHash(env, req.decisionId, |d.ballots|, req.payload.value, SerialOf(d, req))
        == Hex.Encode(env.text(NewLeafText(d, req)))
  {
  }

  /** The checks of the route before its transaction. */
  lemma ReachesCommit(env: Env, st: Store, req: CastRequest)
    requires req.decisionId in st.decisions
    ensures var d := st.decisions[req.decisionId];
      AfterAdmission(env, st, req).1.Accepted?
      <==> && Entitled(env, d, req) && WellCast(d, req) && req.idempotencyKey != ""
           && Commit(env, st, req.decisionId, req.payload.value, req.idempotencyKey, SerialOf(d, req)).1.Accepted?
  {
    hide Commit, SerialExists, SchemaOk, TallyTheorems.CreditsSpent;
    BudgetOnlyQuadratic(st.decisions[req.decisionId], req);
  }

  lemma SerialsOf(env: Env, d: Decision, req: CastRequest)
    requires Entitled(env, d, req)
    ensures var serial := SerialOf(d, req); serial.Some? ==> !SerialExists(d.ballots, serial.value)
  {
    hide SerialExists;
  }

  /** From any tables in order, what comes after admission is accepted exactly when the request would land. */
  lemma AcceptedIffLands(env: Env, st: Store, req: CastRequest)
    requires StoreOk(env, st) && req.decisionId in st.decisions
    ensures AfterAdmission(env, st, req).1.Accepted? <==> WouldLand(env, st, req)
  {
    var d := st.decisions[req.decisionId];
    hide *;
    StoreAt(env, st, req.decisionId);
    HeadNeverRefuses(env, req.decisionId, d, st.receipts);
    ReachesCommit(env, st, req);
    LandsMeans(env, st, req);
    FitsMeans(env, d, req);
    WellCastHasPayload(d, req);
    if req.payload.Some? {
      HashIs(env, d, req);
      CommitAcceptsIff(env, st, req.decisionId, req.payload.value, req.idempotencyKey, SerialOf(d, req));
      if Entitled(env, d, req) { SerialsOf(env, d, req); }
    }
  }

  lemma FitsMeans(env: Env, d: Decision, req: CastRequest)
    ensures Fits(env, d, req) <==>
      && Entitled(env, d, req) && WellCast(d, req) && req.idempotencyKey != ""
      && forall i | 0 <= i < |d.ballots| :: d.ballots[i].idempotencyKey != req.idempotencyKey
  {
    hide Entitled, WellCast;
  }

  lemma WellCastHasPayload(d: Decision, req: CastRequest)
    ensures WellCast(d, req) ==> req.payload.Some?
  {
  }

  lemma BudgetOnlyQuadratic(d: Decision, req: CastRequest)
    ensures req.payload.Some? && SchemaOk(d.config.scheme, |d.config.options|, req.payload.value)
        && req.payload.value.Quadratic?
      ==> d.config.scheme == QuadraticVote
  {
  }

  // ---- without a collision among leaves, only the voter's own mistakes refuse -------------------

  /** The texts of all stored leaves. */
  ghost function StoredLeafTexts(st: Store): set<string> {
    set id, i | id in st.decisions && 0 <= i < |st.decisions[id].ballots| ::
      LeafText(id, i, st.decisions[id].ballots[i].payload, st.decisions[id].ballots[i].serial)
  }

  lemma StoredLeaf(env: Env, st: Store, h: string, id: string, i: int)
    requires StoreOk(env, st) && IsLeafOf(st, h, id, i)
    ensures var row := st.decisions[id].ballots[i];
      LeafText(id, i, row.payload, row.serial) in StoredLeafTexts(st)
        && h == Hex.Encode(env.text(LeafText(id, i, row.payload, row.serial)))
  {
    StoreAt(env, st, id);
    assert RowOk(env, id, st.decisions[id].ballots, i);
    hide LeafText, DecisionOk, StoreOk, Hex.Encode;
  }

  /** A new leaf has a new place, so a new text, so without a collision a new hash. */
  lemma NewLeafIsFresh(env: Env, st: Store, req: CastRequest)
    requires StoreOk(env, st) && ReceiptsOwned(st) && req.decisionId in st.decisions && req.payload.Some?
    requires var text := NewLeafText(st.decisions[req.decisionId], req); InjectiveOn(env.text,
        StoredLeafTexts(st) + {text})
    ensures Hex.Encode(env.text(NewLeafText(st.decisions[req.decisionId], req))) !in st.receipts
  {
    var d := st.decisions[req.decisionId];
    var text := NewLeafText(d, req);
    var h := Hex.Encode(env.text(text));
    hide *;
    if h in st.receipts {
      var id, i := OwnerOf(st, h);
      var row := st.decisions[id].ballots[i];
      var stored := LeafText(id, i, row.payload, row.serial);
      StoredLeaf(env, st, h, id, i);
      Hex.EncodeInjective(env.text(text), env.text(stored));
      InjectiveOnPair(env.text, StoredLeafTexts(st) + {text}, text, stored);
      NewLeafTextIs(d, req);
      LeafTextInjective(req.decisionId, |d.ballots|, req.payload.value, SerialOf(d, req),
                        id, i, row.payload, row.serial);
      assert false;
    }
  }

  lemma OwnerOf(st: Store, h: string) returns (id: string, i: int)
    requires ReceiptsOwned(st) && h in st.receipts
    ensures IsLeafOf(st, h, id, i) && id in st.decisions && 0 <= i < |st.decisions[id].ballots|
  {
    id, i :| IsLeafOf(st, h, id, i);
  }

  lemma NewLeafTextIs(d: Decision, req: CastRequest)
    requires req.payload.Some?
    ensures NewLeafText(d, req) == LeafText(req.decisionId, |d.ballots|, req.payload.value, SerialOf(d, req))
  {
  }

  /**
   * In every reachable state, in any interleaving, and without a collision among the leaves: a cast
   * is accepted exactly when it is admitted and fits, and a paused one exactly when it fits.
   */
  lemma AcceptedIffFits(env: Env, steps: seq<Step>, req: CastRequest, now: int)
    requires var st := Run(env, steps).store;
      req.decisionId in st.decisions && req.payload.Some?
      ==> InjectiveOn(env.text, StoredLeafTexts(st) + {NewLeafText(st.decisions[req.decisionId], req)})
    ensures var st := Run(env, steps).store;
      Cast(env, st, req, now).1.Accepted?
      <==> && Admission(st, req, now).None? && req.decisionId in st.decisions
           && Fits(env, st.decisions[req.decisionId], req)
    ensures var st := Run(env, steps).store;
      req.decisionId in st.decisions ==>
        (AfterAdmission(env, st, req).1.Accepted? <==> Fits(env, st.decisions[req.decisionId], req))
  {
    var sys := Run(env, steps);
    var st := sys.store;
    ReachableOk(env, steps);
    SystemMeans(env, sys);
    hide *;
    CastCases(env, st, req, now);
    if req.decisionId in st.decisions {
      AcceptedIffLands(env, st, req);
      LandsMeans(env, st, req);
      if req.payload.Some? { NewLeafIsFresh(env, st, req); }
    }
  }

  lemma SystemMeans(env: Env, sys: System)
    requires SystemOk(env, sys)
    ensures StoreOk(env, sys.store) && ReceiptsOwned(sys.store)
  {
  }

  lemma LandsMeans(env: Env, st: Store, req: CastRequest)
    requires req.decisionId in st.decisions
    ensures var d := st.decisions[req.decisionId];
      && (Fits(env, d, req) ==> req.payload.Some?)
      && (WouldLand(env, st, req) <==> Fits(env, d, req) && Hex.Encode(env.text(NewLeafText(d, req))) !in st.receipts)
  {
  }

  lemma CastCases(env: Env, st: Store, req: CastRequest, now: int)
    ensures Admission(st, req, now).None? ==> req.decisionId in st.decisions
    ensures Cast(env, st, req, now).1.Accepted?
      <==> Admission(st, req, now).None? && req.decisionId in st.decisions && AfterAdmission(env, st, req).1.Accepted?
  {
    hide AfterAdmission, Expired;
  }
}
