/** Exactly-once casting: one idempotency key, one ballot, one receipt, over every run. */
module BoardReplay {
  import opened Basics
  import opened Tallies
  import opened Wire
  import opened Json
  import opened JsonSame
  import opened Board
  import opened BoardSafety
  import opened BoardRuns
  import opened BoardAccept
  import TallyTheorems

  /** Two payloads have the same canonical text exactly when they are the same. */
  lemma PayloadTextIff(p: Payload, q: Payload)
    ensures Encode(PayloadJson(p)) == Encode(PayloadJson(q)) <==> p == q
  {
    PayloadIsFine(p);
    PayloadIsFine(q);
    hide PayloadJson, Encode;
    CanonicalTextIsFaithful(PayloadJson(p), PayloadJson(q));
    if Same(PayloadJson(p), PayloadJson(q)) { PayloadInjective(p, q); }
  }

  /** In every reachable state, whatever the interleaving, keys and serials are used once per decision. */
  lemma KeysAndSerialsUnique(env: Env, steps: seq<Step>, id: string, i: nat, j: nat)
    requires var st := Run(env, steps).store; id in st.decisions && i < j < |st.decisions[id].ballots|
    ensures var b := Run(env, steps).store.decisions[id].ballots;
      b[i].idempotencyKey != b[j].idempotencyKey && (b[i].serial.Some? ==> b[i].serial != b[j].serial)
  {
    hide Run, LogOk, RootText;
    StoreIsOk(env, steps);
    var st := Run(env, steps).store;
    LogsAreDistinct(env, st, id);
  }

  lemma LogsAreDistinct(env: Env, st: Store, id: string)
    requires StoreOk(env, st) && id in st.decisions
    ensures DistinctCasts(st.decisions[id].ballots)
  {
    hide RootText, RowOk, ReceiptOk;
    assert DecisionOk(env, id, st.decisions[id], st.receipts);
  }

  /** A later request that may be cast at all: open mode, eligible, a valid ballot within budget, a key. */
  predicate Castable(st: Store, req: CastRequest, now: int) {
    && Admission(st, req, now).None?
    && req.decisionId in st.decisions
    && var d := st.decisions[req.decisionId];
       d.config.ballotMode == OpenBallots && req.eligible && req.idempotencyKey != "" && WellCast(d, req)
  }

  lemma CastableCommits(env: Env, st: Store, req: CastRequest, now: int)
    requires Castable(st, req, now)
    ensures Cast(env, st, req, now) == Commit(env, st, req.decisionId, req.payload.value, req.idempotencyKey, None)
  {
    hide Commit, Admission, SchemaOk, TallyTheorems.CreditsSpent;
  }

  /** With the key already stored, the transaction only answers. */
  lemma CommitAnswers(env: Env, st: Store, id: string, payload: Payload, key: string)
    requires id in st.decisions && FindKey(st.decisions[id].ballots, key).Some?
    ensures Commit(env, st, id, payload, key, None)
         == (st, AnswerDuplicate(st.receipts, st.decisions[id].ballots[FindKey(st.decisions[id].ballots, key).value],
           payload))
  {
    hide RootText, BallotHash, ReceiptFor, FindKey, AnswerDuplicate, Leaves;
  }

  /** The one row with a given key is the row found by it. */
  lemma FoundRow(ballots: seq<BallotRow>, m: nat, key: string)
    requires DistinctCasts(ballots) && m < |ballots| && ballots[m].idempotencyKey == key
    ensures FindKey(ballots, key) == Some(m)
  {
    var r := FindKey(ballots, key);
    hide FindKey;
    assert r.Some?;
  }

  /** An accepted cast leaves a row with its key and payload, and stores the receipt it hands out. */
  ghost predicate Recorded(st: Store, req: CastRequest, receipt: Receipt, m: nat) {
    && req.decisionId in st.decisions && req.payload.Some?
    && m < |st.decisions[req.decisionId].ballots|
    && var row := st.decisions[req.decisionId].ballots[m];
       && row.payload == req.payload.value && row.idempotencyKey == req.idempotencyKey
           && row.ballotHash == receipt.ballotHash
       && receipt.ballotHash in st.receipts && st.receipts[receipt.ballotHash] == receipt
  }

  lemma RecordedSurvives(st: Store, st': Store, req: CastRequest, receipt: Receipt, m: nat)
    requires Recorded(st, req, receipt, m) && Extends(st, st')
    ensures Recorded(st', req, receipt, m)
  {
    assert DecisionExtends(st.decisions[req.decisionId], st'.decisions[req.decisionId]);
  }

  lemma AcceptedRecords(env: Env, st: Store, req: CastRequest, now: int)
    requires StoreOk(env, st) && Cast(env, st, req, now).1.Accepted?
    ensures req.decisionId in st.decisions
    ensures var (st', reply) := Cast(env, st, req, now);
      Recorded(st', req, reply.receipt, |st.decisions[req.decisionId].ballots|)
  {
    hide StoreOk, AfterAdmission, Extends;
    assert Admission(st, req, now).None? by { RefusalsAccept(st, req, now); }
    hide Admission;
    AdmittedIsOpen(env, st, req, now);
    AfterAdmissionKeeps(env, st, req);
  }

  lemma RefusalsAccept(st: Store, req: CastRequest, now: int)
    ensures var r := Admission(st, req, now); r.Some? ==> !r.value.Accepted?
  {
  }

  /**
   * Once a cast has been accepted, then after any further steps, in any interleaving, a castable
   * request with the same decision and key changes nothing; it is answered with the original
   * receipt exactly when its payload is the original one, and with a conflict otherwise.
   */
  lemma ReplayReturnsOriginal(env: Env, before: seq<Step>, req: CastRequest, now: int, after: seq<Step>,
      again: CastRequest, later: int)
    requires Cast(env, Run(env, before).store, req, now).1.Accepted?
    requires again.decisionId == req.decisionId && again.idempotencyKey == req.idempotencyKey
    requires Castable(Run(env, before + [DoCast(req, now)] + after).store, again, later)
    ensures var receipt := Cast(env, Run(env, before).store, req, now).1.receipt;
      var st := Run(env, before + [DoCast(req, now)] + after).store;
      Cast(env, st, again, later)
      == (st, if again.payload == req.payload then Replayed(receipt) else IdempotencyConflict)
  {
    var st0, steps := Run(env, before).store, before + [DoCast(req, now)];
    var st := Run(env, steps + after).store;
    var id, m, receipt := req.decisionId, |Run(env, before).store.decisions[req.decisionId].ballots|,
      Cast(env, st0, req, now).1.receipt;
    hide *;
    RunStep(env, before, DoCast(req, now));
    ApplyCast(env, Run(env, before), req, now);
    StoreIsOk(env, before);
    StoreIsOk(env, steps + after);
    AcceptedRecords(env, st0, req, now);
    RunsOnlyExtend(env, steps, after);
    RecordedSurvives(Run(env, steps).store, st, req, receipt, m);
    AnsweredFrom(env, st, req, receipt, m, again);
    CastableCommits(env, st, again, later);
  }

  lemma ApplyCast(env: Env, sys: System, req: CastRequest, now: int)
    ensures Apply(env, sys, DoCast(req, now)).store == Cast(env, sys.store, req, now).0
  {
    hide Cast;
  }

  lemma StoreIsOk(env: Env, steps: seq<Step>)
    ensures StoreOk(env, Run(env, steps).store)
  {
    hide Run;
    ReachableOk(env, steps);
  }

  /** A second transaction with a recorded key is answered from the record. */
  lemma AnsweredFrom(env: Env, st: Store, req: CastRequest, receipt: Receipt, m: nat, again: CastRequest)
    requires StoreOk(env, st) && Recorded(st, req, receipt, m) && again.payload.Some?
    requires again.decisionId == req.decisionId && again.idempotencyKey == req.idempotencyKey
    ensures Commit(env, st, req.decisionId, again.payload.value, again.idempotencyKey, None)
         == (st, if again.payload == req.payload then Replayed(receipt) else IdempotencyConflict)
  {
    var id := req.decisionId;
    hide RootText, BallotHash, ReceiptFor, Leaves, Commit, FindKey, Encode, PayloadJson, DistinctCasts;
    LogsAreDistinct(env, st, id);
    FoundRow(st.decisions[id].ballots, m, again.idempotencyKey);
    CommitAnswers(env, st, id, again.payload.value, again.idempotencyKey);
    PayloadTextIff(req.payload.value, again.payload.value);
  }
}
