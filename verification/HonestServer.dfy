/** What the server serves, the verifier accepts: /verify/:id of routes/public.ts over every run. */
module HonestServer {
  import opened Basics
  import opened Counting
  import opened Tallies
  import opened Verdicts
  import opened Json
  import opened Wire
  import opened Board
  import opened BoardSafety
  import opened BoardRuns
  import opened BoardFreeze
  import opened BoardLate
  import opened Verifier
  import BoardOpenRun
  import BoardReplay
  import BoardSetup
  import Hex
  import Inclusion
  import MerkleBinding

  /** The ballots as the public log shows them. */
  function PublicLog(ballots: seq<BallotRow>): (r: seq<BundleBallot>)
    ensures |r| == |ballots|
  {
    seq(|ballots|, i requires 0 <= i < |ballots| =>
      BundleBallot(ballots[i].logSeq, ballots[i].payload, ballots[i].serial, ballots[i].ballotHash))
  }

  /** The final checkpoint if there is one, else the live head, signed on the spot. */
  function ServedAnchor(env: Env, id: string, d: Decision): Anchor {
    var latest := LatestCheckpoint(d.checkpoints);
    if latest.Some? then Anchor(latest.value.root, latest.value.treeSize, latest.value.signedRoot)
    else
      var root := if d.head.Some? then d.head.value.head else RootText(env, []);
      var size := if d.head.Some? then d.head.value.leafCount else 0;
      Anchor(root, size, SignRoot(env, id, root, size))
  }

  /** The bundle that /verify/:id assembles. */
  function ServedBundle(env: Env, id: string, d: Decision): Bundle {
    var ballots := PublicLog(d.ballots);
    var t := TallyOf(d.config.scheme, Map(ballots, PayloadOf()), |d.config.options|);
    Bundle(id, SetupOf(env, d.config), d.setupCommitment, env.publicKey, ballots, ServedAnchor(env, id, d),
           Some((t, VerdictOf(t, d.config.rule, t.totalCast))))
  }

  /** Ed25519: what the server signs verifies under its public key. */
  ghost predicate SignaturesVerify(env: Env) {
    forall m :: env.verify(env.publicKey, m, env.sign(m))
  }

  // ---- check by check -------------------------------------------------------------------------

  lemma ServedSetupIsFine(env: Env, c: Config)
    ensures Encode(SetupJson(SetupOf(env, c))).Some?
  {
    BoardSetup.ScheduleIsFine(c.schedule);
    SetupIsFine(SetupOf(env, c));
  }

  lemma ServedRows(env: Env, id: string, d: Decision, receipts: map<string, Receipt>)
    requires DecisionOk(env, id, d, receipts)
    ensures var b := ServedBundle(env, id, d);
      LeavesHold(env, b) && NoDoubleVote(b) && Positioned(b.ballots) && SortBySeq(b.ballots) == b.ballots
    ensures Hashes(PublicLog(d.ballots)) == Leaves(d.ballots) && Inclusion.AllHex(Leaves(d.ballots))
  {
    hide TallyOf, VerdictOf, ServedAnchor, SetupOf, LeafText;
    var b := ServedBundle(env, id, d);
    forall i | 0 <= i < |d.ballots|
      ensures LeafHolds(env, id, b.ballots[i]) && b.ballots[i].logSeq == i && Hex.IsHex(d.ballots[i].ballotHash) {
      assert RowOk(env, id, d.ballots, i);
    }
    SortKeepsOrder(b.ballots);
  }

  /** The set-up, leaf, double-vote and result checks of a served bundle always hold. */
  lemma FourChecksHold(env: Env, id: string, d: Decision, receipts: map<string, Receipt>)
    requires DecisionOk(env, id, d, receipts)
    ensures var b := ServedBundle(env, id, d);
      SetupHolds(env, b) && LeavesHold(env, b) && NoDoubleVote(b) && ResultHolds(b)
  {
    ServedSetupIsFine(env, d.config);
    ServedRows(env, id, d, receipts);
    hide Encode, SetupJson, SetupOf, TallyJson, VerdictJson, TallyOf, VerdictOf, ServedAnchor, PublicLog, LeavesHold,
      NoDoubleVote;
    var b := ServedBundle(env, id, d);
    ResultTextsIff(OwnTally(b), OwnTally(b), OwnVerdict(b), OwnVerdict(b));
  }

  /** The anchor is the signed root of a prefix of the log: all of it, unless a checkpoint is behind. */
  lemma AnchorIsPrefix(env: Env, id: string, d: Decision, receipts: map<string, Receipt>)
    requires DecisionOk(env, id, d, receipts)
    ensures var a := ServedAnchor(env, id, d);
      && 0 <= a.treeSize <= |d.ballots| && a.root == RootText(env, Leaves(d.ballots)[..a.treeSize])
      && a.signedRoot == SignRoot(env, id, a.root, a.treeSize)
      && (d.checkpoints == [] ==> a.treeSize == |d.ballots|)
      && (d.checkpoints != [] ==> a.treeSize == d.checkpoints[0].treeSize)
  {
    hide LogOk, SetupCommitment, SetupOf, RootText, SignRoot, LifecycleOk;
    assert Leaves(d.ballots)[..|d.ballots|] == Leaves(d.ballots);
    if d.checkpoints != [] {
      assert d.checkpoints == [d.checkpoints[0]];
      assert CheckpointOk(env, id, d.ballots, d.checkpoints[0]);
      assert LatestCheckpoint(d.checkpoints).value in d.checkpoints;
    } else if d.head.None? {
      assert Leaves(d.ballots)[..0] == Leaves(d.ballots) == [];
    }
  }

  /** The remaining two hold together exactly when the anchor counts the whole log. */
  lemma RootAndContiguityIff(env: Env, id: string, d: Decision, receipts: map<string, Receipt>)
    requires DecisionOk(env, id, d, receipts) && SignaturesVerify(env)
    ensures var b := ServedBundle(env, id, d);
      RootHolds(env, b) && ContiguityHolds(b) <==> b.anchor.treeSize == |d.ballots|
  {
    var b := ServedBundle(env, id, d);
    hide *;
    ServedRows(env, id, d, receipts);
    AnchorIsPrefix(env, id, d, receipts);
    ServedUnder(env, id, d);
    ContiguityMeans(b);
    if b.anchor.treeSize == |d.ballots| {
      WholePrefix(d.ballots);
      SignedAnchor(env, id, b.anchor.root, b.anchor.treeSize);
      RootFromHashes(env, b, Leaves(d.ballots));
    }
  }

  /** In a positioned log, contiguity is about the anchor's count only. */
  lemma ContiguityMeans(b: Bundle)
    requires Positioned(b.ballots)
    ensures ContiguityHolds(b) <==> b.anchor.treeSize == |b.ballots|
  {
  }

  lemma SignedAnchor(env: Env, id: string, root: string, size: int)
    requires SignaturesVerify(env)
    ensures env.verify(env.publicKey, CanonText(RootJson(root, size, id)), SignRoot(env, id, root, size))
  {
    hide CanonText;
  }

  lemma WholePrefix(ballots: seq<BallotRow>)
    ensures Leaves(ballots)[..|ballots|] == Leaves(ballots)
  {
  }

  lemma ServedUnder(env: Env, id: string, d: Decision)
    ensures var b := ServedBundle(env, id, d);
      b.serverPubKeyPem == env.publicKey && b.decisionId == id && b.anchor == ServedAnchor(env, id, d)
        && b.ballots == PublicLog(d.ballots)
  {
  }

  lemma RootFromHashes(env: Env, b: Bundle, leaves: seq<string>)
    requires Hashes(SortBySeq(b.ballots)) == leaves && Inclusion.AllHex(leaves)
        && b.anchor.root == RootText(env, leaves)
    requires env.verify(b.serverPubKeyPem, CanonText(RootJson(b.anchor.root, b.anchor.treeSize, b.decisionId)),
        b.anchor.signedRoot)
    ensures RootHolds(env, b)
  {
  }

  // ---- over runs --------------------------------------------------------------------------------

  /**
   * In every reachable state, in any interleaving, the served bundle passes all six checks exactly
   * when no checkpoint is behind the log.
   */
  lemma ServedBundleVerifiesIff(env: Env, steps: seq<Step>, id: string)
    requires SignaturesVerify(env) && id in Run(env, steps).store.decisions
    ensures var d := Run(env, steps).store.decisions[id];
      ReportOf(env, ServedBundle(env, id, d)).Ok()
      <==> d.checkpoints == [] || d.checkpoints[0].treeSize == |d.ballots|
  {
    hide *;
    var st := Run(env, steps).store;
    var d := st.decisions[id];
    ReachableDecision(env, steps, id);
    FourChecksHold(env, id, d, st.receipts);
    RootAndContiguityIff(env, id, d, st.receipts);
    AnchorIsPrefix(env, id, d, st.receipts);
    OkIsAllSix(env, id, d);
  }

  lemma OkIsAllSix(env: Env, id: string, d: Decision)
    ensures var b := ServedBundle(env, id, d);
      && b.anchor == ServedAnchor(env, id, d)
      && (ReportOf(env, b).Ok() <==> SetupHolds(env, b) && LeavesHold(env, b) && RootHolds(env, b) && ContiguityHolds(b)
                                     && NoDoubleVote(b) && ResultHolds(b))
  {
  }

  /** After every late ballot the served bundle is refused: it does not hold once casts pause. */
  lemma LateBundleFails(env: Env, id: string, c: Config, req: CastRequest)
    requires GoodRequest(env, id, c, req) && SignaturesVerify(env)
    ensures var st := Run(env, LateSteps(id, c, req)).store;
      id in st.decisions && !ReportOf(env, ServedBundle(env, id, st.decisions[id])).Ok()
  {
    hide *;
    LateBallot(env, id, c, req);
    ServedBundleVerifiesIff(env, LateSteps(id, c, req), id);
  }

  /** In every run whose casts do not pause, the served bundle always passes all six checks. */
  lemma HonestServerVerifies(env: Env, steps: seq<Step>, id: string)
    requires SignaturesVerify(env) && Atomic(steps) && id in Run(env, steps).store.decisions
    ensures ReportOf(env, ServedBundle(env, id, Run(env, steps).store.decisions[id])).Ok()
  {
    hide *;
    ServedBundleVerifiesIff(env, steps, id);
    AtomicRuns(env, steps, id);
  }

  /**
   * In every reachable state, in any interleaving, the leaf of every ballot is provably included:
   * in the tree its receipt commits to, as the last leaf, and in the tree of the current head.
   */
  lemma ReceiptsProveInclusion(env: Env, steps: seq<Step>, id: string, i: nat)
    requires var st := Run(env, steps).store; id in st.decisions && i < |st.decisions[id].ballots|
    ensures var st := Run(env, steps).store;
      var d := st.decisions[id];
      var leaf := d.ballots[i].ballotHash;
      && leaf in st.receipts && st.receipts[leaf].logPosition == i && d.head.Some?
      && ProvenUnder(env, Leaves(d.ballots)[..i + 1], i, st.receipts[leaf].runningRoot)
      && ProvenUnder(env, Leaves(d.ballots), i, d.head.value.head)
  {
    hide *;
    var st := Run(env, steps).store;
    var d := st.decisions[id];
    ReachableDecision(env, steps, id);
    ServedRows(env, id, d, st.receipts);
    RowRoots(env, id, d, st.receipts, i);
    PrefixIsHex(Leaves(d.ballots), i + 1);
    RootsProve(env, Leaves(d.ballots)[..i + 1], i);
    RootsProve(env, Leaves(d.ballots), i);
  }

  lemma ReachableDecision(env: Env, steps: seq<Step>, id: string)
    requires id in Run(env, steps).store.decisions
    ensures var st := Run(env, steps).store; DecisionOk(env, id, st.decisions[id], st.receipts)
  {
    hide Run, DecisionOk;
    ReachableOk(env, steps);
  }

  lemma RowRoots(env: Env, id: string, d: Decision, receipts: map<string, Receipt>, i: nat)
    requires DecisionOk(env, id, d, receipts) && i < |d.ballots|
    ensures var leaf := d.ballots[i].ballotHash;
      && leaf in receipts && receipts[leaf].logPosition == i
      && receipts[leaf].runningRoot == RootText(env, Leaves(d.ballots)[..i + 1])
      && d.head.Some? && d.head.value.head == RootText(env, Leaves(d.ballots))
  {
    hide RootText, BallotHash, CheckpointOk, SetupCommitment, SetupOf, ValidConfig, RowOk;
    assert ReceiptOk(env, id, d.ballots, receipts, i);
  }

  lemma PrefixIsHex(leaves: seq<string>, n: nat)
    requires Inclusion.AllHex(leaves) && n <= |leaves|
    ensures Inclusion.AllHex(leaves[..n])
  {
  }

  /** The proof that inclusionProof builds for leaf `i` is accepted by verifyInclusion against `root`. */
  predicate ProvenUnder(env: Env, leaves: seq<string>, i: nat, root: string) {
    var proof := Inclusion.Prove(env.bytes, leaves, i);
    var leaf := if i < |leaves| then Inclusion.LeafHashText(env.bytes, leaves[i]) else None;
    && proof.Some? && leaf.Some?
    && Inclusion.Accepts(env.bytes, leaf.value, proof.value.index, proof.value.audit, proof.value.treeSize, root)
  }

  lemma RootsProve(env: Env, leaves: seq<string>, i: nat)
    requires i < |leaves| && Inclusion.AllHex(leaves)
    ensures ProvenUnder(env, leaves, i, RootText(env, leaves))
  {
    MerkleBinding.Complete(env.bytes, leaves, i);
  }

  /** A ballot cast in open mode is served, accepted and tallied, from creation to publication. */
  lemma OpenBallotServed(env: Env, id: string, c: Config, req: CastRequest, t: int)
    requires SignaturesVerify(env) && BoardOpenRun.OpenConfig(c, t) && BoardOpenRun.OpenRequest(id, c, req)
    ensures req.payload.Some?
    ensures var st := Run(env, BoardOpenRun.OpenSteps(id, c, req, t)).store;
      id in st.decisions
      && var report := ReportOf(env, ServedBundle(env, id, st.decisions[id]));
         report.Ok() && report.tally == TallyOf(c.scheme, [req.payload.value], |c.options|)
  {
    hide *;
    var steps := BoardOpenRun.OpenSteps(id, c, req, t);
    BoardOpenRun.OpenBallotCounts(env, id, c, req, t);
    BoardOpenRun.OpenStepsAre(id, c, req, t);
    BoardOpenRun.RequestHas(id, c, req);
    BoardOpenRun.StageMeans(Run(env, steps).store, id, c, Published, 1);
    HonestServerVerifies(env, steps, id);
    ServedTally(env, id, Run(env, steps).store.decisions[id]);
  }

  lemma ServedTally(env: Env, id: string, d: Decision)
    requires |d.ballots| == 1
    ensures ReportOf(env, ServedBundle(env, id, d)).tally
      == TallyOf(d.config.scheme, [d.ballots[0].payload], |d.config.options|)
  {
    hide TallyOf, VerdictOf, ServedAnchor, SortBySeq, LeavesHold, RootHolds, SetupHolds, ContiguityHolds, NoDoubleVote,
      ResultHolds;
    assert Map(PublicLog(d.ballots), PayloadOf()) == [d.ballots[0].payload];
  }

  // ---- receipts ---------------------------------------------------------------------------------

  /** The receipt stored under `h` is signed over row `i` of decision `id` and the root just after that row. */
  ghost predicate SignedFor(env: Env, st: Store, h: string, id: string, i: int) {
    && IsLeafOf(st, h, id, i) && h in st.receipts
    && var r := st.receipts[h];
       && r.ballotHash == h && r.decisionId == id && r.logPosition == i
       && r.runningRoot == RootText(env, Leaves(st.decisions[id].ballots)[..i + 1])
       && env.verify(env.publicKey, CanonText(ReceiptJson(h, i, r.runningRoot)), r.serverSig)
  }

  /** In every reachable state, in any interleaving, every stored receipt verifies over its own row. */
  lemma ReceiptsAreSigned(env: Env, steps: seq<Step>, h: string)
    requires SignaturesVerify(env) && h in Run(env, steps).store.receipts
    ensures exists id, i :: SignedFor(env, Run(env, steps).store, h, id, i)
  {
    hide *;
    var st := Run(env, steps).store;
    ReachableOk(env, steps);
    var id, i := ReceiptOwner(env, Run(env, steps), h);
    ReachableDecision(env, steps, id);
    OwnedReceipt(env, st, h, id, i);
  }

  lemma ReceiptOwner(env: Env, sys: System, h: string) returns (id: string, i: int)
    requires SystemOk(env, sys) && h in sys.store.receipts
    ensures id in sys.store.decisions && IsLeafOf(sys.store, h, id, i)
  {
    hide StoreOk, WaitingOk;
    id, i :| IsLeafOf(sys.store, h, id, i);
  }

  lemma OwnedReceipt(env: Env, st: Store, h: string, id: string, i: int)
    requires SignaturesVerify(env) && IsLeafOf(st, h, id, i) && DecisionOk(env, id, st.decisions[id], st.receipts)
    ensures SignedFor(env, st, h, id, i)
  {
    hide RootText, BallotHash, CheckpointOk, SetupCommitment, SetupOf, ValidConfig, RowOk, CanonText, ReceiptJson;
    assert ReceiptOk(env, id, st.decisions[id].ballots, st.receipts, i);
  }

  /** `r` is stored under its own hash. */
  predicate Stored(st: Store, r: Receipt) { r.ballotHash in st.receipts && st.receipts[r.ballotHash] == r }

  /** What an answer hands out, if it hands out a receipt, is stored. */
  predicate HandsOutStored(st: Store, reply: CastReply) {
    reply.Accepted? || reply.Replayed? ==> Stored(st, reply.receipt)
  }

  lemma CommitHandsOut(env: Env, st: Store, id: string, payload: Payload, key: string, serial: Option<string>)
    requires id in st.decisions && DecisionOk(env, id, st.decisions[id], st.receipts)
    ensures var (st', reply) := Commit(env, st, id, payload, key, serial); HandsOutStored(st', reply)
  {
    hide RootText, BallotHash, CheckpointOk, SetupCommitment, SetupOf, ValidConfig, RowOk, CanonText, ReceiptJson,
      Leaves, SerialExists, Encode, PayloadJson, HeadAccepts, HeadOk, LifecycleOk, DistinctCasts;
    var ballots := st.decisions[id].ballots;
    if FindKey(ballots, key).Some? {
      assert ReceiptOk(env, id, ballots, st.receipts, FindKey(ballots, key).value);
    }
    hide FindKey;
  }

  lemma AdmittedHandsOut(env: Env, st: Store, req: CastRequest)
    requires req.decisionId in st.decisions
    requires DecisionOk(env, req.decisionId, st.decisions[req.decisionId], st.receipts)
    ensures var (st', reply) := AfterAdmission(env, st, req); HandsOutStored(st', reply)
  {
    hide Commit, DecisionOk, SerialExists, SchemaOk, Stored;
    if req.payload.Some? {
      var serial := SerialOf(st.decisions[req.decisionId], req);
      CommitHandsOut(env, st, req.decisionId, req.payload.value, req.idempotencyKey, serial);
    }
  }

  lemma CastHandsOut(env: Env, st: Store, req: CastRequest, now: int)
    requires StoreOk(env, st)
    ensures var (st', reply) := Cast(env, st, req, now); HandsOutStored(st', reply)
  {
    hide AfterAdmission, DecisionOk, Stored, EffectiveClose;
    if req.decisionId in st.decisions { AdmittedHandsOut(env, st, req); }
  }

  /**
   * Whenever a cast is answered with a receipt, fresh or replayed, that receipt verifies over a row
   * of the log as the cast leaves it.
   */
  lemma AnswersAreSigned(env: Env, steps: seq<Step>, req: CastRequest, now: int)
    requires SignaturesVerify(env)
    ensures var (st, reply) := Cast(env, Run(env, steps).store, req, now);
      reply.Accepted? || reply.Replayed? ==>
        Stored(st, reply.receipt) && exists id, i :: SignedFor(env, st, reply.receipt.ballotHash, id, i)
  {
    var st, reply := Cast(env, Run(env, steps).store, req, now).0, Cast(env, Run(env, steps).store, req, now).1;
    hide *;
    ReachableOk(env, steps);
    SystemAt(env, Run(env, steps), 0);
    CastHandsOut(env, Run(env, steps).store, req, now);
    if reply.Accepted? || reply.Replayed? {
      HandedOut(st, reply);
      RunStep(env, steps, DoCast(req, now));
      BoardReplay.ApplyCast(env, Run(env, steps), req, now);
      ReceiptsAreSigned(env, steps + [DoCast(req, now)], reply.receipt.ballotHash);
    }
  }

  lemma HandedOut(st: Store, reply: CastReply)
    requires HandsOutStored(st, reply) && (reply.Accepted? || reply.Replayed?)
    ensures Stored(st, reply.receipt) && reply.receipt.ballotHash in st.receipts
  {
  }
}
