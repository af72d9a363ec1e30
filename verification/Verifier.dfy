/** The independent verifier: verifyDecision.ts. */
module Verifier {
  import opened Basics
  import opened Counting
  import opened Tallies
  import opened Verdicts
  import opened Json
  import opened Wire
  import opened Board
  import Inclusion

  datatype BundleBallot = BundleBallot(logSeq: int, payload: Payload, serial: Option<string>, ballotHash: string)

  datatype Anchor = Anchor(root: string, treeSize: int, signedRoot: string)

  datatype Bundle = Bundle(decisionId: string, setup: Setup, setupCommitment: string, serverPubKeyPem: string,
                           ballots: seq<BundleBallot>, anchor: Anchor, published: Option<(Tally, Verdict)>)

  datatype Report = Report(setup: bool, leaves: bool, rootBinding: bool, contiguity: bool, noDoubleVote: bool,
                           tallyVerdict: bool, tally: Tally, verdict: Verdict)
  {
    predicate Ok() { setup && leaves && rootBinding && contiguity && noDoubleVote && tallyVerdict }
  }

  // ---- what each check decides -----------------------------------------------------------------

  /** computeSetupCommitment, None where canonicalize throws. */
  function RecomputedSetup(env: Env, s: Setup): Option<string> {
    if Encode(SetupJson(s)).Some? then Some(SetupCommitment(env, s)) else None
  }

  predicate SetupHolds(env: Env, b: Bundle) { RecomputedSetup(env, b.setup) == Some(b.setupCommitment) }

  predicate LeafHolds(env: Env, id: string, b: BundleBallot) {
    BallotHash(env, id, b.logSeq, b.payload, b.serial) == b.ballotHash
  }

  predicate LeavesHold(env: Env, b: Bundle) {
    forall i | 0 <= i < |b.ballots| :: LeafHolds(env, b.decisionId, b.ballots[i])
  }

  function InsertBySeq(b: BundleBallot, sorted: seq<BundleBallot>): (r: seq<BundleBallot>)
    ensures multiset(r) == multiset(sorted) + multiset{b}
  {
    if sorted == [] || b.logSeq <= sorted[0].logSeq then [b] + sorted
    else
      var r := [sorted[0]] + InsertBySeq(b, sorted[1..]);
      assert sorted == [sorted[0]] + sorted[1..];
      r
  }

  /** The stable sort by logSeq. */
  function SortBySeq(ballots: seq<BundleBallot>): (r: seq<BundleBallot>)
    ensures multiset(r) == multiset(ballots)
  {
    if ballots == [] then []
    else
      assert ballots == [ballots[0]] + ballots[1..];
      InsertBySeq(ballots[0], SortBySeq(ballots[1..]))
  }

  function Hashes(ballots: seq<BundleBallot>): seq<string> {
    seq(|ballots|, i requires 0 <= i < |ballots| => ballots[i].ballotHash)
  }

  predicate RootHolds(env: Env, b: Bundle) {
    var hashes := Hashes(SortBySeq(b.ballots));
    && Inclusion.MerkleRoot(env.bytes, hashes) == Some(b.anchor.root)
    && env.verify(b.serverPubKeyPem, CanonText(RootJson(b.anchor.root, b.anchor.treeSize, b.decisionId)),
        b.anchor.signedRoot)
  }

  predicate SeqsInRange(ballots: seq<BundleBallot>) {
    forall i | 0 <= i < |ballots| :: 0 <= ballots[i].logSeq < |ballots|
  }

  predicate SeqsDistinct(ballots: seq<BundleBallot>) {
    forall i, j | 0 <= i < j < |ballots| :: ballots[i].logSeq != ballots[j].logSeq
  }

  predicate ContiguityHolds(b: Bundle) {
    SeqsInRange(b.ballots) && SeqsDistinct(b.ballots) && b.anchor.treeSize == |b.ballots|
  }

  predicate SerialsDistinct(ballots: seq<BundleBallot>) {
    forall i, j | 0 <= i < j < |ballots| :: ballots[i].serial.Some? ==> ballots[i].serial != ballots[j].serial
  }

  predicate NoDoubleVote(b: Bundle) { b.setup.ballotMode == SecretBallots ==> SerialsDistinct(b.ballots) }

  function PayloadOf(): BundleBallot -> Payload { (b: BundleBallot) => b.payload }

  function OwnTally(b: Bundle): Tally { TallyOf(b.setup.scheme, Map(b.ballots, PayloadOf()), |b.setup.options|) }

  function OwnVerdict(b: Bundle): Verdict { VerdictOf(OwnTally(b), b.setup.rule, OwnTally(b).totalCast) }

  predicate ResultHolds(b: Bundle) {
    b.published.Some? ==>
      && Encode(TallyJson(OwnTally(b))).Some?
          && Encode(TallyJson(OwnTally(b))) == Encode(TallyJson(b.published.value.0))
      && Encode(VerdictJson(OwnVerdict(b))).Some?
          && Encode(VerdictJson(OwnVerdict(b))) == Encode(VerdictJson(b.published.value.1))
  }

  function ReportOf(env: Env, b: Bundle): Report {
    Report(SetupHolds(env, b), LeavesHold(env, b), RootHolds(env, b), ContiguityHolds(b), NoDoubleVote(b),
      ResultHolds(b),
           OwnTally(b), OwnVerdict(b))
  }

  // ---- the verifier's loops ---------------------------------------------------------------------

  method CheckLeaves(env: Env, b: Bundle) returns (ok: bool)
    ensures ok == LeavesHold(env, b)
  {
    hide LeafText;
    var bad: nat := 0;
    for i := 0 to |b.ballots|
      invariant bad == 0 <==> forall j | 0 <= j < i :: LeafHolds(env, b.decisionId, b.ballots[j])
    {
      var ballot := b.ballots[i];
      var recomputed := BallotHash(env, b.decisionId, ballot.logSeq, ballot.payload, ballot.serial);
      assert LeafHolds(env, b.decisionId, ballot) <==> recomputed == ballot.ballotHash;
      hide BallotHash, LeafHolds;
      if recomputed != ballot.ballotHash {
        bad := bad + 1;
      }
    }
    ok := bad == 0;
  }

  /** One of the first `i` ballots has this logSeq. */
  ghost predicate SeenBefore(ballots: seq<BundleBallot>, i: nat, s: int)
    requires i <= |ballots|
  {
    exists j :: 0 <= j < i && ballots[j].logSeq == s
  }

  lemma SeenStep(ballots: seq<BundleBallot>, i: nat)
    requires i < |ballots|
    ensures forall s :: SeenBefore(ballots, i + 1, s) <==> SeenBefore(ballots, i, s) || s == ballots[i].logSeq
    ensures SeqsDistinct(ballots[..i + 1]) <==> SeqsDistinct(ballots[..i]) && !SeenBefore(ballots, i, ballots[i].logSeq)
  {
    forall s ensures SeenBefore(ballots, i + 1, s) <==> SeenBefore(ballots, i, s) || s == ballots[i].logSeq {
      if s == ballots[i].logSeq { assert ballots[i].logSeq == s; }
    }
    var all, init := ballots[..i + 1], ballots[..i];
    assert forall j | 0 <= j < i :: all[j] == ballots[j] == init[j];
    if SeqsDistinct(init) && !SeenBefore(ballots, i, ballots[i].logSeq) {
      forall j, k | 0 <= j < k < |all| ensures all[j].logSeq != all[k].logSeq { }
    }
    if j :| 0 <= j < i && ballots[j].logSeq == ballots[i].logSeq { assert all[j].logSeq == all[i].logSeq; }
    if SeqsDistinct(all) {
      forall j, k | 0 <= j < k < |init|
        ensures init[j].logSeq != init[k].logSeq { assert all[j].logSeq != all[k].logSeq; }
    }
  }

  method CheckContiguity(b: Bundle) returns (ok: bool)
    ensures ok == ContiguityHolds(b)
  {
    var n := |b.ballots|;
    var seen: set<int>, dup, outOfRange := {}, false, false;
    for i := 0 to n
      invariant forall s :: s in seen <==> SeenBefore(b.ballots, i, s)
      invariant outOfRange <==> !(forall j | 0 <= j < i :: 0 <= b.ballots[j].logSeq < n)
      invariant dup <==> !SeqsDistinct(b.ballots[..i])
      invariant !dup ==> |seen| == i
    {
      SeenStep(b.ballots, i);
      hide SeenBefore, SeqsDistinct;
      var s := b.ballots[i].logSeq;
      if !(0 <= s < n) { outOfRange := true; }
      if s in seen { dup := true; }
      seen := seen + {s};
    }
    assert b.ballots[..n] == b.ballots;
    var contiguous := !dup && !outOfRange && |seen| == n;
    ok := contiguous && b.anchor.treeSize == n;
  }

  method CheckNoDoubleVote(b: Bundle) returns (ok: bool)
    ensures ok == NoDoubleVote(b)
  {
    if b.setup.ballotMode != SecretBallots { return true; }
    var seen: set<string>, dupes: set<string> := {}, {};
    for i := 0 to |b.ballots|
      invariant forall s :: s in seen <==> exists j :: 0 <= j < i && b.ballots[j].serial == Some(s)
      invariant dupes == {} <==>
        forall j, k | 0 <= j < k < i :: b.ballots[j].serial.Some? ==> b.ballots[j].serial != b.ballots[k].serial
    {
      var serial := b.ballots[i].serial;
      if serial.Some? {
        if serial.value in seen {
          ghost var j :| 0 <= j < i && b.ballots[j].serial == serial;
          dupes := dupes + {serial.value};
        }
        seen := seen + {serial.value};
      }
    }
    ok := dupes == {};
  }

  /** verifyDecision */
  method Verify(env: Env, b: Bundle) returns (report: Report)
    ensures report == ReportOf(env, b)
  {
    var payloads := Map(b.ballots, PayloadOf());
    var ownTally := TallyBallots(b.setup.scheme, payloads, |b.setup.options|);
    var ownVerdict := Decide(ownTally, b.setup.rule, ownTally.totalCast);
    var setupText := Canonicalize(SetupJson(b.setup));
    var setupOk := setupText.Some? && SetupCommitment(env, b.setup) == b.setupCommitment;
    var leavesOk := CheckLeaves(env, b);
    var contiguityOk := CheckContiguity(b);
    var serialsOk := CheckNoDoubleVote(b);
    report := Report(setupOk, leavesOk, RootHolds(env, b), contiguityOk, serialsOk, ResultHolds(b), ownTally,
      ownVerdict);
  }

  /** The result check passes exactly when what was published is the verifier's own tally and verdict. */
  lemma ResultHoldsIff(b: Bundle)
    ensures ResultHolds(b) <==> (b.published.Some? ==> b.published.value == (OwnTally(b), OwnVerdict(b)))
  {
    hide Encode, TallyJson, VerdictJson, OwnTally, OwnVerdict;
    if b.published.Some? {
      ResultTextsIff(OwnTally(b), b.published.value.0, OwnVerdict(b), b.published.value.1);
    }
  }

  // ---- contiguity, read off the sorted ballots ----------------------------------------------------

  ghost predicate Ascending(bs: seq<BundleBallot>) {
    forall i, j | 0 <= i < j < |bs| :: bs[i].logSeq <= bs[j].logSeq
  }

  lemma {:induction false} InsertHolds(b: BundleBallot, sorted: seq<BundleBallot>, x: BundleBallot)
    ensures x in InsertBySeq(b, sorted) <==> x == b || x in sorted
  {
    if sorted != [] && b.logSeq > sorted[0].logSeq {
      InsertHolds(b, sorted[1..], x);
      assert sorted == [sorted[0]] + sorted[1..];
    }
  }

  lemma FrontAscends(b: BundleBallot, sorted: seq<BundleBallot>)
    requires Ascending(sorted) && forall x | x in sorted :: b.logSeq <= x.logSeq
    ensures Ascending([b] + sorted)
  {
  }

  lemma {:induction false} InsertAscends(b: BundleBallot, sorted: seq<BundleBallot>)
    requires Ascending(sorted)
    ensures Ascending(InsertBySeq(b, sorted))
  {
    if sorted == [] || b.logSeq <= sorted[0].logSeq {
      FrontAscends(b, sorted);
    } else {
      InsertAscends(b, sorted[1..]);
      var rest := InsertBySeq(b, sorted[1..]);
      forall x | x in rest ensures sorted[0].logSeq <= x.logSeq { InsertHolds(b, sorted[1..], x); }
      hide InsertBySeq;
      FrontAscends(sorted[0], rest);
      assert InsertBySeq(b, sorted) == [sorted[0]] + rest by { InsertUnfolds(b, sorted); }
    }
  }

  lemma InsertUnfolds(b: BundleBallot, sorted: seq<BundleBallot>)
    requires sorted != [] && b.logSeq > sorted[0].logSeq
    ensures InsertBySeq(b, sorted) == [sorted[0]] + InsertBySeq(b, sorted[1..])
  {
  }

  lemma {:induction false} SortAscends(ballots: seq<BundleBallot>)
    ensures Ascending(SortBySeq(ballots))
  {
    if ballots != [] {
      SortAscends(ballots[1..]);
      InsertAscends(ballots[0], SortBySeq(ballots[1..]));
    }
  }

  /** A log already in order is left as it is. */
  lemma {:induction false} SortKeepsOrder(ballots: seq<BundleBallot>)
    requires Ascending(ballots)
    ensures SortBySeq(ballots) == ballots
  {
    if ballots != [] {
      SortKeepsOrder(ballots[1..]);
      assert ballots == [ballots[0]] + ballots[1..];
    }
  }

  ghost predicate Positioned(bs: seq<BundleBallot>) { forall i | 0 <= i < |bs| :: bs[i].logSeq == i }

  lemma MembersCarry(a: seq<BundleBallot>, b: seq<BundleBallot>)
    requires multiset(a) == multiset(b)
    ensures |a| == |b| && (SeqsInRange(a) ==> SeqsInRange(b))
  {
    assert |a| == |multiset(a)| == |multiset(b)| == |b|;
    forall i | 0 <= i < |b| ensures b[i] in a {
      assert b[i] in multiset(b);
    }
  }

  lemma {:induction false} DistinctCarries(a: seq<BundleBallot>, b: seq<BundleBallot>)
    requires multiset(a) == multiset(b) && SeqsDistinct(a)
    ensures SeqsDistinct(b)
  {
    if a == [] {
      assert |multiset(b)| == 0;
    } else {
      var i := WithoutLast(a, b);
      var init, rest := a[..|a| - 1], b[..i] + b[i + 1..];
      DistinctCarries(init, rest);
      forall j | 0 <= j < |b| && j != i ensures b[j].logSeq != b[i].logSeq {
        var k := if j < i then j else j - 1;
        assert rest[k] == b[j];
        assert rest[k] in multiset(rest);
        var m :| 0 <= m < |init| && init[m] == b[j];
        assert a[m] == b[j] && a[|a| - 1] == b[i];
      }
      forall j, k | 0 <= j < k < |b| ensures b[j].logSeq != b[k].logSeq {
        if j != i && k != i {
          assert rest[if j < i then j else j - 1] == b[j] && rest[if k < i then k else k - 1] == b[k];
        }
      }
    }
  }

  lemma {:induction false} AtLeast(bs: seq<BundleBallot>, i: nat)
    requires i < |bs| && SeqsInRange(bs) && SeqsDistinct(bs) && Ascending(bs)
    ensures bs[i].logSeq >= i
  {
    if i > 0 { AtLeast(bs, i - 1); }
  }

  lemma {:induction false} AtMost(bs: seq<BundleBallot>, i: nat)
    requires i < |bs| && SeqsInRange(bs) && SeqsDistinct(bs) && Ascending(bs)
    ensures bs[i].logSeq <= i
    decreases |bs| - i
  {
    if i + 1 < |bs| { AtMost(bs, i + 1); }
  }

  /** In range and distinct is exactly: sorted, each ballot stands at its own place. */
  lemma ContiguousIffPositioned(ballots: seq<BundleBallot>)
    ensures SeqsInRange(ballots) && SeqsDistinct(ballots) <==> Positioned(SortBySeq(ballots))
  {
    var sorted := SortBySeq(ballots);
    SortAscends(ballots);
    MembersCarry(ballots, sorted);
    MembersCarry(sorted, ballots);
    hide SortBySeq;
    if SeqsInRange(ballots) && SeqsDistinct(ballots) {
      DistinctCarries(ballots, sorted);
      forall i | 0 <= i < |sorted| ensures sorted[i].logSeq == i {
        AtLeast(sorted, i);
        AtMost(sorted, i);
      }
    }
    if Positioned(sorted) {
      DistinctCarries(sorted, ballots);
    }
  }
}
