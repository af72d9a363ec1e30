/** Two accepted bundles under one commitment and one root agree on everything that was voted. */
module VerifierBinding {
  import opened Basics
  import opened Counting
  import opened Json
  import opened JsonSame
  import opened Wire
  import opened Board
  import opened Verifier
  import Hex
  import Inclusion
  import Merkle
  import MerkleBinding
  import TallyTheorems

  // ---- the finitely many preimages in play ----------------------------------------------------

  /** The texts that checking `b` hashes: its set-up and its leaves. */
  ghost function TextPreimages(b: Bundle): set<string> {
    {CanonText(SetupJson(b.setup))} +
    set i | 0 <= i < |b.ballots| ::
      LeafText(b.decisionId, b.ballots[i].logSeq, b.ballots[i].payload, b.ballots[i].serial)
  }

  /** The byte strings that checking `b` hashes: those of its Merkle tree. */
  ghost function BytePreimages(env: Env, b: Bundle): set<seq<Byte>> {
    MerkleBinding.TreePreimages(env.bytes, Inclusion.Decoded(Hashes(SortBySeq(b.ballots))))
  }

  // ---- roots bind the leaf hashes -----------------------------------------------------------------

  lemma EncodedInjective(a: seq<string>, b: seq<string>)
    requires Inclusion.Decoded(a) == Inclusion.Decoded(b)
    requires forall i | 0 <= i < |a| :: exists d :: a[i] == Hex.Encode(d)
    requires forall i | 0 <= i < |b| :: exists d :: b[i] == Hex.Encode(d)
    ensures a == b
  {
    assert |a| == |Inclusion.Decoded(a)| == |Inclusion.Decoded(b)| == |b|;
    forall i | 0 <= i < |a| ensures a[i] == b[i] {
      var d :| a[i] == Hex.Encode(d);
      var e :| b[i] == Hex.Encode(e);
      Hex.DecodeEncode(d);
      Hex.DecodeEncode(e);
      assert Inclusion.Decoded(a)[i] == d && Inclusion.Decoded(b)[i] == e;
    }
  }

  /** A ballot whose leaf check holds, found again after sorting. */
  lemma SortedLeafHolds(env: Env, b: Bundle, i: nat)
    requires LeavesHold(env, b) && i < |SortBySeq(b.ballots)|
    ensures LeafHolds(env, b.decisionId, SortBySeq(b.ballots)[i])
    ensures var c := SortBySeq(b.ballots)[i]; LeafText(b.decisionId, c.logSeq, c.payload, c.serial) in TextPreimages(b)
  {
    hide LeafText, BallotHash, SortBySeq;
    var c := SortBySeq(b.ballots)[i];
    assert c in multiset(SortBySeq(b.ballots));
    assert c in b.ballots;
    var j :| 0 <= j < |b.ballots| && b.ballots[j] == c;
    assert LeafHolds(env, b.decisionId, b.ballots[j]);
  }

  lemma SameHashes(env: Env, a: Bundle, b: Bundle)
    requires LeavesHold(env, a) && LeavesHold(env, b) && RootHolds(env, a) && RootHolds(env, b)
    requires a.anchor.root == b.anchor.root
    requires InjectiveOn(env.bytes, BytePreimages(env, a) + BytePreimages(env, b))
    ensures Hashes(SortBySeq(a.ballots)) == Hashes(SortBySeq(b.ballots))
  {
    var ha, hb := Hashes(SortBySeq(a.ballots)), Hashes(SortBySeq(b.ballots));
    var da, db := Inclusion.Decoded(ha), Inclusion.Decoded(hb);
    forall i | 0 <= i < |ha| ensures exists d :: ha[i] == Hex.Encode(d) { HashIsHex(env, a, i); }
    forall i | 0 <= i < |hb| ensures exists d :: hb[i] == Hex.Encode(d) { HashIsHex(env, b, i); }
    Hex.EncodeInjective(Merkle.Mth(env.bytes, da), Merkle.Mth(env.bytes, db));
    MerkleBinding.RootInjective(env.bytes, da, db);
    EncodedInjective(ha, hb);
  }

  lemma HashIsHex(env: Env, b: Bundle, i: nat)
    requires LeavesHold(env, b) && i < |SortBySeq(b.ballots)|
    ensures exists d: seq<Byte> :: Hashes(SortBySeq(b.ballots))[i] == Hex.Encode(d)
  {
    SortedLeafHolds(env, b, i);
    var c := SortBySeq(b.ballots)[i];
    assert Hashes(SortBySeq(b.ballots))[i]
      == Hex.Encode(env.text(LeafText(b.decisionId, c.logSeq, c.payload, c.serial)));
  }

  // ---- leaf hashes bind the ballots ----------------------------------------------------------------

  lemma SameBallot(env: Env, a: Bundle, b: Bundle, i: nat)
    requires LeavesHold(env, a) && LeavesHold(env, b)
    requires InjectiveOn(env.text, TextPreimages(a) + TextPreimages(b))
    requires Hashes(SortBySeq(a.ballots)) == Hashes(SortBySeq(b.ballots))
        && i < |SortBySeq(a.ballots)| == |SortBySeq(b.ballots)|
    ensures SortBySeq(a.ballots)[i] == SortBySeq(b.ballots)[i]
  {
    SortedLeafHolds(env, a, i);
    SortedLeafHolds(env, b, i);
    var c, d := SortBySeq(a.ballots)[i], SortBySeq(b.ballots)[i];
    assert Hashes(SortBySeq(a.ballots))[i] == c.ballotHash && Hashes(SortBySeq(b.ballots))[i] == d.ballotHash;
    var s, t := LeafText(a.decisionId, c.logSeq, c.payload, c.serial),
      LeafText(b.decisionId, d.logSeq, d.payload, d.serial);
    Hex.EncodeInjective(env.text(s), env.text(t));
    hide SortBySeq, Hashes, TextPreimages, LeafText, LeavesHold;
    InjectiveOnPair(env.text, TextPreimages(a) + TextPreimages(b), s, t);
    LeafTextInjective(a.decisionId, c.logSeq, c.payload, c.serial, b.decisionId, d.logSeq, d.payload, d.serial);
  }

  lemma SameSetup(env: Env, a: Bundle, b: Bundle)
    requires SetupHolds(env, a) && SetupHolds(env, b) && a.setupCommitment == b.setupCommitment
    requires Valid(a.setup.roster) && Valid(a.setup.schedule) && Valid(b.setup.roster) && Valid(b.setup.schedule)
    requires InjectiveOn(env.text, TextPreimages(a) + TextPreimages(b))
    ensures var s, t := a.setup, b.setup;
      && s.options == t.options && s.scheme == t.scheme && s.rule == t.rule && s.ballotMode == t.ballotMode
      && s.resultsPolicy == t.resultsPolicy && s.issuerPubKeyHash == t.issuerPubKeyHash
      && Same(s.roster, t.roster) && Same(s.schedule, t.schedule)
  {
    hide Encode, SetupJson, LeafText;
    var x, y := CanonText(SetupJson(a.setup)), CanonText(SetupJson(b.setup));
    Hex.EncodeInjective(env.text(x), env.text(y));
    assert x in TextPreimages(a) && y in TextPreimages(b);
    InjectiveOnPair(env.text, TextPreimages(a) + TextPreimages(b), x, y);
    SetupInjective(a.setup, b.setup);
  }

  // ---- the theorem -----------------------------------------------------------------------------------

  /** The same ballots in any order give the same tally. */
  lemma SameTally(a: Bundle, b: Bundle)
    requires SortBySeq(a.ballots) == SortBySeq(b.ballots)
    requires a.setup.scheme == b.setup.scheme && a.setup.options == b.setup.options && a.setup.rule == b.setup.rule
    ensures OwnTally(a) == OwnTally(b) && OwnVerdict(a) == OwnVerdict(b)
  {
    assert multiset(a.ballots) == multiset(b.ballots) by {
      assert multiset(SortBySeq(a.ballots)) == multiset(a.ballots);
    }
    MapPermutation(a.ballots, b.ballots, PayloadOf());
    TallyTheorems.TallyOrderIrrelevant(a.setup.scheme, Map(a.ballots, PayloadOf()), Map(b.ballots, PayloadOf()),
      |a.setup.options|);
  }

  /**
   * Two bundles with one set-up commitment and one anchored root, both accepted: whatever order
   * they list their ballots in, they hold the same ballots in logSeq order, the same options,
   * method, rule and modes, and report the same tally and verdict, unless hashing the listed
   * preimages collides.
   */
  lemma AcceptedBundlesAgree(env: Env, a: Bundle, b: Bundle)
    requires ReportOf(env, a).Ok() && ReportOf(env, b).Ok()
    requires a.setupCommitment == b.setupCommitment && a.anchor.root == b.anchor.root
    requires Valid(a.setup.roster) && Valid(a.setup.schedule) && Valid(b.setup.roster) && Valid(b.setup.schedule)
    requires InjectiveOn(env.text, TextPreimages(a) + TextPreimages(b))
    requires InjectiveOn(env.bytes, BytePreimages(env, a) + BytePreimages(env, b))
    ensures SortBySeq(a.ballots) == SortBySeq(b.ballots) && Positioned(SortBySeq(a.ballots))
    ensures a.anchor.treeSize == b.anchor.treeSize
    ensures a.ballots != [] ==> a.decisionId == b.decisionId
    ensures a.setup.options == b.setup.options && a.setup.scheme == b.setup.scheme && a.setup.rule == b.setup.rule
    ensures a.setup.ballotMode == b.setup.ballotMode && a.setup.resultsPolicy == b.setup.resultsPolicy
    ensures a.setup.issuerPubKeyHash == b.setup.issuerPubKeyHash
    ensures Same(a.setup.roster, b.setup.roster) && Same(a.setup.schedule, b.setup.schedule)
    ensures ReportOf(env, a).tally == ReportOf(env, b).tally && ReportOf(env, a).verdict == ReportOf(env, b).verdict
    ensures a.published.Some? ==> a.published.value == (ReportOf(env, b).tally, ReportOf(env, b).verdict)
  {
    hide SetupHolds, LeavesHold, RootHolds, NoDoubleVote, ResultHolds, OwnTally, OwnVerdict, TextPreimages,
      BytePreimages;
    SameSetup(env, a, b);
    SameHashes(env, a, b);
    SameLengths(a.ballots, b.ballots);
    var sa, sb := SortBySeq(a.ballots), SortBySeq(b.ballots);
    forall i | 0 <= i < |sa| ensures sa[i] == sb[i] { SameBallot(env, a, b, i); }
    assert sa == sb;
    ContiguousIffPositioned(a.ballots);
    SameTally(a, b);
    ResultHoldsIff(a);
    if a.ballots != [] { SameDecision(env, a, b); }
  }

  lemma SameLengths(a: seq<BundleBallot>, b: seq<BundleBallot>)
    requires Hashes(SortBySeq(a)) == Hashes(SortBySeq(b))
    ensures |a| == |SortBySeq(a)| == |Hashes(SortBySeq(a))| == |SortBySeq(b)| == |b|
  {
    assert |a| == |multiset(a)| == |multiset(SortBySeq(a))| && |b| == |multiset(b)| == |multiset(SortBySeq(b))|;
  }

  lemma SameDecision(env: Env, a: Bundle, b: Bundle)
    requires LeavesHold(env, a) && LeavesHold(env, b) && a.ballots != []
    requires InjectiveOn(env.text, TextPreimages(a) + TextPreimages(b))
    requires SortBySeq(a.ballots) == SortBySeq(b.ballots)
    ensures a.decisionId == b.decisionId
  {
    assert |SortBySeq(a.ballots)| == |multiset(a.ballots)| == |a.ballots|;
    SortedLeafHolds(env, a, 0);
    SortedLeafHolds(env, b, 0);
    var c := SortBySeq(a.ballots)[0];
    var s, t := LeafText(a.decisionId, c.logSeq, c.payload, c.serial),
      LeafText(b.decisionId, c.logSeq, c.payload, c.serial);
    Hex.EncodeInjective(env.text(s), env.text(t));
    hide SortBySeq, TextPreimages, LeafText, LeavesHold;
    InjectiveOnPair(env.text, TextPreimages(a) + TextPreimages(b), s, t);
    LeafTextInjective(a.decisionId, c.logSeq, c.payload, c.serial, b.decisionId, c.logSeq, c.payload, c.serial);
  }
}
