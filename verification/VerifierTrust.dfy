/** What an accepted bundle is worth: the server signed its root, and no credential voted twice. */
module VerifierTrust {
  import opened Basics
  import opened Json
  import opened JsonSame
  import opened Wire
  import opened Board
  import opened Verifier
  import Inclusion

  /** All that the server's key signs: roots, receipts, lifecycle events and refusals. */
  datatype Statement =
    | RootStatement(root: string, treeSize: int, decisionId: string)
    | ReceiptStatement(leaf: string, position: int, runningRoot: string)
    | MoveStatement(id: string, from: LifecycleState, to: LifecycleState, actor: string, ts: int)
    | ExtendStatement(id: string, actor: string, ts: int, closesAt: int)
    | RefusalStatement(error: string, id: string, serial: Option<string>)

  function RefusalJson(error: string, id: string, serial: Option<string>): JsValue {
    Obj([Field("error", Str(error)), Field("decisionId", Str(id))]
        + Optional("serial", if serial.Some? then Some(Str(serial.value)) else None))
  }

  function StatementJson(t: Statement): JsValue {
    match t
    case RootStatement(root, size, id) => RootJson(root, size, id)
    case ReceiptStatement(leaf, position, root) => ReceiptJson(leaf, position, root)
    case MoveStatement(id, from, to, actor, ts) => EventJson(id, from, to, actor, ts, [])
    case ExtendStatement(id, actor, ts, closesAt) => EventJson(id, Open, Open, actor, ts, ExtendFields(closesAt))
    case RefusalStatement(error, id, serial) => RefusalJson(error, id, serial)
  }

  function StatementText(t: Statement): string { CanonText(StatementJson(t)) }

  /** Nobody but the server signs under `pk`: every signature that verifies is over a text it signed. */
  ghost predicate OnlySigned(env: Env, pk: string, signed: Statement -> bool) {
    forall m, s :: env.verify(pk, m, s) ==> exists t :: signed(t) && m == StatementText(t)
  }

  // ---- the texts of different statements differ ---------------------------------------------

  lemma StatementIsFine(t: Statement)
    ensures Fine(StatementJson(t)) && StatementJson(t).Obj?
  {
    match t
    case RootStatement(root, size, id) => RootIsFine(root, size, id);
    case ReceiptStatement(leaf, position, root) => ReceiptIsFine(leaf, position, root);
    case MoveStatement(id, from, to, actor, ts) => EventIsFine(id, from, to, actor, ts, None);
    case ExtendStatement(id, actor, ts, closesAt) => EventIsFine(id, Open, Open, actor, ts, Some(closesAt));
    case RefusalStatement(error, id, serial) => RefusalIsFine(error, id, serial);
  }

  lemma EventKeys(fs: seq<Field>)
    requires 5 <= |fs| <= 7
    requires fs[0].key == "decisionId" && fs[1].key == "from" && fs[2].key == "to" && fs[3].key == "actor"
    requires fs[4].key == "timestamp" && (|fs| > 5 ==> fs[5].key == "transition")
        && (|fs| > 6 ==> fs[6].key == "closesAt")
    ensures DistinctKeys(fs)
    ensures forall f | f in fs :: f.key != "root" && f.key != "ballotHash"
  {
    assert |"root"| == 4 && |"from"| == 4 && "from"[0] != "root"[0] && |"ballotHash"| == 10 && "ballotHash"[0] == 'b';
    forall i | 0 <= i < |fs| ensures |fs[i].key| == [10, 4, 2, 5, 9, 10, 8][i] { }
    assert fs[0].key[0] == 'd';
    if |fs| > 5 { assert fs[5].key[0] == 't'; }
  }

  lemma EventFields(id: string, from: LifecycleState, to: LifecycleState, actor: string, ts: int,
      closesAt: Option<int>)
    ensures var v := EventJson(id, from, to, actor, ts, if closesAt.Some? then ExtendFields(closesAt.value) else []);
      && v == Obj(v.fields) && DistinctKeys(v.fields)
      && (forall f | f in v.fields ::
            || f.val in [Str(id), Str(StateName(from)), Str(StateName(to)), Str(actor), Int(ts), Str("extend")]
            || (closesAt.Some? && f.val == Int(closesAt.value)))
      && (forall f | f in v.fields :: f.key != "root" && f.key != "ballotHash")
  {
    hide Int, StateName;
    var v := EventJson(id, from, to, actor, ts, if closesAt.Some? then ExtendFields(closesAt.value) else []);
    EventKeys(v.fields);
    hide DistinctKeys;
  }

  lemma EventIsFine(id: string, from: LifecycleState, to: LifecycleState, actor: string, ts: int,
      closesAt: Option<int>)
    ensures Fine(EventJson(id, from, to, actor, ts, if closesAt.Some? then ExtendFields(closesAt.value) else []))
  {
    hide *;
    var v := EventJson(id, from, to, actor, ts, if closesAt.Some? then ExtendFields(closesAt.value) else []);
    EventFields(id, from, to, actor, ts, closesAt);
    FineParts(id, None, ts, [], []);
    FineParts(actor, None, if closesAt.Some? then closesAt.value else 0, [], []);
    FineParts(StateName(from), None, 0, [], []);
    FineParts(StateName(to), None, 0, [], []);
    FineParts("extend", None, 0, [], []);
    AllFine(v.fields);
    FineObject(v.fields);
  }

  lemma AllFine(fs: seq<Field>)
    requires forall f | f in fs :: Fine(f.val)
    ensures FineFields(fs)
  {
    hide Fine;
  }

  lemma RefusalIsFine(error: string, id: string, serial: Option<string>)
    ensures Fine(RefusalJson(error, id, serial))
  {
    assert "error"[0] == 'e' && "decisionId"[0] == 'd' && "serial"[0] == 's';
    FineParts(error, None, 0, [], []);
    FineParts(id, None, 0, [], []);
    FineParts(if serial.Some? then serial.value else "", None, 0, [], []);
    hide Fine;
    FineObject(RefusalJson(error, id, serial).fields);
  }

  /** Only roots have a member called root, and only receipts one called ballotHash. */
  lemma NamingMembers(t: Statement)
    ensures (exists f :: f in StatementJson(t).fields && f.key == "root") <==> t.RootStatement?
    ensures (exists f :: f in StatementJson(t).fields && f.key == "ballotHash") <==> t.ReceiptStatement?
  {
    match t
    case MoveStatement(id, from, to, actor, ts) =>
      EventFields(id, from, to, actor, ts, None);
    case ExtendStatement(id, actor, ts, closesAt) =>
      EventFields(id, Open, Open, actor, ts, Some(closesAt));
    case RootStatement(root, size, id) =>
      hide Int;
      assert StatementJson(t).fields[0].key == "root" && |"ballotHash"| != |"treeSize"|
        && "ballotHash"[0] != "decisionId"[0];
    case ReceiptStatement(leaf, position, root) =>
      hide Int;
      assert StatementJson(t).fields[0].key == "ballotHash" && |"root"| == 4;
    case RefusalStatement(error, id, serial) =>
      assert |"root"| == 4 && |"ballotHash"| == 10 && "ballotHash"[0] != "decisionId"[0];
  }

  /** Equal texts are texts of the same kind of statement, as far as roots and receipts go. */
  lemma SameKindOfText(t: Statement, u: Statement)
    requires StatementText(t) == StatementText(u)
    ensures t.RootStatement? == u.RootStatement? && t.ReceiptStatement? == u.ReceiptStatement?
    ensures Encode(StatementJson(t)) == Encode(StatementJson(u))
  {
    StatementIsFine(t);
    StatementIsFine(u);
    NamingMembers(t);
    NamingMembers(u);
    var v, w := StatementJson(t), StatementJson(u);
    assert Valid(v) && Valid(w) && Representable(v) && Representable(w);
    hide StatementJson, Valid, Representable, Same, Encode, Fine;
    CanonicalTextIsFaithful(v, w);
    assert v == Obj(v.fields) && w == Obj(w.fields);
    SameKeys(v.fields, w.fields, "root");
    SameKeys(v.fields, w.fields, "ballotHash");
  }

  lemma SameKeys(fs: seq<Field>, gs: seq<Field>, key: string)
    requires Same(Obj(fs), Obj(gs))
    ensures (exists f :: f in fs && f.key == key) <==> (exists g :: g in gs && g.key == key)
  {
    hide Same;
    if f :| f in fs && f.key == key { var g := Partner(fs, gs, f); assert g in gs && g.key == key; }
    if g :| g in gs && g.key == key { var f := PartnerBack(fs, gs, g); assert f in fs && f.key == key; }
  }

  // ---- what verifies was signed --------------------------------------------------------------

  /** A root signature that verifies is over a root, size and decision that the server signed. */
  lemma VerifiedRootWasSigned(env: Env, pk: string, signed: Statement -> bool, root: string, size: int, id: string,
      sig: string)
    requires OnlySigned(env, pk, signed) && env.verify(pk, CanonText(RootJson(root, size, id)), sig)
    ensures signed(RootStatement(root, size, id))
  {
    var mine := RootStatement(root, size, id);
    assert StatementText(mine) == CanonText(RootJson(root, size, id));
    var t :| signed(t) && StatementText(mine) == StatementText(t);
    SameKindOfText(mine, t);
    RootTextIff(root, size, id, t.root, t.treeSize, t.decisionId);
  }

  /** A receipt signature that verifies is over a leaf, position and root that the server signed. */
  lemma VerifiedReceiptWasSigned(env: Env, pk: string, signed: Statement -> bool, leaf: string, position: int,
      root: string, sig: string)
    requires OnlySigned(env, pk, signed) && env.verify(pk, CanonText(ReceiptJson(leaf, position, root)), sig)
    ensures signed(ReceiptStatement(leaf, position, root))
  {
    var mine := ReceiptStatement(leaf, position, root);
    assert StatementText(mine) == CanonText(ReceiptJson(leaf, position, root));
    var t :| signed(t) && StatementText(mine) == StatementText(t);
    SameKindOfText(mine, t);
    ReceiptTextIff(leaf, position, root, t.leaf, t.position, t.runningRoot);
  }

  /** The server signed the root, the size and the decision of every bundle that is accepted under its key. */
  lemma AcceptedAnchorWasSigned(env: Env, b: Bundle, signed: Statement -> bool)
    requires OnlySigned(env, b.serverPubKeyPem, signed) && ReportOf(env, b).Ok()
    ensures signed(RootStatement(b.anchor.root, b.anchor.treeSize, b.decisionId))
  {
    AcceptedMeans(env, b);
    hide *;
    VerifiedRootWasSigned(env, b.serverPubKeyPem, signed, b.anchor.root, b.anchor.treeSize, b.decisionId,
                          b.anchor.signedRoot);
  }

  /** Every fact that acceptance establishes, ballot by ballot. */
  lemma AcceptedMeans(env: Env, b: Bundle)
    requires ReportOf(env, b).Ok()
    ensures env.verify(b.serverPubKeyPem, CanonText(RootJson(b.anchor.root, b.anchor.treeSize, b.decisionId)),
                       b.anchor.signedRoot)
    ensures b.anchor.treeSize == |b.ballots|
    ensures forall i, j | 0 <= i < j < |b.ballots| ::
      && b.ballots[i].logSeq != b.ballots[j].logSeq
      && (b.setup.ballotMode == SecretBallots && b.ballots[i].serial.Some?
          ==> b.ballots[i].serial != b.ballots[j].serial)
    ensures forall i | 0 <= i < |b.ballots| ::
      var c := b.ballots[i]; c.ballotHash == BallotHash(env, b.decisionId, c.logSeq, c.payload, c.serial)
  {
    hide CanonText, BallotHash, SortBySeq, Hashes;
  }

  // ---- exactly when a bundle is accepted -------------------------------------------------------

  /** Each ballot's leaf hash stands in `leaves` at the ballot's position, and nothing else does. */
  predicate Placed(ballots: seq<BundleBallot>, leaves: seq<string>) {
    && |leaves| == |ballots|
    && forall i | 0 <= i < |ballots| ::
         0 <= ballots[i].logSeq < |leaves| && leaves[ballots[i].logSeq] == ballots[i].ballotHash
  }

  /** Sorting by position puts the hashes where the positions say. */
  lemma PlacedIsSorted(ballots: seq<BundleBallot>, leaves: seq<string>)
    requires SeqsDistinct(ballots) && Placed(ballots, leaves)
    ensures SeqsInRange(ballots) && Hashes(SortBySeq(ballots)) == leaves
  {
    var sorted := SortBySeq(ballots);
    ContiguousIffPositioned(ballots);
    hide SortBySeq, SeqsDistinct;
    assert |sorted| == |multiset(sorted)| == |multiset(ballots)| == |ballots|;
    forall i | 0 <= i < |sorted| ensures sorted[i].ballotHash == leaves[i] {
      assert sorted[i] in multiset(sorted);
      assert sorted[i] in ballots;
    }
  }

  lemma SortedIsPlaced(ballots: seq<BundleBallot>)
    requires SeqsInRange(ballots) && SeqsDistinct(ballots)
    ensures Placed(ballots, Hashes(SortBySeq(ballots)))
  {
    var sorted := SortBySeq(ballots);
    ContiguousIffPositioned(ballots);
    hide SortBySeq, SeqsDistinct, SeqsInRange;
    assert |sorted| == |multiset(sorted)| == |multiset(ballots)| == |ballots|;
    forall i | 0 <= i < |ballots|
      ensures 0 <= ballots[i].logSeq < |sorted| && sorted[ballots[i].logSeq] == ballots[i]
    {
      assert ballots[i] in multiset(ballots);
      assert ballots[i] in sorted;
    }
  }

  /** An accepted bundle has a leaf list to which every ballot contributes at its own place. */
  lemma AcceptedIsPlaced(env: Env, b: Bundle)
    requires ReportOf(env, b).Ok()
    ensures SeqsDistinct(b.ballots) && Placed(b.ballots, Hashes(SortBySeq(b.ballots)))
  {
    assert ContiguityHolds(b);
    hide SortBySeq, SeqsDistinct, LeavesHold, RootHolds, SetupHolds, NoDoubleVote, ResultHolds, OwnTally, OwnVerdict,
      Placed, Hashes;
    SortedIsPlaced(b.ballots);
  }

  /**
   * With one ballot for each position, a bundle is accepted exactly when its set-up hashes to the
   * commitment, every leaf recomputes, the leaves in their places have the anchored root, the anchor
   * counts them all and is signed, no present serial of a secret decision occurs twice, and what was
   * published, if anything, is what tallying the ballots gives.
   */
  lemma AcceptedIff(env: Env, b: Bundle, leaves: seq<string>)
    requires SeqsDistinct(b.ballots) && Placed(b.ballots, leaves)
    ensures ReportOf(env, b).Ok() <==>
      && Encode(SetupJson(b.setup)).Some? && b.setupCommitment == SetupCommitment(env, b.setup)
      && (forall i | 0 <= i < |b.ballots| :: var c := b.ballots[i];
            c.ballotHash == BallotHash(env, b.decisionId, c.logSeq, c.payload, c.serial))
      && Inclusion.MerkleRoot(env.bytes, leaves) == Some(b.anchor.root)
      && b.anchor.treeSize == |b.ballots|
      && env.verify(b.serverPubKeyPem, CanonText(RootJson(b.anchor.root, b.anchor.treeSize, b.decisionId)),
                    b.anchor.signedRoot)
      && (b.setup.ballotMode == SecretBallots ==>
            forall i, j | 0 <= i < j < |b.ballots| ::
              b.ballots[i].serial.Some? ==> b.ballots[i].serial != b.ballots[j].serial)
      && (b.published.Some? ==> b.published.value == (OwnTally(b), OwnVerdict(b)))
  {
    PlacedIsSorted(b.ballots, leaves);
    ResultHoldsIff(b);
    hide CanonText, BallotHash, SortBySeq, Hashes, Encode, SetupJson, SetupCommitment, Inclusion.MerkleRoot, OwnTally,
      OwnVerdict, ResultHolds, Placed;
  }
}
