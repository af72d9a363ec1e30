/** What every run keeps, with secret-mode casts pausing at their credential check in any interleaving. */
module BoardSafety {
  import opened Basics
  import opened Tallies
  import opened Wire
  import opened Board

  // ---- the invariant ---------------------------------------------------------------------

  /** Row `i` of a log: its position, its recomputable leaf, and the root before it. */
  ghost predicate RowOk(env: Env, id: string, ballots: seq<BallotRow>, i: int)
    requires 0 <= i < |ballots|
  {
    var b := ballots[i];
    && b.logSeq == i
    && b.ballotHash == BallotHash(env, id, i, b.payload, b.serial)
    && b.prevHead == RootText(env, Leaves(ballots)[..i])
  }

  /** The receipt of row `i` is stored and commits to the root just after it. */
  ghost predicate ReceiptOk(env: Env, id: string, ballots: seq<BallotRow>, receipts: map<string, Receipt>, i: int)
    requires 0 <= i < |ballots|
  {
    var h := ballots[i].ballotHash;
    h in receipts && receipts[h] == ReceiptFor(env, id, i, h, RootText(env, Leaves(ballots)[..i + 1]))
  }

  ghost predicate DistinctCasts(ballots: seq<BallotRow>) {
    forall i, j | 0 <= i < j < |ballots| ::
      && ballots[i].idempotencyKey != ballots[j].idempotencyKey
      && (ballots[i].serial.Some? ==> ballots[i].serial != ballots[j].serial)
  }

  ghost predicate LogOk(env: Env, id: string, ballots: seq<BallotRow>, receipts: map<string, Receipt>) {
    && (forall i | 0 <= i < |ballots| :: RowOk(env, id, ballots, i))
    && (forall i | 0 <= i < |ballots| :: ReceiptOk(env, id, ballots, receipts, i))
    && DistinctCasts(ballots)
  }

  /** The head commits to the whole log; before the first opening there is neither head nor log. */
  ghost predicate HeadOk(env: Env, d: Decision) {
    && (d.head.Some? ==> d.head.value == Head(RootText(env, Leaves(d.ballots)), |d.ballots|))
    && (d.head.None? ==> d.ballots == [])
    && (d.state in {Draft, Registration} ==> d.head.None?)
    && (d.state in {Open, Closed, Challenge, Published} ==> d.head.Some?)
  }

  /** A stored checkpoint signs the root of a prefix of the log. */
  ghost predicate CheckpointOk(env: Env, id: string, ballots: seq<BallotRow>, cp: Checkpoint) {
    && 0 <= cp.treeSize <= |ballots|
    && cp.root == RootText(env, Leaves(ballots)[..cp.treeSize])
    && cp.signedRoot == SignRoot(env, id, cp.root, cp.treeSize)
  }

  /** At most one checkpoint, written by publishing. */
  ghost predicate CheckpointsOk(env: Env, id: string, d: Decision) {
    && |d.checkpoints| == (if d.state == Published then 1 else 0)
    && forall i | 0 <= i < |d.checkpoints| :: CheckpointOk(env, id, d.ballots, d.checkpoints[i])
  }

  function Openings(events: seq<Event>): nat {
    if events == [] then 0
    else Openings(events[..|events| - 1]) + if events[|events| - 1].transition == "open" then 1 else 0
  }

  ghost predicate LifecycleOk(d: Decision) {
    && Openings(d.events) <= 1
    && (d.state in {Draft, Registration} ==> Openings(d.events) == 0)
  }

  ghost predicate DecisionOk(env: Env, id: string, d: Decision, receipts: map<string, Receipt>) {
    && d.setupCommitment == SetupCommitment(env, SetupOf(env, d.config)) && ValidConfig(d.config)
    && LogOk(env, id, d.ballots, receipts)
    && HeadOk(env, d)
    && CheckpointsOk(env, id, d)
    && LifecycleOk(d)
  }

  ghost predicate StoreOk(env: Env, st: Store) {
    forall id | id in st.decisions :: DecisionOk(env, id, st.decisions[id], st.receipts)
  }

  /** Leaf hash `h` is that of row `i` of decision `id`. */
  ghost predicate IsLeafOf(st: Store, h: string, id: string, i: int) {
    id in st.decisions && 0 <= i < |st.decisions[id].ballots| && st.decisions[id].ballots[i].ballotHash == h
  }

  /** Every stored receipt belongs to a stored ballot. */
  ghost predicate ReceiptsOwned(st: Store) {
    forall h | h in st.receipts :: exists id, i :: IsLeafOf(st, h, id, i)
  }

  /** A paused cast was admitted by an open secret-ballot decision. */
  ghost predicate WaitingOk(st: Store, req: CastRequest) {
    && req.decisionId in st.decisions
    && st.decisions[req.decisionId].head.Some?
    && st.decisions[req.decisionId].config.ballotMode == SecretBallots
  }

  ghost predicate SystemOk(env: Env, sys: System) {
    && StoreOk(env, sys.store) && ReceiptsOwned(sys.store)
    && forall k | 0 <= k < |sys.waiting| :: WaitingOk(sys.store, sys.waiting[k])
  }

  // ---- what one step may do to the tables -----------------------------------------------------

  /** The log is only extended, set-ups stay, heads stay, receipts stay, checkpoints are only added. */
  ghost predicate Extends(st: Store, st': Store) {
    && (forall h | h in st.receipts :: h in st'.receipts && st'.receipts[h] == st.receipts[h])
    && (forall id | id in st.decisions ::
          id in st'.decisions && DecisionExtends(st.decisions[id], st'.decisions[id]))
  }

  ghost predicate DecisionExtends(d: Decision, d': Decision) {
    && d'.config == d.config && d'.setupCommitment == d.setupCommitment
    && d.ballots <= d'.ballots && d.checkpoints <= d'.checkpoints && d.events <= d'.events
    && (d.head.Some? ==> d'.head.Some?)
  }

  // ---- the transaction -------------------------------------------------------------------------

  lemma LeavesAppend(ballots: seq<BallotRow>, row: BallotRow)
    ensures Leaves(ballots + [row]) == Leaves(ballots) + [row.ballotHash]
    ensures forall i | 0 <= i <= |ballots| :: Leaves(ballots + [row])[..i] == Leaves(ballots)[..i]
    ensures Leaves(ballots + [row])[..|ballots| + 1] == Leaves(ballots + [row])
    ensures Leaves(ballots)[..|ballots|] == Leaves(ballots)
  {
  }

  /** Appending a well-formed row with a fresh receipt keeps the log in order. */
  lemma AppendKeepsLog(env: Env, id: string, ballots: seq<BallotRow>, receipts: map<string, Receipt>, row: BallotRow)
    requires LogOk(env, id, ballots, receipts)
    requires row.logSeq == |ballots| && row.ballotHash == BallotHash(env, id, |ballots|, row.payload, row.serial)
    requires row.prevHead == RootText(env, Leaves(ballots))
    requires FindKey(ballots, row.idempotencyKey).None?
    requires row.serial.Some? ==> !SerialExists(ballots, row.serial.value)
    requires row.ballotHash !in receipts
    ensures var receipt := ReceiptFor(env, id, |ballots|, row.ballotHash, RootText(env, Leaves(ballots + [row])));
      LogOk(env, id, ballots + [row], receipts[row.ballotHash := receipt])
  {
    var all := ballots + [row];
    var receipt := ReceiptFor(env, id, |ballots|, row.ballotHash, RootText(env, Leaves(all)));
    var receipts' := receipts[row.ballotHash := receipt];
    LeavesAppend(ballots, row);
    hide Leaves, RootText, BallotHash, ReceiptFor, FindKey;
    forall i | 0 <= i < |all| ensures RowOk(env, id, all, i) {
      if i < |ballots| { assert RowOk(env, id, ballots, i); }
    }
    forall i | 0 <= i < |all| ensures ReceiptOk(env, id, all, receipts', i) {
      if i < |ballots| { assert ReceiptOk(env, id, ballots, receipts, i); }
    }
    forall i, j | 0 <= i < j < |all|
      ensures all[i].idempotencyKey != all[j].idempotencyKey
      ensures all[i].serial.Some? ==> all[i].serial != all[j].serial
    {
    }
  }

  /** A receipt for a new leaf disturbs no other log. */
  lemma OtherLogsKeep(env: Env, id: string, ballots: seq<BallotRow>, receipts: map<string, Receipt>, h: string,
      receipt: Receipt)
    requires LogOk(env, id, ballots, receipts) && h !in receipts
    ensures LogOk(env, id, ballots, receipts[h := receipt])
  {
    var receipts' := receipts[h := receipt];
    forall i | 0 <= i < |ballots| ensures ReceiptOk(env, id, ballots, receipts', i) {
      assert ReceiptOk(env, id, ballots, receipts, i);
    }
  }

  lemma CheckpointsSurvive(env: Env, id: string, ballots: seq<BallotRow>, row: BallotRow, cp: Checkpoint)
    requires CheckpointOk(env, id, ballots, cp)
    ensures CheckpointOk(env, id, ballots + [row], cp)
  {
    LeavesAppend(ballots, row);
  }

  /** The row that a transaction would append. */
  function NewRow(env: Env, id: string, d: Decision, payload: Payload, key: string, serial: Option<string>): BallotRow {
    BallotRow(payload, serial, key, |d.ballots|, if d.head.Some? then d.head.value.head else "",
              BallotHash(env, id, |d.ballots|, payload, serial))
  }

  function Appended(env: Env, d: Decision, row: BallotRow): Decision {
    d.(ballots := d.ballots + [row], head := Some(Head(RootText(env, Leaves(d.ballots + [row])), |d.ballots| + 1)))
  }

  function NewReceipt(env: Env, id: string, d: Decision, row: BallotRow): Receipt {
    ReceiptFor(env, id, |d.ballots|, row.ballotHash, RootText(env, Leaves(d.ballots + [row])))
  }

  lemma CommitCases(env: Env, st: Store, id: string, payload: Payload, key: string, serial: Option<string>)
    requires id in st.decisions
    ensures var (st', reply) := Commit(env, st, id, payload, key, serial);
      var d := st.decisions[id];
      var row := NewRow(env, id, d, payload, key, serial);
      && (!reply.Accepted? ==> st' == st)
      && (reply.HeadRefused? ==> !HeadAccepts(d.head, |d.ballots| + 1))
      && (reply.Accepted? ==>
            && FindKey(d.ballots, key).None? && (serial.Some? ==> !SerialExists(d.ballots, serial.value))
            && row.ballotHash !in st.receipts && reply.receipt == NewReceipt(env, id, d, row)
            && st' == Store(st.decisions[id := Appended(env, d, row)], st.receipts[row.ballotHash := reply.receipt]))
  {
    hide Leaves, RootText, BallotHash, ReceiptFor, FindKey;
  }

  lemma DecisionAppend(env: Env, id: string, d: Decision, receipts: map<string, Receipt>, row: BallotRow)
    requires DecisionOk(env, id, d, receipts) && d.head.Some?
    requires row == NewRow(env, id, d, row.payload, row.idempotencyKey, row.serial)
    requires FindKey(d.ballots, row.idempotencyKey).None?
        && (row.serial.Some? ==> !SerialExists(d.ballots, row.serial.value))
    requires row.ballotHash !in receipts
    ensures DecisionOk(env, id, Appended(env, d, row), receipts[row.ballotHash := NewReceipt(env, id, d, row)])
    ensures HeadAccepts(d.head, |d.ballots| + 1)
  {
    hide Leaves, RootText, BallotHash, ReceiptFor, FindKey, SetupCommitment, SetupOf, ValidConfig, LogOk, CheckpointOk;
    AppendKeepsLog(env, id, d.ballots, receipts, row);
    forall i | 0 <= i < |d.checkpoints| ensures CheckpointOk(env, id, d.ballots + [row], d.checkpoints[i]) {
      CheckpointsSurvive(env, id, d.ballots, row, d.checkpoints[i]);
    }
  }

  lemma StoreAt(env: Env, st: Store, id: string)
    requires StoreOk(env, st) && id in st.decisions
    ensures DecisionOk(env, id, st.decisions[id], st.receipts)
  {
  }

  lemma NewRowParts(env: Env, id: string, d: Decision, payload: Payload, key: string, serial: Option<string>)
    ensures var row := NewRow(env, id, d, payload, key, serial);
      row.payload == payload && row.idempotencyKey == key && row.serial == serial
  {
  }

  lemma StoreWith(env: Env, st: Store, id: string, d: Decision, receipts: map<string, Receipt>)
    requires DecisionOk(env, id, d, receipts)
    requires forall x | x in st.decisions && x != id :: DecisionOk(env, x, st.decisions[x], receipts)
    ensures StoreOk(env, Store(st.decisions[id := d], receipts))
  {
    hide DecisionOk;
  }

  /**
   * The transaction keeps the invariant whenever a head exists, whatever the state has become
   * meanwhile; it changes nothing unless it accepts, and head.set never refuses it.
   */
  lemma CommitKeeps(env: Env, st: Store, id: string, payload: Payload, key: string, serial: Option<string>)
    requires StoreOk(env, st) && id in st.decisions && st.decisions[id].head.Some?
    ensures var (st', reply) := Commit(env, st, id, payload, key, serial);
      && StoreOk(env, st') && Extends(st, st') && reply != HeadRefused
      && (!reply.Accepted? ==> st' == st)
      && (reply.Accepted? ==> OneBallotMore(st, st', id, payload, key, serial, reply.receipt))
  {
    var d := st.decisions[id];
    var row := NewRow(env, id, d, payload, key, serial);
    var (st', reply) := Commit(env, st, id, payload, key, serial);
    hide *;
    CommitCases(env, st, id, payload, key, serial);
    NewRowParts(env, id, d, payload, key, serial);
    StoreAt(env, st, id);
    if reply.Accepted? {
      DecisionAppend(env, id, d, st.receipts, row);
      AppendedExtends(env, st, id, row);
      forall x | x in st.decisions && x != id ensures DecisionOk(env, x, st.decisions[x], st'.receipts) {
        StoreAt(env, st, x);
        OtherDecisionsKeep(env, x, st.decisions[x], st.receipts, row.ballotHash, reply.receipt);
      }
      StoreWith(env, st, id, Appended(env, d, row), st'.receipts);
    } else {
      HeadNeverRefuses(env, id, d, st.receipts);
      ExtendsItself(st);
    }
  }

  lemma ExtendsItself(st: Store)
    ensures Extends(st, st)
  {
  }

  lemma AppendedExtends(env: Env, st: Store, id: string, row: BallotRow)
    requires id in st.decisions && row.ballotHash !in st.receipts
    ensures var d := st.decisions[id];
      var receipt := NewReceipt(env, id, d, row);
      var st' := Store(st.decisions[id := Appended(env, d, row)], st.receipts[row.ballotHash := receipt]);
      Extends(st, st') && OneBallotMore(st, st', id, row.payload, row.idempotencyKey, row.serial, receipt)
  {
    hide Leaves, RootText;
  }

  lemma HeadNeverRefuses(env: Env, id: string, d: Decision, receipts: map<string, Receipt>)
    requires DecisionOk(env, id, d, receipts)
    ensures HeadAccepts(d.head, |d.ballots| + 1)
  {
  }

  lemma OtherDecisionsKeep(env: Env, id: string, d: Decision, receipts: map<string, Receipt>, h: string,
      receipt: Receipt)
    requires DecisionOk(env, id, d, receipts) && h !in receipts
    ensures DecisionOk(env, id, d, receipts[h := receipt])
  {
    hide LogOk;
    OtherLogsKeep(env, id, d.ballots, receipts, h, receipt);
  }

  /** Exactly one row is added, at the end, and its receipt is stored and is the one handed out. */
  ghost predicate OneBallotMore(st: Store, st': Store, id: string, payload: Payload, key: string,
                                serial: Option<string>, receipt: Receipt)
  {
    && id in st.decisions && id in st'.decisions
    && RowAdded(st.decisions[id], st'.decisions[id], payload, key, serial, receipt)
    && receipt.ballotHash !in st.receipts && st'.receipts == st.receipts[receipt.ballotHash := receipt]
    && forall x | x in st.decisions && x != id :: x in st'.decisions && st'.decisions[x] == st.decisions[x]
  }

  ghost predicate RowAdded(d: Decision, d': Decision, payload: Payload, key: string, serial: Option<string>,
      receipt: Receipt)
  {
    && |d'.ballots| == |d.ballots| + 1 && d'.ballots[..|d.ballots|] == d.ballots
    && d'.ballots[|d.ballots|].payload == payload && d'.ballots[|d.ballots|].idempotencyKey == key
    && d'.ballots[|d.ballots|].serial == serial && d'.ballots[|d.ballots|].ballotHash == receipt.ballotHash
    && receipt.logPosition == |d.ballots|
    && d'.state == d.state && d'.events == d.events && d'.checkpoints == d.checkpoints && d'.config == d.config
  }
}
