/** The cursor-paginated ballot list of routes/public.ts, and the client that follows its cursor. */
module Pagination {
  import opened Basics
  import opened Board
  import opened BoardSafety
  import opened BoardRuns

  datatype Page = Page(ballots: seq<BallotRow>, leafCount: int, nextCursor: Option<int>, complete: bool)

  /** SELECT ... WHERE log_seq > after, in log order. */
  function RowsAfter(log: seq<BallotRow>, after: int): seq<BallotRow> {
    if log == [] then []
    else
      var last := log[|log| - 1];
      RowsAfter(log[..|log| - 1], after) + if last.logSeq > after then [last] else []
  }

  /** The first `lim` of the rows found, the count of the log, the cursor, and the end-of-stream flag. */
  function Paged(rows: seq<BallotRow>, leafCount: int, lim: int): Page
    requires lim > 0
  {
    var ballots := if |rows| <= lim then rows else rows[..lim];
    var next := if |ballots| == lim && |ballots| > 0 then Some(ballots[|ballots| - 1].logSeq) else None;
    Page(ballots, leafCount, next, next.None?)
  }

  /** GET /ballots; `after` and `limit` are None when absent or not finite. */
  function PageOf(log: seq<BallotRow>, after: Option<int>, limit: Option<int>): Page {
    var afterSeq := if after.Some? then after.value else -1;
    var lim := if limit.Some? && limit.value > 0 then limit.value else 100;
    Paged(RowsAfter(log, afterSeq), |log|, lim)
  }

  ghost predicate InPlace(log: seq<BallotRow>) { forall i | 0 <= i < |log| :: log[i].logSeq == i }

  /** Where a page starts: just past the cursor, within the log. */
  function StartOf(log: seq<BallotRow>, after: int): (start: nat)
    ensures start <= |log|
  {
    if after < 0 then 0 else if after + 1 <= |log| then after + 1 else |log|
  }

  /** In a log whose rows carry their positions, the rows after any cursor are a suffix. */
  lemma {:induction false} RowsAfterIsSuffix(log: seq<BallotRow>, after: int)
    requires InPlace(log)
    ensures RowsAfter(log, after) == log[StartOf(log, after)..]
  {
    if log != [] {
      var init := log[..|log| - 1];
      RowsAfterIsSuffix(init, after);
      var start := StartOf(log, after);
      if start < |log| {
        assert StartOf(init, after) == start;
        OneRowMore(log, start);
      }
    }
  }

  lemma OneRowMore(log: seq<BallotRow>, start: nat)
    requires start < |log|
    ensures log[start..] == log[..|log| - 1][start..] + [log[|log| - 1]]
  {
  }

  /** All rows from `start` on, when they fit. */
  lemma LastPage(log: seq<BallotRow>, start: nat, lim: int)
    requires InPlace(log) && start <= |log| && lim > 0 && |log| - start <= lim
    ensures Paged(log[start..], |log|, lim)
      == if |log| - start == lim then Page(log[start..], |log|, Some(|log| - 1), false)
        else Page(log[start..], |log|, None, true)
  {
    var rows := log[start..];
    if |rows| == lim { assert rows[|rows| - 1] == log[|log| - 1]; }
  }

  /** The first `lim` rows from `start`, when more follow. */
  lemma FullPage(log: seq<BallotRow>, start: nat, lim: int)
    requires InPlace(log) && lim > 0 && start + lim < |log|
    ensures Paged(log[start..], |log|, lim) == Page(log[start..start + lim], |log|, Some(start + lim - 1), false)
  {
    var rows := log[start..];
    assert rows[..lim] == log[start..start + lim];
    assert rows[..lim][lim - 1] == log[start + lim - 1];
  }

  /** Whatever the cursor and the limit, a page is the next stretch of the log, and its cursor is its last position. */
  lemma AnyPageIsStretch(log: seq<BallotRow>, after: Option<int>, limit: Option<int>)
    requires InPlace(log)
    ensures var page := PageOf(log, after, limit);
      var start := StartOf(log, if after.Some? then after.value else -1);
      var lim := if limit.Some? && limit.value > 0 then limit.value else 100;
      var end := if |log| - start <= lim then |log| else start + lim;
      && page.ballots == log[start..end] && page.leafCount == |log|
      && (page.complete <==> |log| - start < lim)
      && page.nextCursor == if page.complete then None else Some(end - 1)
  {
    var start := StartOf(log, if after.Some? then after.value else -1);
    var lim := if limit.Some? && limit.value > 0 then limit.value else 100;
    RowsAfterIsSuffix(log, if after.Some? then after.value else -1);
    hide RowsAfter, StartOf, Paged, InPlace;
    if |log| - start <= lim {
      LastPage(log, start, lim);
      assert log[start..|log|] == log[start..];
    } else {
      FullPage(log, start, lim);
    }
  }

  /** The same for a cursor that a client follows. */
  lemma PageIsStretch(log: seq<BallotRow>, after: int, lim: int)
    requires InPlace(log) && -1 <= after < |log| && lim >= 1
    ensures var page := PageOf(log, Some(after), Some(lim));
      var end := if |log| - (after + 1) <= lim then |log| else after + 1 + lim;
      && page.ballots == log[after + 1..end] && page.leafCount == |log|
      && (page.complete <==> |log| - (after + 1) < lim)
      && page.nextCursor == if page.complete then None else Some(end - 1)
  {
    AnyPageIsStretch(log, Some(after), Some(lim));
  }

  /** Following the cursor on a log that stays as it is, from `after` to the end of the stream. */
  function Drain(log: seq<BallotRow>, after: int, lim: int): seq<BallotRow>
    requires InPlace(log) && -1 <= after < |log| && lim >= 1
    decreases |log| - after
  {
    PageIsStretch(log, after, lim);
    var page := PageOf(log, Some(after), Some(lim));
    page.ballots + if page.complete then [] else Drain(log, page.nextCursor.value, lim)
  }

  /** How many requests that takes. */
  function Requests(log: seq<BallotRow>, after: int, lim: int): nat
    requires InPlace(log) && -1 <= after < |log| && lim >= 1
    decreases |log| - after
  {
    PageIsStretch(log, after, lim);
    var page := PageOf(log, Some(after), Some(lim));
    1 + if page.complete then 0 else Requests(log, page.nextCursor.value, lim)
  }

  lemma {:induction false} DrainFrom(log: seq<BallotRow>, after: int, lim: int)
    requires InPlace(log) && -1 <= after < |log| && lim >= 1
    ensures Drain(log, after, lim) == log[after + 1..]
    ensures Requests(log, after, lim) == (|log| - (after + 1)) / lim + 1
    decreases |log| - after
  {
    var left := |log| - (after + 1);
    hide PageOf, RowsAfter, InPlace;
    PageIsStretch(log, after, lim);
    Quotient(left, lim);
    if left >= lim {
      DrainFrom(log, after + lim, lim);
      assert log[after + 1..] == log[after + 1..after + 1 + lim] + log[after + 1 + lim..];
    }
  }

  lemma Quotient(left: nat, lim: int)
    requires lim >= 1
    ensures left < lim ==> left / lim == 0
    ensures left >= lim ==> left / lim == (left - lim) / lim + 1
  {
    if left >= lim {
      var q, r := (left - lim) / lim, (left - lim) % lim;
      assert left == (q + 1) * lim + r by { assert (q + 1) * lim == q * lim + lim; }
      DivisionIsUnique(left, lim, q + 1, r);
    } else {
      DivisionIsUnique(left, lim, 0, left);
    }
  }

  lemma DivisionIsUnique(n: int, d: int, q: int, r: int)
    requires d >= 1 && 0 <= r < d && n == q * d + r
    ensures n / d == q
  {
    var q2, r2 := n / d, n % d;
    assert (q - q2) * d == r2 - r by { assert (q - q2) * d == q * d - q2 * d; }
    MultipleIsFar(q - q2, d);
  }

  lemma MultipleIsFar(x: int, d: int)
    requires d >= 1
    ensures x >= 1 ==> x * d >= d
    ensures x <= -1 ==> x * d <= -d
  {
  }

  /** Any limit drains the whole log, each ballot once, in order, in |log| / lim + 1 requests. */
  lemma DrainsTheLog(log: seq<BallotRow>, lim: int)
    requires InPlace(log) && lim >= 1
    ensures Drain(log, -1, lim) == log
    ensures Requests(log, -1, lim) == |log| / lim + 1
  {
    DrainFrom(log, -1, lim);
    assert log[0..] == log;
  }

  // ---- while the log grows ----------------------------------------------------------------------

  /** What a client holds after following the cursor, one page from each successive state of the log. */
  datatype Client = Client(collected: seq<BallotRow>, cursor: Option<int>, complete: bool)

  function Follow(logs: seq<seq<BallotRow>>, lim: int): Client {
    if logs == [] then Client([], None, false)
    else
      var before := Follow(logs[..|logs| - 1], lim);
      if before.complete then before
      else
        var page := PageOf(logs[|logs| - 1], before.cursor, Some(lim));
        Client(before.collected + page.ballots, page.nextCursor, page.complete)
  }

  /** Successive states of one append-only log. */
  ghost predicate Growing(logs: seq<seq<BallotRow>>) {
    && (forall i | 0 <= i < |logs| :: InPlace(logs[i]))
    && (forall i, j | 0 <= i <= j < |logs| :: logs[i] <= logs[j])
  }

  /**
   * Ballots appended between pages do no harm: what has been collected is always a prefix of the
   * current log, the cursor is where it ends, and `complete` came with a state it was all of.
   */
  lemma {:induction false} CollectsAPrefix(logs: seq<seq<BallotRow>>, lim: int)
    requires Growing(logs) && lim >= 1 && logs != []
    ensures var c := Follow(logs, lim);
      && c.collected <= logs[|logs| - 1]
      && (!c.complete ==> c.collected != [] && c.cursor == Some(|c.collected| - 1))
      && (c.complete ==> c.collected in logs)
  {
    var init, log := logs[..|logs| - 1], logs[|logs| - 1];
    var before := Follow(init, lim);
    hide PageOf;
    if init != [] {
      CollectsAPrefix(init, lim);
      assert init[|init| - 1] == logs[|logs| - 2];
      assert before.collected <= log;
    }
    if before.complete {
      var i :| 0 <= i < |init| && init[i] == before.collected;
      assert logs[i] == before.collected;
    } else {
      NextPage(before, log, lim);
      assert log in logs;
    }
  }

  /** One more page, taken from a log that has what was collected so far as a prefix. */
  lemma NextPage(before: Client, log: seq<BallotRow>, lim: int)
    requires InPlace(log) && lim >= 1 && before.collected <= log
    requires if before.collected == [] then before.cursor == None else before.cursor == Some(|before.collected| - 1)
    ensures var page := PageOf(log, before.cursor, Some(lim));
      && before.collected + page.ballots <= log
      && (!page.complete ==> page.ballots != [] && page.nextCursor == Some(|before.collected + page.ballots| - 1))
      && (page.complete ==> before.collected + page.ballots == log)
  {
    var after := |before.collected| - 1;
    assert PageOf(log, before.cursor, Some(lim)) == PageOf(log, Some(after), Some(lim));
    hide PageOf;
    PageIsStretch(log, after, lim);
    assert before.collected == log[..after + 1];
    var page := PageOf(log, Some(after), Some(lim));
    var end := if |log| - (after + 1) <= lim then |log| else after + 1 + lim;
    assert log[..after + 1] + log[after + 1..end] == log[..end];
  }

  /** The states of a decision's log along a run are such a growing log. */
  lemma RunsGrow(env: Env, runs: seq<seq<Step>>, id: string)
    requires forall i, j | 0 <= i <= j < |runs| :: runs[i] <= runs[j]
    requires forall i | 0 <= i < |runs| :: id in Run(env, runs[i]).store.decisions
    ensures Growing(seq(|runs|, i requires 0 <= i < |runs| => Run(env, runs[i]).store.decisions[id].ballots))
  {
    hide Run;
    forall i | 0 <= i < |runs| ensures InPlace(Run(env, runs[i]).store.decisions[id].ballots) {
      ReachableOk(env, runs[i]);
      ReachableInPlace(env, runs[i], id);
    }
    forall i, j | 0 <= i <= j < |runs|
      ensures Run(env, runs[i]).store.decisions[id].ballots <= Run(env, runs[j]).store.decisions[id].ballots
    {
      var rest := runs[j][|runs[i]|..];
      assert runs[j] == runs[i] + rest;
      RunsOnlyExtend(env, runs[i], rest);
      assert DecisionExtends(Run(env, runs[i]).store.decisions[id], Run(env, runs[j]).store.decisions[id]);
    }
  }

  lemma ReachableInPlace(env: Env, steps: seq<Step>, id: string)
    requires SystemOk(env, Run(env, steps)) && id in Run(env, steps).store.decisions
    ensures InPlace(Run(env, steps).store.decisions[id].ballots)
  {
    hide Run, BallotHash, RootText;
    var st := Run(env, steps).store;
    var d := st.decisions[id];
    assert DecisionOk(env, id, d, st.receipts);
    forall i | 0 <= i < |d.ballots| ensures d.ballots[i].logSeq == i { assert RowOk(env, id, d.ballots, i); }
  }
}
