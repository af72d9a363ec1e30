/** Instant-runoff voting: the rounds of runIrv in tally/methods.ts. */
module Irv {
  import opened Basics
  import opened Counting

  /** Option indices, most preferred first; entries may be out of range or repeated. */
  type Ranking = seq<int>

  datatype Round = Round(counts: seq<int>, continuingBallots: int, winner: Option<int>, eliminated: Option<int>)

  datatype IrvResult = IrvResult(winner: Option<int>, rounds: seq<Round>)

  predicate InRange(option: int, n: int) { 0 <= option < n }

  function Options(n: int): set<int> { set i | 0 <= i < n && InRange(i, n) }

  /** The first in-range entry of a ballot that is not eliminated; None for an exhausted ballot. */
  function Choice(b: Ranking, n: int, out: set<int>): (c: Option<int>)
    ensures c.Some? ==> c.value in b && InRange(c.value, n) && c.value !in out
    ensures c.None? ==> forall o | o in b && InRange(o, n) :: o in out
  {
    if b == [] then None
    else if InRange(b[0], n) && b[0] !in out then Some(b[0])
    else Choice(b[1..], n, out)
  }

  /** 1 on the ballots that count for `o` while `out` is eliminated. */
  function Picks(o: int, n: int, out: set<int>): Ranking -> int {
    b => if Choice(b, n, out) == Some(o) then 1 else 0
  }

  /** 1 on the ballots that are not exhausted. */
  function Active(n: int, out: set<int>): Ranking -> int {
    b => if Choice(b, n, out).Some? then 1 else 0
  }

  function Counts(bs: seq<Ranking>, n: nat, out: set<int>): (r: seq<int>)
    ensures |r| == n
  {
    seq(n, o => Sum(bs, Picks(o, n, out)))
  }

  /** The lowest continuing option from index `i` on with a strict majority of `total`. */
  function FirstMajority(counts: seq<int>, total: int, out: set<int>, i: nat): (w: Option<int>)
    requires i <= |counts|
    ensures w.Some? ==> i <= w.value < |counts| && w.value !in out && 2 * counts[w.value] > total
    ensures w.None? ==> forall o | i <= o < |counts| && o !in out :: 2 * counts[o] <= total
    decreases |counts| - i
  {
    if i == |counts| then None
    else if i !in out && 2 * counts[i] > total then Some(i)
    else FirstMajority(counts, total, out, i + 1)
  }

  /** The continuing option below `upto` with the fewest votes; ties go to the lowest index. */
  function Fewest(counts: seq<int>, out: set<int>, upto: nat): (l: Option<int>)
    requires upto <= |counts|
    ensures l.None? ==> forall o | 0 <= o < upto :: o in out
    ensures l.Some? ==> 0 <= l.value < upto && l.value !in out
    ensures l.Some? ==> forall o | 0 <= o < upto && o !in out ::
              counts[l.value] < counts[o] || (counts[l.value] == counts[o] && l.value <= o)
  {
    if upto == 0 then None
    else
      var best, o := Fewest(counts, out, upto - 1), upto - 1;
      if o in out then best
      else if best.None? || counts[o] < counts[best.value] then Some(o)
      else best
  }

  /** The lowest continuing option from index `i` on. */
  function FirstContinuing(out: set<int>, i: nat, n: nat): (o: Option<int>)
    requires i <= n
    ensures o.Some? ==> i <= o.value < n && o.value !in out && forall j | i <= j < o.value :: j in out
    ensures o.None? ==> forall j | i <= j < n :: j in out
    decreases n - i
  {
    if i == n then None
    else if i !in out then Some(i)
    else FirstContinuing(out, i + 1, n)
  }

  /** Only one option is still in the race. */
  predicate SoleSurvivor(n: int, out: set<int>) { |Options(n) - out| == 1 }

  /** Eliminating `o` leaves a race unless `o` was the only one left in it. */
  lemma SoleSurvivorIff(n: int, out: set<int>, o: int)
    requires InRange(o, n) && o !in out && out <= Options(n)
    ensures SoleSurvivor(n, out) <==> Options(n) - out == {o}
    ensures !SoleSurvivor(n, out) <==> out + {o} < Options(n)
  {
    var rest := Options(n) - out;
    assert o in rest;
    assert |rest - {o}| == |rest| - 1;
    assert rest - {o} == {} <==> rest == {o};
    assert rest - {o} == Options(n) - (out + {o});
    assert out + {o} <= Options(n);
  }

  lemma LoserExists(counts: seq<int>, n: nat, out: set<int>)
    requires |counts| == n && out < Options(n)
    ensures var loser := Fewest(counts, out, n);
      && loser.Some? && FirstContinuing(out, 0, n).Some?
      && (SoleSurvivor(n, out) || out + {loser.value} < Options(n))
      && Options(n) - (out + {loser.value}) < Options(n) - out
  {
    hide Fewest, FirstContinuing, SoleSurvivor;
    assert exists o :: o in Options(n) && o !in out;
    var loser := Fewest(counts, out, n).value;
    SoleSurvivorIff(n, out, loser);
    assert loser in Options(n) - out;
  }

  /** One round with `out` eliminated: a majority, a sole survivor, or the option it drops. */
  function RoundOf(bs: seq<Ranking>, n: nat, out: set<int>): (r: Round)
    requires out < Options(n)
    ensures |r.counts| == n && (r.winner.Some? <==> r.eliminated.None?)
    ensures r.eliminated.Some? ==> out + {r.eliminated.value} < Options(n)
    ensures r.eliminated.Some? ==> Options(n) - (out + {r.eliminated.value}) < Options(n) - out
  {
    var counts, total := Counts(bs, n, out), Sum(bs, Active(n, out));
    var majority := FirstMajority(counts, total, out, 0);
    LoserExists(counts, n, out);
    if majority.Some? then Round(counts, total, majority, None)
    else if SoleSurvivor(n, out) then Round(counts, total, FirstContinuing(out, 0, n), None)
    else Round(counts, total, None, Fewest(counts, out, n))
  }

  /** The rounds from the state in which `out` is eliminated, to the end. */
  function IrvFrom(bs: seq<Ranking>, n: nat, out: set<int>): (r: IrvResult)
    requires out < Options(n)
    ensures r.rounds != [] && r.winner.Some? && r.rounds[|r.rounds| - 1].winner == r.winner
    ensures |r.rounds[0].counts| == |r.rounds[|r.rounds| - 1].counts| == n
    decreases Options(n) - out
  {
    var round := RoundOf(bs, n, out);
    if round.winner.Some? then IrvResult(round.winner, [round])
    else
      var rest := IrvFrom(bs, n, out + {round.eliminated.value});
      IrvResult(rest.winner, [round] + rest.rounds)
  }

  lemma RoundIs(bs: seq<Ranking>, n: nat, out: set<int>)
    requires out < Options(n)
    ensures var counts, total := Counts(bs, n, out), Sum(bs, Active(n, out));
      var majority, last, loser := FirstMajority(counts, total, out, 0), FirstContinuing(out, 0, n),
        Fewest(counts, out, n);
      && last.Some? && loser.Some?
      && RoundOf(bs, n, out) == if majority.Some? then Round(counts, total, majority, None)
           else if SoleSurvivor(n, out) then Round(counts, total, last, None) else Round(counts, total, None, loser)
  {
    hide Fewest, FirstContinuing, FirstMajority, Counts, Sum, SoleSurvivor, Options;
    LoserExists(Counts(bs, n, out), n, out);
  }

  lemma IrvUnfolds(bs: seq<Ranking>, n: nat, out: set<int>)
    requires out < Options(n)
    ensures var counts, total, r := Counts(bs, n, out), Sum(bs, Active(n, out)), IrvFrom(bs, n, out);
      var majority, last, loser := FirstMajority(counts, total, out, 0), FirstContinuing(out, 0, n),
        Fewest(counts, out, n);
      && last.Some? && loser.Some?
      && (majority.Some? ==> r == IrvResult(majority, [Round(counts, total, majority, None)]))
      && (majority.None? && SoleSurvivor(n, out) ==> r == IrvResult(last, [Round(counts, total, last, None)]))
      && (majority.None? && !SoleSurvivor(n, out) ==>
            && out + {loser.value} < Options(n)
            && var rest := IrvFrom(bs, n, out + {loser.value});
               r == IrvResult(rest.winner, [Round(counts, total, None, loser)] + rest.rounds))
  {
    hide Fewest, FirstContinuing, FirstMajority, Counts, Sum, SoleSurvivor, Options, RoundOf;
    RoundIs(bs, n, out);
  }

  /** The winner is an option that is still in the race. */
  lemma {:induction false} WinnerInRace(bs: seq<Ranking>, n: nat, out: set<int>)
    requires out < Options(n)
    ensures var w := IrvFrom(bs, n, out).winner.value; InRange(w, n) && w !in out
    decreases Options(n) - out
  {
    hide *;
    IrvUnfolds(bs, n, out);
    RangeOf(n);
    var counts := Counts(bs, n, out);
    if FirstMajority(counts, Sum(bs, Active(n, out)), out, 0).None? && !SoleSurvivor(n, out) {
      var loser := Fewest(counts, out, n).value;
      DropOne(n, out, loser);
      WinnerInRace(bs, n, out + {loser});
    }
  }

  lemma RangeOf(n: int)
    ensures forall o :: InRange(o, n) <==> 0 <= o < n
  {
  }

  function RunIrv(bs: seq<Ranking>, n: int): (r: IrvResult)
    ensures n > 0 && bs != [] ==> r.rounds != [] && r.winner.Some? && |r.rounds[|r.rounds| - 1].counts| == n
  {
    if n <= 0 || bs == [] then IrvResult(None, [])
    else
      assert 0 in Options(n);
      IrvFrom(bs, n, {})
  }

  // ---- runIrv itself ----------------------------------------------------------

  /** The inner scan of one ballot. */
  method FindChoice(ballot: Ranking, n: int, eliminated: set<int>) returns (choice: Option<int>)
    ensures choice == Choice(ballot, n, eliminated)
  {
    choice := None;
    var i := 0;
    while i < |ballot|
      invariant 0 <= i <= |ballot|
      invariant choice.None? && Choice(ballot[i..], n, eliminated) == Choice(ballot, n, eliminated)
    {
      var option := ballot[i];
      assert ballot[i..][1..] == ballot[i + 1..];
      if InRange(option, n) && option !in eliminated {
        return Some(option);
      }
      i := i + 1;
    }
  }

  /** Steps 1 and 2 of a round: the counts and the number of continuing ballots, from scratch. */
  method CountRound(ballots: seq<Ranking>, n: nat, eliminated: set<int>)
      returns (counts: array<int>, continuingBallots: int)
    ensures fresh(counts) && counts[..] == Counts(ballots, n, eliminated)
    ensures continuingBallots == Sum(ballots, Active(n, eliminated))
  {
    counts := new int[n](_ => 0);
    continuingBallots := 0;
    for i := 0 to |ballots|
      invariant counts.Length == n
      invariant forall o | 0 <= o < n :: counts[o] == Sum(ballots[..i], Picks(o, n, eliminated))
      invariant continuingBallots == Sum(ballots[..i], Active(n, eliminated))
    {
      var choice := FindChoice(ballots[i], n, eliminated);
      assert ballots[..i + 1][..i] == ballots[..i];
      if choice.Some? {
        counts[choice.value] := counts[choice.value] + 1;
        continuingBallots := continuingBallots + 1;
      }
    }
    assert ballots[..|ballots|] == ballots;
  }

  /** Step 3: the first continuing option with a strict majority. */
  method FindMajority(counts: seq<int>, continuingBallots: int, continuing: set<int>, ghost out: set<int>)
    returns (winner: Option<int>)
    requires continuing == Options(|counts|) - out
    ensures winner == FirstMajority(counts, continuingBallots, out, 0)
  {
    for option := 0 to |counts|
      invariant FirstMajority(counts, continuingBallots, out, option)
          == FirstMajority(counts, continuingBallots, out, 0)
    {
      if option in continuing && 2 * counts[option] > continuingBallots {
        return Some(option);
      }
    }
    winner := None;
  }

  /** Step 4: scan the continuing options in ascending order for the fewest votes. */
  method FindLoser(counts: seq<int>, continuing: set<int>, ghost out: set<int>) returns (loser: Option<int>)
    requires continuing == Options(|counts|) - out
    ensures loser == Fewest(counts, out, |counts|)
  {
    loser := None;
    var fewest := 0;
    for option := 0 to |counts|
      invariant loser == Fewest(counts, out, option)
      invariant loser.Some? ==> fewest == counts[loser.value]
    {
      if option in continuing {
        var v := counts[option];
        if loser.None? || v < fewest || (v == fewest && option < loser.value) {
          loser, fewest := Some(option), v;
        }
      }
    }
  }

  lemma Reassociate<T>(a: seq<T>, x: T, b: seq<T>)
    ensures a + ([x] + b) == (a + [x]) + b
  {
  }

  lemma SoleSurvivorMeans(n: int, out: set<int>)
    ensures SoleSurvivor(n, out) <==> |Options(n) - out| == 1
  {
  }

  lemma DropOne(n: int, out: set<int>, o: int)
    requires InRange(o, n) && o !in out
    ensures Options(n) - out - {o} == Options(n) - (out + {o})
    ensures Options(n) - (out + {o}) < Options(n) - out
  {
    assert o in Options(n) - out;
  }

  method RunRounds(ballots: seq<Ranking>, optionCount: int) returns (winner: Option<int>, rounds: seq<Round>)
    ensures IrvResult(winner, rounds) == RunIrv(ballots, optionCount)
  {
    rounds := [];
    if optionCount <= 0 || ballots == [] {
      return None, rounds;
    }
    var continuing, eliminated := Options(optionCount), {};
    assert 0 in Options(optionCount);
    assert RunIrv(ballots, optionCount).rounds == rounds + IrvFrom(ballots, optionCount, {}).rounds;
    hide *;
    while true
      invariant eliminated < Options(optionCount) && continuing == Options(optionCount) - eliminated
      invariant var rest := IrvFrom(ballots, optionCount, eliminated);
        IrvResult(rest.winner, rounds + rest.rounds) == RunIrv(ballots, optionCount)
      decreases continuing
    {
      var counts, continuingBallots := CountRound(ballots, optionCount, eliminated);
      IrvUnfolds(ballots, optionCount, eliminated);
      var majority := FindMajority(counts[..], continuingBallots, continuing, eliminated);
      if majority.Some? {
        rounds := rounds + [Round(counts[..], continuingBallots, majority, None)];
        return majority, rounds;
      }
      SoleSurvivorMeans(optionCount, eliminated);
      if |continuing| == 1 {
        var option := FirstContinuing(eliminated, 0, optionCount);
        rounds := rounds + [Round(counts[..], continuingBallots, option, None)];
        return option, rounds;
      }
      var loser := FindLoser(counts[..], continuing, eliminated);
      Reassociate(rounds, Round(counts[..], continuingBallots, None, loser),
                  IrvFrom(ballots, optionCount, eliminated + {loser.value}).rounds);
      DropOne(optionCount, eliminated, loser.value);
      eliminated := eliminated + {loser.value};
      continuing := continuing - {loser.value};
      rounds := rounds + [Round(counts[..], continuingBallots, None, loser)];
    }
  }
}
