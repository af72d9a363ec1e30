/** What instant-runoff voting promises, for every list of ballots and every number of options. */
module IrvTheorems {
  import opened Basics
  import opened Counting
  import opened Irv

  /** How one turn of the loop ends. */
  datatype TurnEnd = Wins(option: int) | Survives(option: int) | Drops(option: int)

  /** What a turn with `out` eliminated does, by the votes of the continuing options. */
  lemma Turn(bs: seq<Ranking>, n: nat, out: set<int>) returns (end: TurnEnd)
    requires out < Options(n)
    ensures var o, total, r := end.option, Sum(bs, Active(n, out)), IrvFrom(bs, n, out);
      var counts := Counts(bs, n, out);
      && InRange(o, n) && o !in out && o in Options(n) - out && r.rounds != []
      && r.rounds[0].counts == counts && r.rounds[0].continuingBallots == total
      && (forall x | 0 <= x < n :: counts[x] == Sum(bs, Picks(x, n, out)))
      && match end
         case Wins(_) => 2 * counts[o] > total && r == IrvResult(Some(o), [Round(counts, total, Some(o), None)])
         case Survives(_) => 2 * counts[o] <= total && Options(n) - out == {o}
           && r == IrvResult(Some(o), [Round(counts, total, Some(o), None)])
         case Drops(_) =>
           && (forall x | 0 <= x < n && x !in out :: 2 * counts[x] <= total
                && (counts[o] < counts[x] || (counts[o] == counts[x] && o <= x)))
           && out + {o} < Options(n) && Options(n) - (out + {o}) < Options(n) - out
           && (exists x :: x in Options(n) && x !in out + {o})
           && var rest := IrvFrom(bs, n, out + {o});
              r == IrvResult(rest.winner, [Round(counts, total, None, Some(o))] + rest.rounds)
  {
    IrvUnfolds(bs, n, out);
    var counts, total := Counts(bs, n, out), Sum(bs, Active(n, out));
    var majority, last, loser := FirstMajority(counts, total, out, 0), FirstContinuing(out, 0, n).value,
      Fewest(counts, out, n).value;
    hide IrvFrom, Fewest, FirstMajority, FirstContinuing, Sum;
    if majority.Some? {
      end := Wins(majority.value);
    } else if SoleSurvivor(n, out) {
      SoleSurvivorIff(n, out, last);
      end := Survives(last);
    } else {
      SoleSurvivorIff(n, out, loser);
      DropOne(n, out, loser);
      end := Drops(loser);
    }
  }

  lemma OnlyOption(n: int, out: set<int>, w: int, o: int)
    requires Options(n) - out == {w} && InRange(o, n) && o !in out
    ensures o == w
  {
    assert o in Options(n) - out;
  }

  // ---- mutual majority -----------------------------------------------------------

  /** `b` ranks every member of `s` ahead of every in-range option outside `s`. */
  ghost predicate Solid(b: Ranking, s: set<int>, n: int) {
    forall o | o in s :: exists p :: RanksAt(b, s, n, o, p)
  }

  /** `o` stands at place `p` of `b`, with no in-range option outside `s` before it. */
  predicate RanksAt(b: Ranking, s: set<int>, n: int, o: int, p: int) {
    0 <= p < |b| && b[p] == o && forall q | 0 <= q < p && InRange(b[q], n) :: b[q] in s
  }

  ghost function SolidVotes(s: set<int>, n: int): Ranking -> int {
    b => if Solid(b, s, n) then 1 else 0
  }

  /** While some member of `s` continues, a solid ballot counts for a member of `s`. */
  lemma {:induction false} SolidChoice(b: Ranking, s: set<int>, n: int, out: set<int>, o: int, p: nat)
    requires RanksAt(b, s, n, o, p) && o in s && InRange(o, n) && o !in out
    ensures Choice(b, n, out).Some? && Choice(b, n, out).value in s
  {
    if !(InRange(b[0], n) && b[0] !in out) {
      SolidChoice(b[1..], s, n, out, o, p - 1);
    }
  }

  /** A solid coalition of more than half the ballots leaves no majority outside `s`, ... */
  lemma CoalitionBlocks(bs: seq<Ranking>, n: nat, out: set<int>, s: set<int>, o: int, w: int)
    requires o in s && InRange(o, n) && o !in out && w !in s
    requires 2 * Sum(bs, SolidVotes(s, n)) > |bs|
    ensures 2 * Sum(bs, Picks(w, n, out)) <= Sum(bs, Active(n, out))
  {
    forall b | b in bs ensures SolidVotes(s, n)(b) + Picks(w, n, out)(b) <= Active(n, out)(b) {
      if Solid(b, s, n) {
        var p :| RanksAt(b, s, n, o, p);
        SolidChoice(b, s, n, out, o, p);
      }
    }
    SumPairMonotone(bs, SolidVotes(s, n), Picks(w, n, out), Active(n, out));
    SumBounds(bs, Active(n, out), 1);
  }

  /** ... and gives the last of its members a majority before it can be eliminated. */
  lemma LastMemberWins(bs: seq<Ranking>, n: nat, out: set<int>, s: set<int>, o: int)
    requires o in s && InRange(o, n) && o !in out && s <= Options(n)
    requires forall x | x in s && x != o :: x in out
    requires 2 * Sum(bs, SolidVotes(s, n)) > |bs|
    ensures 2 * Sum(bs, Picks(o, n, out)) > Sum(bs, Active(n, out))
  {
    forall b | b in bs ensures SolidVotes(s, n)(b) <= Picks(o, n, out)(b) {
      if Solid(b, s, n) {
        var p :| RanksAt(b, s, n, o, p);
        SolidChoice(b, s, n, out, o, p);
      }
    }
    SumMonotone(bs, SolidVotes(s, n), Picks(o, n, out));
    SumBounds(bs, Active(n, out), 1);
  }

  lemma {:induction false} MutualMajorityFrom(bs: seq<Ranking>, n: nat, out: set<int>, s: set<int>, o: int)
    requires out < Options(n) && s <= Options(n) && o in s && o !in out
    requires 2 * Sum(bs, SolidVotes(s, n)) > |bs|
    ensures IrvFrom(bs, n, out).winner.Some? && IrvFrom(bs, n, out).winner.value in s
    decreases Options(n) - out
  {
    assert InRange(o, n) && o in Options(n) - out;
    hide *;
    var end := Turn(bs, n, out);
    match end
    case Wins(w) =>
      if w !in s { CoalitionBlocks(bs, n, out, s, o, w); }
    case Survives(w) =>
      assert o in {w};
    case Drops(loser) =>
      if forall x | x in s && x != loser :: x in out {
        LastMemberWins(bs, n, out, s, o);
        assert false;
      }
      var x :| x in s && x != loser && x !in out;
      MutualMajorityFrom(bs, n, out + {loser}, s, x);
  }

  /**
   * Mutual majority: if more than half of all ballots rank every member of a nonempty set of
   * options ahead of every option outside it, the winner is in the set, whatever the rest hold.
   */
  lemma MutualMajority(bs: seq<Ranking>, n: int, s: set<int>)
    requires s != {} && s <= Options(n)
    requires 2 * Sum(bs, SolidVotes(s, n)) > |bs|
    ensures RunIrv(bs, n).winner.Some? && RunIrv(bs, n).winner.value in s
  {
    var o :| o in s;
    assert InRange(o, n);
    MutualMajorityFrom(bs, n, {}, s, o);
  }

  // ---- how the rounds develop -------------------------------------------------------

  lemma {:induction false} ChoiceAfter(b: Ranking, n: int, out: set<int>, loser: int)
    ensures Choice(b, n, out) == Some(loser) || Choice(b, n, out + {loser}) == Choice(b, n, out)
  {
    if b != [] && !(InRange(b[0], n) && b[0] !in out) { ChoiceAfter(b[1..], n, out, loser); }
  }

  /** Eliminating `loser` costs no other option a vote, and revives no exhausted ballot. */
  lemma OneElimination(bs: seq<Ranking>, n: nat, out: set<int>, loser: int)
    ensures forall o | o != loser :: Sum(bs, Picks(o, n, out)) <= Sum(bs, Picks(o, n, out + {loser}))
    ensures Sum(bs, Active(n, out + {loser})) <= Sum(bs, Active(n, out))
    ensures Sum(bs, Active(n, out)) <= Sum(bs, Active(n, out + {loser})) + Sum(bs, Picks(loser, n, out))
  {
    var out' := out + {loser};
    forall b | b in bs { ChoiceAfter(b, n, out, loser); }
    forall o | o != loser ensures Sum(bs, Picks(o, n, out)) <= Sum(bs, Picks(o, n, out')) {
      SumMonotone(bs, Picks(o, n, out), Picks(o, n, out'));
    }
    SumMonotone(bs, Active(n, out'), Active(n, out));
    SumBelowPair(bs, Active(n, out), Active(n, out'), Picks(loser, n, out));
  }

  /** One round to the next: only the option just eliminated can lose votes. */
  ghost predicate Develops(before: Round, after: Round) {
    && after.continuingBallots <= before.continuingBallots
    && |before.counts| == |after.counts|
    && before.winner.None? && before.eliminated.Some?
    && forall o | 0 <= o < |before.counts| && before.eliminated != Some(o) :: before.counts[o] <= after.counts[o]
  }

  lemma FirstRoundsDevelop(bs: seq<Ranking>, n: nat, out: set<int>, loser: int)
    ensures Develops(Round(Counts(bs, n, out), Sum(bs, Active(n, out)), None, Some(loser)),
                     Round(Counts(bs, n, out + {loser}), Sum(bs, Active(n, out + {loser})), None, None))
    ensures forall a: Round, b: Round, c: Round ::
      Develops(a, b) && b.counts == c.counts && b.continuingBallots == c.continuingBallots ==> Develops(a, c)
  {
    OneElimination(bs, n, out, loser);
  }

  lemma {:induction false} RoundsDevelopFrom(bs: seq<Ranking>, n: nat, out: set<int>)
    requires out < Options(n)
    ensures var r := IrvFrom(bs, n, out).rounds;
      && |r| <= |Options(n) - out|
      && r[0].counts == Counts(bs, n, out) && r[0].continuingBallots == Sum(bs, Active(n, out))
      && forall j | 0 <= j < |r| - 1 :: Develops(r[j], r[j + 1])
    decreases Options(n) - out
  {
    hide *;
    var end := Turn(bs, n, out);
    if end.Drops? {
      var loser := end.option;
      var out' := out + {loser};
      assert Options(n) - out == Options(n) - out' + {loser};
      FirstRoundsDevelop(bs, n, out, loser);
      RoundsDevelopFrom(bs, n, out');
      var rest := IrvFrom(bs, n, out').rounds;
      PrependDevelops(IrvFrom(bs, n, out).rounds[0], rest);
    } else {
      assert end.option in Options(n) - out;
    }
  }

  lemma PrependDevelops(first: Round, rest: seq<Round>)
    requires rest != [] && Develops(first, rest[0]) && forall j | 0 <= j < |rest| - 1 :: Develops(rest[j], rest[j + 1])
    ensures var r := [first] + rest; forall j | 0 <= j < |r| - 1 :: Develops(r[j], r[j + 1])
  {
    hide *;
    var r := [first] + rest;
    forall j | 0 <= j < |r| - 1 ensures Develops(r[j], r[j + 1]) {
      assert r[j + 1] == rest[j];
      if j > 0 { assert r[j] == rest[j - 1]; }
    }
  }

  /** At most one round per option; votes of continuing options never fall, continuing ballots never rise. */
  lemma RoundsDevelop(bs: seq<Ranking>, n: int)
    ensures var r := RunIrv(bs, n).rounds;
      && (n > 0 ==> |r| <= n)
      && forall j | 0 <= j < |r| - 1 :: Develops(r[j], r[j + 1])
  {
    if n > 0 && bs != [] {
      assert 0 in Options(n);
      RoundsDevelopFrom(bs, n, {});
      CardinalityOfOptions(n);
      assert Options(n) - {} == Options(n);
    }
  }

  lemma {:induction false} CardinalityOfOptions(n: nat)
    ensures |Options(n)| == n
  {
    if n > 0 {
      CardinalityOfOptions(n - 1);
      assert Options(n) == Options(n - 1) + {n - 1};
    }
  }

  // ---- the sole-survivor exit ------------------------------------------------------------

  /** The run ends without a majority: its last round names the sole survivor. */
  ghost predicate EndsBySurvival(r: IrvResult)
    requires r.rounds != [] && r.winner.Some?
  {
    var last := r.rounds[|r.rounds| - 1];
    0 <= r.winner.value < |last.counts| && 2 * last.counts[r.winner.value] <= last.continuingBallots
  }

  lemma SurvivorTakesAll(bs: seq<Ranking>, n: nat, out: set<int>, o: int)
    requires Options(n) - out == {o}
    ensures Sum(bs, Active(n, out)) == Sum(bs, Picks(o, n, out))
  {
    forall b | b in bs ensures Active(n, out)(b) == Picks(o, n, out)(b) {
      var c := Choice(b, n, out);
      if c.Some? { assert c.value in Options(n) - out; }
    }
    SumEqual(bs, Active(n, out), Picks(o, n, out));
  }

  /** Whether a run ends by survival shows in its tail. */
  lemma EndsAlike(first: Round, rest: IrvResult)
    requires rest.rounds != [] && rest.winner.Some?
    ensures EndsBySurvival(IrvResult(rest.winner, [first] + rest.rounds)) <==> EndsBySurvival(rest)
    ensures ([first] + rest.rounds)[|[first] + rest.rounds| - 1] == rest.rounds[|rest.rounds| - 1]
  {
  }

  /** If no vote is left after dropping the fewest-vote option, there was none before. */
  lemma NothingLost(bs: seq<Ranking>, n: nat, out: set<int>, loser: int, o: int)
    requires o != loser && Sum(bs, Picks(loser, n, out)) <= Sum(bs, Picks(o, n, out))
    requires Sum(bs, Active(n, out + {loser})) == 0
    ensures Sum(bs, Active(n, out)) == 0
  {
    OneElimination(bs, n, out, loser);
    PicksAtMostActive(bs, n, out + {loser}, o);
    PicksAtMostActive(bs, n, out, loser);
  }

  /** Without votes, every option ties on zero and nothing is left after an elimination either. */
  lemma AllZero(bs: seq<Ranking>, n: nat, out: set<int>, loser: int, o: int)
    requires Sum(bs, Active(n, out)) == 0
    ensures Sum(bs, Active(n, out + {loser})) == 0
    ensures Sum(bs, Picks(loser, n, out)) == 0 && Sum(bs, Picks(o, n, out)) == 0
  {
    OneElimination(bs, n, out, loser);
    SumBounds(bs, Active(n, out + {loser}), 1);
    PicksAtMostActive(bs, n, out, loser);
    PicksAtMostActive(bs, n, out, o);
  }

  lemma {:induction false} SurvivalMeansNoVotes(bs: seq<Ranking>, n: nat, out: set<int>)
    requires out < Options(n) && EndsBySurvival(IrvFrom(bs, n, out))
    ensures Sum(bs, Active(n, out)) == 0
    decreases Options(n) - out
  {
    hide *;
    ActiveNonNegative(bs, n, out);
    SurvivalMeans(IrvFrom(bs, n, out));
    var end := Turn(bs, n, out);
    OptionsIff(n, end.option);
    if end.Survives? {
      SurvivorTakesAll(bs, n, out, end.option);
    } else if end.Drops? {
      var loser := end.option;
      var o :| o in Options(n) && o !in out + {loser};
      OptionsIff(n, o);
      EndsAlike(Round(Counts(bs, n, out), Sum(bs, Active(n, out)), None, Some(loser)), IrvFrom(bs, n, out + {loser}));
      SurvivalMeansNoVotes(bs, n, out + {loser});
      NothingLost(bs, n, out, loser, o);
    }
  }

  lemma ActiveNonNegative(bs: seq<Ranking>, n: nat, out: set<int>)
    ensures Sum(bs, Active(n, out)) >= 0
  {
    SumBounds(bs, Active(n, out), 1);
  }

  lemma PicksAtMostActive(bs: seq<Ranking>, n: nat, out: set<int>, o: int)
    ensures 0 <= Sum(bs, Picks(o, n, out)) <= Sum(bs, Active(n, out))
  {
    SumMonotone(bs, Picks(o, n, out), Active(n, out));
    SumBounds(bs, Picks(o, n, out), 1);
  }

  lemma {:induction false} NoVotesMeansSurvival(bs: seq<Ranking>, n: nat, out: set<int>)
    requires out < Options(n) && InRange(n - 1, n) && n - 1 !in out && Sum(bs, Active(n, out)) == 0
    ensures var r := IrvFrom(bs, n, out);
      && EndsBySurvival(r) && r.winner == Some(n - 1) && r.rounds != []
      && |r.rounds[|r.rounds| - 1].counts| == n && r.rounds[|r.rounds| - 1].counts[n - 1] == 0
    decreases Options(n) - out
  {
    hide *;
    OptionsIff(n, n - 1);
    PicksAtMostActive(bs, n, out, n - 1);
    var end := Turn(bs, n, out);
    OptionsIff(n, end.option);
    PicksAtMostActive(bs, n, out, end.option);
    SurvivalMeans(IrvFrom(bs, n, out));
    if end.Drops? {
      var loser := end.option;
      var o :| o in Options(n) && o !in out + {loser};
      OptionsIff(n, o);
      AllZero(bs, n, out, loser, o);
      EndsAlike(Round(Counts(bs, n, out), Sum(bs, Active(n, out)), None, Some(loser)), IrvFrom(bs, n, out + {loser}));
      NoVotesMeansSurvival(bs, n, out + {loser});
    } else {
      assert n - 1 in Options(n) - out;
    }
  }

  lemma OptionsIff(n: int, o: int)
    ensures (o in Options(n) <==> InRange(o, n)) && (InRange(o, n) <==> 0 <= o < n)
  {
  }

  lemma SurvivalMeans(r: IrvResult)
    requires r.rounds != [] && r.winner.Some?
    ensures var last := r.rounds[|r.rounds| - 1];
      EndsBySurvival(r)
      <==> && 0 <= r.winner.value < |last.counts|
           && 2 * last.counts[r.winner.value] <= last.continuingBallots
  {
  }

  /** Some ballot ranks an in-range option. */
  ghost predicate SomeoneRanks(bs: seq<Ranking>, n: int) {
    exists b, o :: b in bs && o in b && InRange(o, n)
  }

  lemma SomeoneRanksIff(bs: seq<Ranking>, n: int)
    ensures SomeoneRanks(bs, n) <==> Sum(bs, Active(n, {})) != 0
  {
    SumZeroIff(bs, Active(n, {}));
    if b :| b in bs && Active(n, {})(b) != 0 {
      assert Choice(b, n, {}).value in b;
    }
    if b, o :| b in bs && o in b && InRange(o, n) {
      assert Active(n, {})(b) != 0;
    }
  }

  /** The sole-survivor exit fires exactly when no ballot ranks any option; then the last option wins on 0 votes. */
  lemma SurvivalIff(bs: seq<Ranking>, n: int)
    requires n > 0 && bs != []
    ensures var r := RunIrv(bs, n);
      && (EndsBySurvival(r) <==> !SomeoneRanks(bs, n))
      && (EndsBySurvival(r) ==>
            && r.winner == Some(n - 1) && r.rounds != []
            && |r.rounds[|r.rounds| - 1].counts| == n && r.rounds[|r.rounds| - 1].counts[n - 1] == 0)
  {
    assert InRange(0, n) && 0 in Options(n);
    SomeoneRanksIff(bs, n);
    if Sum(bs, Active(n, {})) == 0 {
      NoVotesMeansSurvival(bs, n, {});
    } else if EndsBySurvival(RunIrv(bs, n)) {
      SurvivalMeansNoVotes(bs, n, {});
    }
  }

  // ---- the winner against the others in its last round ---------------------------------

  /** `b` lists `a` before any `c`. */
  predicate RanksAbove(b: Ranking, a: int, c: int) {
    b != [] && (b[0] == a || (b[0] != c && RanksAbove(b[1..], a, c)))
  }

  function Prefer(a: int, c: int): Ranking -> int {
    b => if RanksAbove(b, a, c) then 1 else 0
  }

  /** The options eliminated in a trace of rounds. */
  ghost function EliminatedIn(rounds: seq<Round>): set<int> {
    set j | 0 <= j < |rounds| && rounds[j].eliminated.Some? :: rounds[j].eliminated.value
  }

  lemma {:induction false} ChoiceIsPreferred(b: Ranking, n: int, out: set<int>, w: int, o: int)
    requires InRange(w, n) && w !in out && InRange(o, n) && o !in out && w != o
    ensures Choice(b, n, out) == Some(w) ==> RanksAbove(b, w, o)
    ensures RanksAbove(b, o, w) ==> Choice(b, n, out).Some? && Choice(b, n, out) != Some(w)
  {
    if b != [] && b[0] != w && b[0] != o { ChoiceIsPreferred(b[1..], n, out, w, o); }
  }

  /** A strict majority of the continuing ballots beats every other continuing option head to head. */
  lemma MajorityBeats(bs: seq<Ranking>, n: nat, out: set<int>, w: int, o: int)
    requires InRange(w, n) && w !in out && InRange(o, n) && o !in out && w != o
    requires 2 * Sum(bs, Picks(w, n, out)) > Sum(bs, Active(n, out))
    ensures Sum(bs, Prefer(w, o)) > Sum(bs, Prefer(o, w))
  {
    forall b | b in bs { ChoiceIsPreferred(b, n, out, w, o); }
    SumMonotone(bs, Picks(w, n, out), Prefer(w, o));
    SumPairMonotone(bs, Picks(w, n, out), Prefer(o, w), Active(n, out));
  }

  lemma EliminatedGrows(first: Round, rest: seq<Round>)
    requires first.eliminated.Some?
    ensures EliminatedIn([first] + rest) == {first.eliminated.value} + EliminatedIn(rest)
  {
    var all := [first] + rest;
    assert all[0] == first;
    forall x | x in EliminatedIn(rest) ensures x in EliminatedIn(all) {
      var j :| 0 <= j < |rest| && rest[j].eliminated == Some(x);
      assert all[j + 1] == rest[j];
    }
  }

  lemma {:induction false} WinnerBeatsSurvivorsFrom(bs: seq<Ranking>, n: nat, out: set<int>, o: int)
    requires out < Options(n) && InRange(o, n) && o !in out
    requires var r := IrvFrom(bs, n, out);
      o !in EliminatedIn(r.rounds) && r.winner != Some(o) && r.rounds[|r.rounds| - 1].continuingBallots > 0
    ensures var w := IrvFrom(bs, n, out).winner.value;
      Sum(bs, Prefer(w, o)) > Sum(bs, Prefer(o, w))
    decreases Options(n) - out
  {
    var r := IrvFrom(bs, n, out);
    assert o in Options(n) - out;
    var end := Turn(bs, n, out);
    match end
    case Wins(w) =>
      MajorityBeats(bs, n, out, w, o);
    case Survives(w) =>
      OnlyOption(n, out, w, o);
    case Drops(loser) =>
      var rest := IrvFrom(bs, n, out + {loser});
      EliminatedGrows(Round(Counts(bs, n, out), Sum(bs, Active(n, out)), None, Some(loser)), rest.rounds);
      hide *;
      WinnerBeatsSurvivorsFrom(bs, n, out + {loser}, o);
  }

  /** When the last round has a continuing ballot, the winner beats head to head every other option still in it. */
  lemma WinnerBeatsSurvivors(bs: seq<Ranking>, n: int, o: int)
    requires InRange(o, n) && bs != []
    requires var r := RunIrv(bs, n);
      o !in EliminatedIn(r.rounds) && r.winner != Some(o) && r.rounds[|r.rounds| - 1].continuingBallots > 0
    ensures var w := RunIrv(bs, n).winner.value;
      Sum(bs, Prefer(w, o)) > Sum(bs, Prefer(o, w))
  {
    hide *;
    OptionsIff(n, o);
    RunStarts(bs, n, o);
    WinnerBeatsSurvivorsFrom(bs, n, {}, o);
  }

  lemma RunStarts(bs: seq<Ranking>, n: nat, o: int)
    requires InRange(o, n) && bs != []
    ensures {} < Options(n) && RunIrv(bs, n) == IrvFrom(bs, n, {})
  {
    assert o in Options(n);
  }

  // ---- malformed entries and the order of the ballots -----------------------------------

  /** A ballot without out-of-range entries and without repetitions of what was seen before. */
  function Clean(b: Ranking, n: int, seen: set<int>): Ranking {
    if b == [] then []
    else if InRange(b[0], n) && b[0] !in seen then [b[0]] + Clean(b[1..], n, seen + {b[0]})
    else Clean(b[1..], n, seen)
  }

  function Cleaner(n: int): Ranking -> Ranking { b => Clean(b, n, {}) }

  lemma {:induction false} CleanChoice(b: Ranking, n: int, seen: set<int>, out: set<int>)
    requires seen <= out
    ensures Choice(Clean(b, n, seen), n, out) == Choice(b, n, out)
  {
    if b != [] {
      if InRange(b[0], n) && b[0] !in seen {
        var tail := Clean(b[1..], n, seen + {b[0]});
        assert ([b[0]] + tail)[1..] == tail;
        if b[0] in out { CleanChoice(b[1..], n, seen + {b[0]}, out); }
      } else {
        CleanChoice(b[1..], n, seen, out);
      }
    }
  }

  /** Ballots that make the same choices in every situation give the same rounds and winner. */
  lemma {:induction false} SameChoicesSameRounds(bs: seq<Ranking>, cs: seq<Ranking>, n: nat, out: set<int>)
    requires out < Options(n)
    requires forall x: set<int> :: Sum(bs, Active(n, x)) == Sum(cs, Active(n, x))
    requires forall o, x: set<int> :: Sum(bs, Picks(o, n, x)) == Sum(cs, Picks(o, n, x))
    ensures IrvFrom(bs, n, out) == IrvFrom(cs, n, out)
    decreases Options(n) - out
  {
    hide *;
    SameCounts(bs, cs, n, out);
    IrvUnfolds(bs, n, out);
    IrvUnfolds(cs, n, out);
    var counts, total := Counts(bs, n, out), Sum(bs, Active(n, out));
    var majority, loser := FirstMajority(counts, total, out, 0), Fewest(counts, out, n).value;
    if majority.None? && !SoleSurvivor(n, out) {
      OptionsIff(n, loser);
      DropOne(n, out, loser);
      SameChoicesSameRounds(bs, cs, n, out + {loser});
    }
  }

  lemma SameCounts(bs: seq<Ranking>, cs: seq<Ranking>, n: nat, out: set<int>)
    requires forall o, x: set<int> :: Sum(bs, Picks(o, n, x)) == Sum(cs, Picks(o, n, x))
    ensures Counts(bs, n, out) == Counts(cs, n, out)
  {
    hide Sum, Picks;
  }

  /** Dropping out-of-range and repeated entries first changes nothing. */
  lemma CleaningChangesNothing(bs: seq<Ranking>, n: int)
    ensures RunIrv(Map(bs, Cleaner(n)), n) == RunIrv(bs, n)
  {
    var cs := Map(bs, Cleaner(n));
    if n > 0 && bs != [] {
      forall x: set<int> ensures Sum(bs, Active(n, x)) == Sum(cs, Active(n, x)) {
        forall b | b in bs { CleanChoice(b, n, {}, x); }
        SumAligned(bs, cs, Active(n, x), Active(n, x));
      }
      forall o, x: set<int> ensures Sum(bs, Picks(o, n, x)) == Sum(cs, Picks(o, n, x)) {
        forall b | b in bs { CleanChoice(b, n, {}, x); }
        SumAligned(bs, cs, Picks(o, n, x), Picks(o, n, x));
      }
      assert 0 in Options(n);
      SameChoicesSameRounds(bs, cs, n, {});
    }
  }

  /** The rounds and the winner do not depend on the order of the ballots. */
  lemma OrderIrrelevant(bs: seq<Ranking>, cs: seq<Ranking>, n: int)
    requires multiset(bs) == multiset(cs)
    ensures RunIrv(bs, n) == RunIrv(cs, n)
  {
    assert |bs| == |multiset(bs)| == |multiset(cs)| == |cs|;
    if n > 0 && bs != [] {
      forall x: set<int> { SumPermutation(bs, cs, Active(n, x)); }
      forall o, x: set<int> { SumPermutation(bs, cs, Picks(o, n, x)); }
      assert 0 in Options(n);
      SameChoicesSameRounds(bs, cs, n, {});
    }
  }
}
