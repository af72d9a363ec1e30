/** The five tally methods of tally/methods.ts. */
module Tallies {
  import opened Basics
  import opened Counting
  import opened Irv

  datatype Method = SingleChoice | ApprovalVote | RankedVote | QuadraticVote | SurveyVote

  datatype Payload =
    | Single(choice: int)
    | Approval(choices: seq<int>)
    | Ranked(ranking: seq<int>)
    | Quadratic(votes: seq<int>)
    | Survey(choices: seq<int>)
    | Abstain

  /** `irv` holds the rounds and the winner, which only ranked tallies carry. */
  datatype Tally = Tally(scheme: Method, optionCount: int, optionScores: seq<int>, abstain: int, totalCast: int,
                         irv: Option<IrvResult>)

  /** What one ballot adds to the score of option `o`. */
  function Points(scheme: Method, o: int, n: int): Payload -> int {
    (p: Payload) =>
      if scheme == RankedVote then
        if p.Ranked? && Choice(p.ranking, n, {}) == Some(o) then 1 else 0
      else
        match p
        case Single(c) => if c == o then 1 else 0
        case Approval(cs) => if o in cs then 1 else 0
        case Survey(cs) => if o in cs then 1 else 0
        case Quadratic(vs) => if 0 <= o < |vs| && vs[o] > 0 then vs[o] else 0
        case Ranked(_) => 0
        case Abstain => 0
  }

  function Abstentions(): Payload -> int { (p: Payload) => if p.Abstain? then 1 else 0 }

  function Scores(scheme: Method, ps: seq<Payload>, n: int): (r: seq<int>)
    ensures |r| == if n > 0 then n else 0
  {
    seq(if n > 0 then n else 0, o => Sum(ps, Points(scheme, o, n)))
  }

  function Rankings(ps: seq<Payload>): seq<Ranking> {
    if ps == [] then []
    else
      var p := ps[|ps| - 1];
      Rankings(ps[..|ps| - 1]) + if p.Ranked? then [p.ranking] else []
  }

  function TallyOf(scheme: Method, ps: seq<Payload>, n: int): Tally {
    Tally(scheme, n, Scores(scheme, ps, n), Sum(ps, Abstentions()), |ps|,
          if scheme == RankedVote then Some(RunIrv(Rankings(ps), n)) else None)
  }

  // ---- tally itself ------------------------------------------------------------------

  /** One point per distinct in-range option of a multi-select ballot. */
  method AddChoices(choices: seq<int>, scores: array<int>)
    modifies scores
    ensures forall o | 0 <= o < scores.Length :: scores[o] == old(scores[o]) + if o in choices then 1 else 0
  {
    var seen: set<int> := {};
    for i := 0 to |choices|
      invariant forall o | 0 <= o < scores.Length :: o in seen <==> o in choices[..i]
      invariant forall o | 0 <= o < scores.Length :: scores[o] == old(scores[o]) + if o in seen then 1 else 0
    {
      var option := choices[i];
      if InRange(option, scores.Length) && option !in seen {
        seen := seen + {option};
        scores[option] := scores[option] + 1;
      }
      assert choices[..i + 1] == choices[..i] + [option];
    }
    assert choices[..|choices|] == choices;
  }

  /** The positive votes of a quadratic ballot, option by option. */
  method AddVotes(votes: seq<int>, scores: array<int>)
    modifies scores
    ensures forall o | 0 <= o < scores.Length ::
              scores[o] == old(scores[o]) + if o < |votes| && votes[o] > 0 then votes[o] else 0
  {
    var bound := if |votes| < scores.Length then |votes| else scores.Length;
    for i := 0 to bound
      invariant forall o | 0 <= o < scores.Length ::
                  scores[o] == old(scores[o]) + if o < i && votes[o] > 0 then votes[o] else 0
    {
      if votes[i] > 0 {
        scores[i] := scores[i] + votes[i];
      }
    }
  }

  /** The ranked branch: first preferences for display, and the rankings for the runoff. */
  method CollectRankings(ballots: seq<Payload>, optionCount: int, scores: array<int>)
      returns (abstain: int, rankings: seq<Ranking>)
    requires scores.Length == if optionCount > 0 then optionCount else 0
    requires forall o | 0 <= o < scores.Length :: scores[o] == 0
    modifies scores
    ensures abstain == Sum(ballots, Abstentions()) && rankings == Rankings(ballots)
    ensures scores[..] == Scores(RankedVote, ballots, optionCount)
  {
    abstain, rankings := 0, [];
    for i := 0 to |ballots|
      invariant abstain == Sum(ballots[..i], Abstentions()) && rankings == Rankings(ballots[..i])
      invariant forall o | 0 <= o < scores.Length :: scores[o] == Sum(ballots[..i], Points(RankedVote, o, optionCount))
    {
      var b := ballots[i];
      OneMore(RankedVote, ballots, i, optionCount);
      hide Sum, Rankings;
      if b.Abstain? {
        abstain := abstain + 1;
      } else if b.Ranked? {
        rankings := rankings + [b.ranking];
        var first := FindChoice(b.ranking, optionCount, {});
        if first.Some? {
          scores[first.value] := scores[first.value] + 1;
        }
      }
    }
    assert ballots[..|ballots|] == ballots;
  }

  /** The branch of the four scoring methods. */
  method AddScores(scheme: Method, ballots: seq<Payload>, optionCount: int, scores: array<int>) returns (abstain: int)
    requires scheme != RankedVote && scores.Length == if optionCount > 0 then optionCount else 0
    requires forall o | 0 <= o < scores.Length :: scores[o] == 0
    modifies scores
    ensures abstain == Sum(ballots, Abstentions())
    ensures scores[..] == Scores(scheme, ballots, optionCount)
  {
    abstain := 0;
    for i := 0 to |ballots|
      invariant abstain == Sum(ballots[..i], Abstentions())
      invariant forall o | 0 <= o < scores.Length :: scores[o] == Sum(ballots[..i], Points(scheme, o, optionCount))
    {
      OneMore(scheme, ballots, i, optionCount);
      hide Sum, Rankings;
      match ballots[i]
      case Abstain => abstain := abstain + 1;
      case Single(choice) =>
        if InRange(choice, scores.Length) {
          scores[choice] := scores[choice] + 1;
        }
      case Approval(choices) => AddChoices(choices, scores);
      case Survey(choices) => AddChoices(choices, scores);
      case Quadratic(votes) => AddVotes(votes, scores);
      case Ranked(_) =>
    }
    assert ballots[..|ballots|] == ballots;
  }

  method TallyBallots(scheme: Method, ballots: seq<Payload>, optionCount: int) returns (t: Tally)
    ensures t == TallyOf(scheme, ballots, optionCount)
  {
    hide Sum, Rankings, Scores;
    var scores := new int[if optionCount > 0 then optionCount else 0](_ => 0);
    if scheme == RankedVote {
      var abstain, rankings := CollectRankings(ballots, optionCount, scores);
      var winner, rounds := Irv.RunRounds(rankings, optionCount);
      return Tally(scheme, optionCount, scores[..], abstain, |ballots|, Some(IrvResult(winner, rounds)));
    }
    var abstain := AddScores(scheme, ballots, optionCount, scores);
    t := Tally(scheme, optionCount, scores[..], abstain, |ballots|, None);
  }

  lemma OneMore(scheme: Method, ballots: seq<Payload>, i: nat, n: int)
    requires i < |ballots|
    ensures Sum(ballots[..i + 1], Abstentions()) == Sum(ballots[..i], Abstentions()) + Abstentions()(ballots[i])
    ensures forall o ::
      Sum(ballots[..i + 1], Points(scheme, o, n))
      == Sum(ballots[..i], Points(scheme, o, n)) + Points(scheme, o, n)(ballots[i])
    ensures Rankings(ballots[..i + 1])
      == Rankings(ballots[..i]) + if ballots[i].Ranked? then [ballots[i].ranking] else []
  {
    assert ballots[..i + 1][..i] == ballots[..i];
  }

  // ---- the order of the ballots ------------------------------------------------------

  lemma {:induction false} RankingsConcat(a: seq<Payload>, b: seq<Payload>)
    ensures Rankings(a + b) == Rankings(a) + Rankings(b)
  {
    if b == [] {
      assert a + b == a;
    } else {
      RankingsConcat(a, b[..|b| - 1]);
      assert (a + b)[..|a + b| - 1] == a + b[..|b| - 1];
    }
  }

  lemma {:induction false} RankingsPermutation(a: seq<Payload>, b: seq<Payload>)
    requires multiset(a) == multiset(b)
    ensures multiset(Rankings(a)) == multiset(Rankings(b))
  {
    if a == [] {
      assert |multiset(b)| == 0;
    } else {
      var i := WithoutLast(a, b);
      var l, r := b[..i], b[i + 1..];
      assert b == l + ([b[i]] + r);
      RankingsPermutation(a[..|a| - 1], l + r);
      RankingsConcat(l, r);
      RankingsConcat(l, [b[i]] + r);
      RankingsConcat([b[i]], r);
      assert [b[i]][..0] == [];
      assert Rankings([b[i]]) == if b[i].Ranked? then [b[i].ranking] else [];
    }
  }
}
