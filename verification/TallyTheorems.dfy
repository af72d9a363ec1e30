/** Order independence of every tally, and the bounds a quadratic budget gives. */
module TallyTheorems {
  import opened Basics
  import opened Counting
  import opened Irv
  import opened IrvTheorems
  import opened Tallies

  /** Permuting the ballots leaves the whole tally unchanged, every runoff round included. */
  lemma TallyOrderIrrelevant(scheme: Method, ps: seq<Payload>, qs: seq<Payload>, n: int)
    requires multiset(ps) == multiset(qs)
    ensures TallyOf(scheme, ps, n) == TallyOf(scheme, qs, n)
  {
    assert |ps| == |multiset(ps)| == |multiset(qs)| == |qs|;
    forall o { SumPermutation(ps, qs, Points(scheme, o, n)); }
    SumPermutation(ps, qs, Abstentions());
    assert Scores(scheme, ps, n) == Scores(scheme, qs, n);
    if scheme == RankedVote {
      RankingsPermutation(ps, qs);
      OrderIrrelevant(Rankings(ps), Rankings(qs), n);
    }
  }

  // ---- what a tally holds ---------------------------------------------------------------

  lemma {:induction false} AbstainSum(ps: seq<Payload>)
    ensures Sum(ps, Abstentions()) == multiset(ps)[Abstain]
  {
    if ps != [] {
      var init, last := ps[..|ps| - 1], ps[|ps| - 1];
      AbstainSum(init);
      assert ps == init + [last];
    }
  }

  /** The ballot names `o`, on a list without order. */
  predicate Names(p: Payload, o: int) { (p.Approval? || p.Survey?) && o in p.choices }

  /** The places whose ballot names `o` among several options. */
  function NamedAt(ps: seq<Payload>, o: int): set<nat> {
    set i: nat | i < |ps| && Names(ps[i], o)
  }

  /** The positive votes that quadratic ballots give to `o`. */
  function VotesFor(ps: seq<Payload>, o: nat): nat {
    if ps == [] then 0
    else
      var p := ps[|ps| - 1];
      VotesFor(ps[..|ps| - 1], o) + if p.Quadratic? && o < |p.votes| && p.votes[o] > 0 then p.votes[o] else 0
  }

  lemma NamedSum(ps: seq<Payload>, o: int)
    ensures Sum(ps, Naming(o)) == |NamedAt(ps, o)|
  {
    hide Names, Sum;
    SumCountsPlaces(ps, Naming(o), NamedAt(ps, o));
  }

  function Naming(o: int): Payload -> int { (p: Payload) => if Names(p, o) then 1 else 0 }

  lemma {:induction false} ScoreSum(scheme: Method, ps: seq<Payload>, n: nat, o: nat)
    requires scheme != RankedVote
    ensures Sum(ps, Points(scheme, o, n)) == multiset(ps)[Single(o)] + Sum(ps, Naming(o)) + VotesFor(ps, o)
  {
    if ps != [] {
      var init, last := ps[..|ps| - 1], ps[|ps| - 1];
      ScoreSum(scheme, init, n, o);
      assert ps == init + [last];
    }
  }

  /** `o` is the first in-range option of the ranking. */
  ghost predicate RankedFirst(r: Ranking, n: int, o: int) {
    exists k :: 0 <= k < |r| && r[k] == o && 0 <= o < n && forall j | 0 <= j < k :: !(0 <= r[j] < n)
  }

  lemma {:induction false} ChoiceIsFirst(r: Ranking, n: int)
    requires Choice(r, n, {}).Some?
    ensures RankedFirst(r, n, Choice(r, n, {}).value)
  {
    var o := Choice(r, n, {}).value;
    if InRange(r[0], n) {
      assert r[0] == o;
    } else {
      ChoiceIsFirst(r[1..], n);
      var k :| 0 <= k < |r[1..]| && r[1..][k] == o && 0 <= o < n && forall j | 0 <= j < k :: !(0 <= r[1..][j] < n);
      assert r[k + 1] == o;
      forall j | 0 <= j < k + 1 ensures !(0 <= r[j] < n) { if j > 0 { assert r[j] == r[1..][j - 1]; } }
    }
  }

  lemma FirstIsUnique(r: Ranking, n: int, o: int, p: int)
    requires RankedFirst(r, n, o) && RankedFirst(r, n, p)
    ensures o == p
  {
    var k :| 0 <= k < |r| && r[k] == o && 0 <= o < n && forall j | 0 <= j < k :: !(0 <= r[j] < n);
    var l :| 0 <= l < |r| && r[l] == p && 0 <= p < n && forall j | 0 <= j < l :: !(0 <= r[j] < n);
    assert !(k < l) && !(l < k);
  }

  lemma FirstIsChoice(r: Ranking, n: int, o: int)
    ensures Choice(r, n, {}) == Some(o) <==> RankedFirst(r, n, o)
  {
    if Choice(r, n, {}).Some? {
      ChoiceIsFirst(r, n);
      if RankedFirst(r, n, o) { FirstIsUnique(r, n, o, Choice(r, n, {}).value); }
    } else if RankedFirst(r, n, o) {
      var k :| 0 <= k < |r| && r[k] == o && 0 <= o < n && forall j | 0 <= j < k :: !(0 <= r[j] < n);
      assert o in r && InRange(o, n);
    }
  }

  /** The places whose ballot ranks `o` first among the options in range. */
  ghost function FirstAt(ps: seq<Payload>, n: int, o: int): set<nat> {
    set i: nat | i < |ps| && ps[i].Ranked? && RankedFirst(ps[i].ranking, n, o)
  }

  /**
   * Every tally, field by field: all ballots cast, the abstentions among them, and for each option
   * its single votes, the ballots that name it, its quadratic votes, or its first preferences.
   */
  lemma TallyHolds(scheme: Method, ps: seq<Payload>, n: nat)
    ensures var t := TallyOf(scheme, ps, n);
      && t.scheme == scheme && t.optionCount == n && |t.optionScores| == n
      && t.totalCast == |ps| && t.abstain == multiset(ps)[Abstain]
      && (scheme == RankedVote ==>
            && t.irv == Some(RunIrv(Rankings(ps), n))
            && forall o | 0 <= o < n :: t.optionScores[o] == |FirstAt(ps, n, o)|)
      && (scheme != RankedVote ==>
            && t.irv.None?
            && forall o | 0 <= o < n ::
                 t.optionScores[o] == multiset(ps)[Single(o)] + |NamedAt(ps, o)| + VotesFor(ps, o))
  {
    AbstainSum(ps);
    var t := TallyOf(scheme, ps, n);
    forall o | 0 <= o < n
      ensures scheme == RankedVote ==> t.optionScores[o] == |FirstAt(ps, n, o)|
      ensures scheme != RankedVote ==>
        t.optionScores[o] == multiset(ps)[Single(o)] + |NamedAt(ps, o)| + VotesFor(ps, o)
    {
      if scheme == RankedVote { FirstSum(ps, n, o); } else { ScoreSum(scheme, ps, n, o); NamedSum(ps, o); }
    }
    hide Sum, FirstAt, NamedAt, VotesFor;
  }

  lemma FirstSum(ps: seq<Payload>, n: nat, o: nat)
    ensures Sum(ps, Points(RankedVote, o, n)) == |FirstAt(ps, n, o)|
  {
    forall i: nat | i < |ps|
      ensures Points(RankedVote, o, n)(ps[i]) == if i in FirstAt(ps, n, o) then 1 else 0
    {
      if ps[i].Ranked? { FirstIsChoice(ps[i].ranking, n, o); }
    }
    hide RankedFirst;
    SumCountsPlaces(ps, Points(RankedVote, o, n), FirstAt(ps, n, o));
  }

  /** Ballots of the decision's own kind: singles are counted by choice, lists by the ballots that name an option. */
  lemma ScoresByKind(ps: seq<Payload>, n: nat, o: nat)
    requires o < n
    ensures (forall p | p in ps :: p.Single? || p.Abstain?) ==>
      TallyOf(SingleChoice, ps, n).optionScores[o] == multiset(ps)[Single(o)]
    ensures (forall p | p in ps :: p.Approval? || p.Abstain?) ==>
      TallyOf(ApprovalVote, ps, n).optionScores[o] == |NamedAt(ps, o)|
    ensures (forall p | p in ps :: p.Survey? || p.Abstain?) ==>
      TallyOf(SurveyVote, ps, n).optionScores[o] == |NamedAt(ps, o)|
    ensures (forall p | p in ps :: p.Quadratic? || p.Abstain?) ==>
      TallyOf(QuadraticVote, ps, n).optionScores[o] == VotesFor(ps, o)
  {
    TallyHolds(SingleChoice, ps, n);
    TallyHolds(ApprovalVote, ps, n);
    TallyHolds(SurveyVote, ps, n);
    TallyHolds(QuadraticVote, ps, n);
    hide TallyOf;
    if forall p | p in ps :: !p.Quadratic? { NoVotes(ps, o); }
    if forall p | p in ps :: !p.Approval? && !p.Survey? { assert NamedAt(ps, o) == {}; }
    assert Single(o) in multiset(ps) <==> Single(o) in ps;
  }

  lemma {:induction false} NoVotes(ps: seq<Payload>, o: nat)
    requires forall p | p in ps :: !p.Quadratic?
    ensures VotesFor(ps, o) == 0
  {
    if ps != [] { NoVotes(ps[..|ps| - 1], o); }
  }

  /** Mutual majority for whole decisions: the coalition is counted among the ranked ballots. */
  lemma TallyMutualMajority(ps: seq<Payload>, n: int, s: set<int>)
    requires s != {} && s <= Options(n)
    requires 2 * Sum(Rankings(ps), SolidVotes(s, n)) > |Rankings(ps)|
    ensures var t := TallyOf(RankedVote, ps, n);
      t.irv.Some? && t.irv.value.winner.Some? && t.irv.value.winner.value in s
  {
    MutualMajority(Rankings(ps), n, s);
  }

  // ---- the quadratic budget -------------------------------------------------------------

  const QUADRATIC_CREDITS := 100

  function Identity(): int -> int { x => x }

  function Square(): int -> int { x => x * x }

  /** creditsSpent: the cost of a votes vector. */
  function CreditsSpent(votes: seq<int>): int { Sum(votes, Square()) }

  method SpendCredits(votes: seq<int>) returns (sum: int)
    ensures sum == CreditsSpent(votes)
  {
    sum := 0;
    for i := 0 to |votes|
      invariant sum == Sum(votes[..i], Square())
    {
      SumPrefix(votes, i, Square());
      sum := sum + votes[i] * votes[i];
    }
    assert votes[..|votes|] == votes;
  }

  lemma Distribute(a: int, b: int, c: int)
    ensures a * (b + c) == a * b + a * c
  {
  }

  lemma SquareOfDifference(a: int, b: int)
    ensures 0 <= (a - b) * (a - b) == a * a - 2 * (a * b) + b * b
  {
    Distribute(a - b, a, -b);
    Distribute(a, a, -b);
    Distribute(b, a, -b);
    SquareNonNegative(a - b);
  }

  lemma SquareNonNegative(x: int)
    ensures x * x >= 0
  {
  }

  lemma DistanceStep(q: int, t: int, v: int, last: int, k: int)
    requires q - 2 * (v * t) + k * (v * v) >= 0
    ensures q + last * last - 2 * (v * (t + last)) + (k + 1) * (v * v) >= 0
  {
    Distribute(v, t, last);
    Distribute(v * v, k, 1);
    SquareOfDifference(v, last);
  }

  /** The sum of squared distances to any `v` is not negative. */
  lemma {:induction false} Distances(x: seq<int>, v: int)
    ensures Sum(x, Square()) - 2 * (v * Sum(x, Identity())) + |x| * (v * v) >= 0
  {
    if x == [] {
      assert Sum(x, Square()) == Sum(x, Identity()) == 0;
    } else {
      var init, last := x[..|x| - 1], x[|x| - 1];
      LastSums(x);
      hide *;
      Distances(init, v);
      DistanceStep(Sum(init, Square()), Sum(init, Identity()), v, last, |init|);
    }
  }

  lemma LastSums(x: seq<int>)
    requires x != []
    ensures var init, last := x[..|x| - 1], x[|x| - 1];
      Sum(x, Square()) == Sum(init, Square()) + last * last && Sum(x, Identity()) == Sum(init, Identity()) + last
  {
  }

  /** The square of a sum of `k` numbers is at most `k` times the sum of their squares. */
  lemma {:induction false} CauchySchwarz(x: seq<int>)
    ensures Sum(x, Identity()) * Sum(x, Identity()) <= |x| * Sum(x, Square())
  {
    if x == [] {
      assert Sum(x, Square()) == Sum(x, Identity()) == 0;
    } else {
      var init, v := x[..|x| - 1], x[|x| - 1];
      LastSums(x);
      hide *;
      CauchySchwarz(init);
      Distances(init, v);
      CauchyStep(Sum(init, Identity()), Sum(init, Square()), v, |init|);
    }
  }

  lemma CauchyStep(t: int, q: int, v: int, k: nat)
    requires t * t <= k * q && q - 2 * (v * t) + k * (v * v) >= 0
    ensures (t + v) * (t + v) <= (k + 1) * (q + v * v)
  {
    Distribute(t + v, t, v);
    Distribute(t, t, v);
    Distribute(v, t, v);
    Distribute(k + 1, q, v * v);
    Distribute(q, k, 1);
    Distribute(v * v, k, 1);
  }

  /** The points a ballot gives to each option. */
  function Given(scheme: Method, p: Payload, n: nat): seq<int> {
    seq(n, o => Points(scheme, o, n)(p))
  }

  function GivenTotal(scheme: Method, n: nat): Payload -> int {
    p => Sum(Given(scheme, p, n), Identity())
  }

  /** Adding up all scores adds up what each ballot gave. */
  lemma {:induction false} TotalOfScores(scheme: Method, ps: seq<Payload>, n: nat)
    ensures Sum(Scores(scheme, ps, n), Identity()) == Sum(ps, GivenTotal(scheme, n))
  {
    if ps == [] {
      var zeros := Scores(scheme, ps, n);
      SumAligned(zeros, zeros, Identity(), (x: int) => 0);
      SumBounds(zeros, (x: int) => 0, 0);
    } else {
      var init, last := ps[..|ps| - 1], ps[|ps| - 1];
      TotalOfScores(scheme, init, n);
      AddPointwise(Scores(scheme, init, n), Given(scheme, last, n), Scores(scheme, ps, n));
    }
  }

  lemma {:induction false} AddPointwise(a: seq<int>, b: seq<int>, c: seq<int>)
    requires |a| == |b| == |c| && forall i | 0 <= i < |a| :: c[i] == a[i] + b[i]
    ensures Sum(c, Identity()) == Sum(a, Identity()) + Sum(b, Identity())
  {
    if a != [] { AddPointwise(a[..|a| - 1], b[..|b| - 1], c[..|c| - 1]); }
  }

  /** The votes of a quadratic ballot that count: positive ones, for options that exist. */
  function Counted(votes: seq<int>, n: nat): seq<int> {
    seq(n, o => if 0 <= o < |votes| && votes[o] > 0 then votes[o] else 0)
  }

  /** What a quadratic ballot counts costs no more than the ballot. */
  lemma {:induction false} CountedWithinCost(votes: seq<int>, n: nat)
    ensures Sum(Counted(votes, n), Square()) <= CreditsSpent(votes)
    decreases n + |votes|
  {
    var counted := Counted(votes, n);
    if n > |votes| {
      CountedWithinCost(votes, n - 1);
      assert counted[..n - 1] == Counted(votes, n - 1);
    } else if votes != [] {
      var init, v := votes[..|votes| - 1], votes[|votes| - 1];
      SquareNonNegative(v);
      if n == |votes| {
        CountedWithinCost(init, n - 1);
        assert counted[..n - 1] == Counted(init, n - 1);
      } else {
        CountedWithinCost(init, n);
        assert counted == Counted(init, n);
      }
    }
  }

  lemma GivenIsCounted(votes: seq<int>, n: nat)
    ensures Given(QuadraticVote, Quadratic(votes), n) == Counted(votes, n)
    ensures Given(QuadraticVote, Abstain, n) == seq(n, _ => 0)
  {
    var given := Given(QuadraticVote, Quadratic(votes), n);
    forall o | 0 <= o < n ensures given[o] == Counted(votes, n)[o] {
      assert given[o] == Points(QuadraticVote, o, n)(Quadratic(votes));
    }
    forall o | 0 <= o < n ensures Given(QuadraticVote, Abstain, n)[o] == 0 {
      assert Given(QuadraticVote, Abstain, n)[o] == Points(QuadraticVote, o, n)(Abstain);
    }
  }

  lemma {:induction false} TermWithinSquares(x: seq<int>, i: nat)
    requires i < |x|
    ensures x[i] * x[i] <= Sum(x, Square())
  {
    SumBoundsBelow(x[..|x| - 1]);
    if i < |x| - 1 {
      TermWithinSquares(x[..|x| - 1], i);
      SquareNonNegative(x[|x| - 1]);
    }
  }

  lemma {:induction false} SumBoundsBelow(x: seq<int>)
    ensures Sum(x, Square()) >= 0
  {
    if x != [] {
      SumBoundsBelow(x[..|x| - 1]);
      SquareNonNegative(x[|x| - 1]);
    }
  }

  lemma RootOfHundred(x: int)
    requires x * x <= 100
    ensures -10 <= x <= 10
  {
    if x > 10 { SquareGrows(x, 11); }
    if x < -10 { SquareGrows(-x, 11); }
  }

  lemma SquareGrows(x: int, y: nat)
    requires y <= x
    ensures x * x >= y * y && (-x) * (-x) == x * x
  {
    assert x * x >= y * x >= y * y;
  }

  lemma {:induction false} Repeated(x: seq<int>, hi: int)
    requires forall i | 0 <= i < |x| :: x[i] * x[i] <= hi
    ensures Sum(x, Square()) <= |x| * hi
  {
    if x != [] {
      var last := x[|x| - 1];
      Repeated(x[..|x| - 1], hi);
      assert last * last <= hi;
      assert |x| * hi == (|x| - 1) * hi + hi;
    }
  }

  lemma Multiplied(m: nat, a: int, b: int)
    requires a <= b
    ensures m * a <= m * b
  {
  }

  /** One ballot within budget gives at most 10 points to an option, and T points with T^2 <= 100n. */
  lemma BallotBound(p: Payload, n: nat)
    requires p.Abstain? || (p.Quadratic? && CreditsSpent(p.votes) <= QUADRATIC_CREDITS)
    ensures var given, total := Given(QuadraticVote, p, n), GivenTotal(QuadraticVote, n)(p);
      && (forall o | 0 <= o < n :: 0 <= given[o] <= 10)
      && total * total <= 100 * n
  {
    var given := Given(QuadraticVote, p, n);
    hide Given, Points;
    CauchySchwarz(given);
    if p.Quadratic? {
      GivenIsCounted(p.votes, n);
      CountedWithinCost(p.votes, n);
      forall o | 0 <= o < n ensures 0 <= given[o] <= 10 {
        TermWithinSquares(given, o);
        RootOfHundred(given[o]);
      }
    } else {
      GivenIsCounted([], n);
      Repeated(given, 0);
    }
    Multiplied(n, Sum(given, Square()), 100);
  }

  lemma OptionBound(ps: seq<Payload>, n: nat, o: nat)
    requires forall p | p in ps :: p.Abstain? || (p.Quadratic? && CreditsSpent(p.votes) <= QUADRATIC_CREDITS)
    requires o < n
    ensures 0 <= Sum(ps, Points(QuadraticVote, o, n)) <= 10 * |ps|
  {
    forall p | p in ps ensures 0 <= Points(QuadraticVote, o, n)(p) <= 10 {
      BallotBound(p, n);
      assert Given(QuadraticVote, p, n)[o] == Points(QuadraticVote, o, n)(p);
    }
    SumBounds(ps, Points(QuadraticVote, o, n), 10);
  }

  lemma TotalBound(ps: seq<Payload>, n: nat)
    requires forall p | p in ps :: p.Abstain? || (p.Quadratic? && CreditsSpent(p.votes) <= QUADRATIC_CREDITS)
    ensures var total, m := Sum(Scores(QuadraticVote, ps, n), Identity()), |ps|;
      total * total <= 100 * n * (m * m)
  {
    var m, totals := |ps|, Map(ps, GivenTotal(QuadraticVote, n));
    forall i | 0 <= i < m ensures totals[i] * totals[i] <= 100 * n {
      BallotBound(ps[i], n);
    }
    SumAligned(ps, totals, GivenTotal(QuadraticVote, n), Identity());
    TotalOfScores(QuadraticVote, ps, n);
    hide *;
    Repeated(totals, 100 * n);
    CauchySchwarz(totals);
    Multiplied(m, Sum(totals, Square()), m * (100 * n));
    Rearranged(m, n);
  }

  lemma Rearranged(m: int, n: int)
    ensures m * (m * (100 * n)) == 100 * n * (m * m)
  {
    assert m * (m * (100 * n)) == (m * m) * (100 * n);
  }

  /**
   * If every ballot spends at most 100 credits, m ballots give no option more than 10m, and the
   * square of the sum of all n scores is at most 100 * n * m^2.
   */
  lemma QuadraticBudgetBounds(ps: seq<Payload>, n: nat)
    requires forall p | p in ps :: p.Abstain? || (p.Quadratic? && CreditsSpent(p.votes) <= QUADRATIC_CREDITS)
    ensures var scores, m := TallyOf(QuadraticVote, ps, n).optionScores, |ps|;
      && (forall o | 0 <= o < n :: 0 <= scores[o] <= 10 * m)
      && Sum(scores, Identity()) * Sum(scores, Identity()) <= 100 * n * (m * m)
  {
    forall o | 0 <= o < n { OptionBound(ps, n, o); }
    TotalBound(ps, n);
  }
}
