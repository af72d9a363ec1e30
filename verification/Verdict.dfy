/** The published outcome of a tally: tally/verdict.ts. */
module Verdicts {
  import opened Basics
  import opened Counting
  import opened Irv
  import opened IrvTheorems
  import opened Tallies
  import Doubles
  import JsonText
  import Numbers
  import TallyTheorems

  /** Plurality and majority rules may carry a percent along; only supermajority reads it. */
  datatype Threshold =
    | Plurality(unread: Option<Numbers.Finite>)
    | Majority(unread: Option<Numbers.Finite>)
    | Supermajority(percent: Numbers.Finite)
  datatype TieBreak = Declare | Runoff | Casting | RandomSeed
  datatype Rule = Rule(threshold: Threshold, quorum: Option<int>, tieBreak: TieBreak, seed: Option<string>)

  datatype Outcome = Carried | Failed | Tied | QuorumNotMet
  datatype Verdict = Verdict(outcome: Outcome, winner: Option<int>, tiedOptions: Option<seq<int>>,
                             runoff: bool, needsCastingVote: bool)

  function Plain(outcome: Outcome): Verdict { Verdict(outcome, None, None, false, false) }

  // ---- the leading options ------------------------------------------------------------

  /** The highest score, or -1 when there is none above it. */
  function MaxScore(scores: seq<int>): (max: int)
    ensures max >= -1 && forall i | 0 <= i < |scores| :: scores[i] <= max
    ensures max > -1 ==> exists i :: 0 <= i < |scores| && scores[i] == max
  {
    if scores == [] then -1
    else
      var m, last := MaxScore(scores[..|scores| - 1]), scores[|scores| - 1];
      if last > m then last else m
  }

  /** The indices that hold `max`, ascending. */
  function TiedAt(scores: seq<int>, max: int): (tied: seq<int>)
    ensures forall i :: i in tied <==> 0 <= i < |scores| && scores[i] == max
    ensures forall i, j | 0 <= i < j < |tied| :: tied[i] < tied[j]
  {
    if scores == [] then []
    else
      var k := |scores| - 1;
      var before := TiedAt(scores[..k], max);
      assert forall i | i in before :: scores[..k][i] == scores[i];
      assert forall i | 0 <= i < |before| :: before[i] in before;
      if scores[k] == max then before + [k] else before
  }

  method TopOptions(scores: seq<int>) returns (top: int, max: int, tied: seq<int>)
    ensures max == MaxScore(scores) && tied == TiedAt(scores, max)
    ensures top == if tied != [] then tied[0] else -1
  {
    max := -1;
    for i := 0 to |scores|
      invariant max == MaxScore(scores[..i])
    {
      assert scores[..i + 1][..i] == scores[..i];
      if scores[i] > max { max := scores[i]; }
    }
    assert scores[..|scores|] == scores;
    tied := [];
    for i := 0 to |scores|
      invariant tied == TiedAt(scores[..i], max)
    {
      assert scores[..i + 1][..i] == scores[..i];
      if scores[i] == max { tied := tied + [i]; }
    }
    top := if tied != [] then tied[0] else -1;
  }

  // ---- ties -----------------------------------------------------------------------------

  /** One unit of FNV-1a, in 32-bit arithmetic. */
  function SeedStep(h: bv32, unit: bv32): bv32 { (h ^ unit) * 0x01000193 }

  /** FNV-1a over the seed's UTF-16 code units. */
  function SeedHash(units: seq<int>, h: bv32): bv32
    requires forall i | 0 <= i < |units| :: 0 <= units[i] < 0x10000
  {
    if units == [] then h else SeedHash(units[1..], SeedStep(h, units[0] as bv32))
  }

  function SeededPick(seed: string, tied: seq<int>): (o: int)
    requires tied != []
    ensures o in tied
  {
    tied[SeedHash(JsonText.CodeUnits(seed), 0x811c9dc5) as int % |tied|]
  }

  function ResolveTie(tied: seq<int>, rule: Rule): Verdict
    requires tied != []
  {
    match rule.tieBreak
    case Runoff => Verdict(Tied, None, Some(tied), true, false)
    case Casting => Verdict(Tied, None, Some(tied), false, true)
    case RandomSeed =>
      Verdict(Carried, Some(SeededPick(if rule.seed.Some? then rule.seed.value else "", tied)), Some(tied), false,
        false)
    case Declare => Verdict(Tied, None, Some(tied), false, false)
  }

  // ---- the verdict ------------------------------------------------------------------------

  /** The double that a percent's text stands for. */
  function PercentDouble(percent: Numbers.Finite): real { Doubles.ToDouble(Numbers.Value(percent)) }

  function Product(x: real, base: int): real { x * base as real }

  /** percent * base, rounded to a double. */
  function PercentOf(percent: Numbers.Finite, base: int): real {
    Doubles.ToDouble(Product(PercentDouble(percent), base))
  }

  predicate PassesThreshold(rule: Rule, max: int, base: int) {
    match rule.threshold
    case Plurality(_) => max > 0
    case Majority(_) => 2 * max > base
    case Supermajority(percent) => (max * 100) as real >= PercentOf(percent, base)
  }

  /** The winner's count in the last runoff round. */
  function LastRoundScore(t: Tally, winner: int): int {
    if t.irv.Some? && t.irv.value.rounds != [] then
      var counts := t.irv.value.rounds[|t.irv.value.rounds| - 1].counts;
      if 0 <= winner < |counts| then counts[winner] else 0
    else if 0 <= winner < |t.optionScores| then t.optionScores[winner] else 0
  }

  function RankedVerdict(t: Tally, rule: Rule, base: int): Verdict {
    if base <= 0 || t.irv.None? || t.irv.value.winner.None? then Plain(Failed)
    else
      var winner := t.irv.value.winner.value;
      if PassesThreshold(rule, LastRoundScore(t, winner), base)
      then Plain(Carried).(winner := Some(winner)) else Plain(Failed)
  }

  predicate QuorumMet(t: Tally, rule: Rule, denominator: int) {
    var turnout := if t.totalCast < denominator then t.totalCast else denominator;
    rule.quorum.None? || turnout >= rule.quorum.value
  }

  function VerdictOf(t: Tally, rule: Rule, denominator: int): Verdict {
    var base := t.totalCast - t.abstain;
    if !QuorumMet(t, rule, denominator) then Plain(QuorumNotMet)
    else if t.scheme == RankedVote then RankedVerdict(t, rule, base)
    else if base <= 0 then Plain(Failed)
    else
      var max := MaxScore(t.optionScores);
      var tied := TiedAt(t.optionScores, max);
      if max > 0 && |tied| > 1 then ResolveTie(tied, rule)
      else if max > 0 && PassesThreshold(rule, max, base) then
        Plain(Carried).(winner := Some(if tied != [] then tied[0] else -1))
      else Plain(Failed)
  }

  method Decide(t: Tally, rule: Rule, denominator: int) returns (v: Verdict)
    ensures v == VerdictOf(t, rule, denominator)
  {
    if !QuorumMet(t, rule, denominator) { return Plain(QuorumNotMet); }
    var base := t.totalCast - t.abstain;
    if t.scheme == RankedVote { return RankedVerdict(t, rule, base); }
    if base <= 0 { return Plain(Failed); }
    var top, max, tied := TopOptions(t.optionScores);
    if max > 0 && |tied| > 1 { return ResolveTie(tied, rule); }
    if max > 0 && PassesThreshold(rule, max, base) { return Plain(Carried).(winner := Some(top)); }
    v := Plain(Failed);
  }

  // ---- what an outcome means -----------------------------------------------------------------

  /** Two options share the top score, and it is positive. */
  ghost predicate TieAtTop(scores: seq<int>) {
    exists i, j :: 0 <= i < j < |scores| && scores[i] == scores[j] == MaxScore(scores) && scores[i] > 0
  }

  lemma TieAtTopIff(scores: seq<int>)
    ensures TieAtTop(scores) <==> MaxScore(scores) > 0 && |TiedAt(scores, MaxScore(scores))| > 1
    ensures MaxScore(scores) > 0 ==> TiedAt(scores, MaxScore(scores)) != []
  {
    var max := MaxScore(scores);
    var tied := TiedAt(scores, max);
    if max > 0 {
      var i :| 0 <= i < |scores| && scores[i] == max;
      assert i in tied;
    }
    if i, j :| 0 <= i < j < |scores| && scores[i] == scores[j] == max && scores[i] > 0 {
      assert i in tied && j in tied;
      var a :| 0 <= a < |tied| && tied[a] == i;
      var b :| 0 <= b < |tied| && tied[b] == j;
      assert a != b;
    }
    if max > 0 && |tied| > 1 {
      assert tied[0] in tied && tied[1] in tied && tied[0] < tied[1];
    }
  }

  predicate Contested(t: Tally, rule: Rule, denominator: int) {
    QuorumMet(t, rule, denominator) && t.totalCast - t.abstain > 0
  }

  /**
   * Outside ranked tallies, for every threshold: a tie at the top is left to the tie-break, which
   * carries exactly when it is the seed; without one, the top score carries exactly when it is
   * positive and passes the threshold.
   */
  lemma CarriesIff(t: Tally, rule: Rule, denominator: int)
    requires t.scheme != RankedVote
    ensures var v, s, base := VerdictOf(t, rule, denominator), t.optionScores, t.totalCast - t.abstain;
      && (v.outcome == QuorumNotMet <==> !QuorumMet(t, rule, denominator))
      && (v.outcome == Tied <==> Contested(t, rule, denominator) && TieAtTop(s) && rule.tieBreak != RandomSeed)
      && (v.outcome == Carried <==>
            && Contested(t, rule, denominator)
            && if TieAtTop(s) then rule.tieBreak == RandomSeed
               else MaxScore(s) > 0 && PassesThreshold(rule, MaxScore(s), base))
  {
    hide SeedHash, MaxScore, TiedAt, TieAtTop, PassesThreshold;
    TieAtTopIff(t.optionScores);
  }

  /** Every ranked tally: the runoff's winner carries exactly when its last count passes the threshold. */
  lemma RankedCarriesIff(t: Tally, rule: Rule, denominator: int)
    requires t.scheme == RankedVote
    ensures var v := VerdictOf(t, rule, denominator);
      v.outcome == Carried
      <==> && Contested(t, rule, denominator) && t.irv.Some? && t.irv.value.winner.Some?
           && PassesThreshold(rule, LastRoundScore(t, t.irv.value.winner.value), t.totalCast - t.abstain)
  {
    hide PassesThreshold, LastRoundScore;
  }

  /** A carried winner has the top score, and is strictly ahead of every other option unless the seed broke a tie. */
  lemma OutcomeMeans(t: Tally, rule: Rule, denominator: int)
    requires t.scheme != RankedVote
    ensures var v, s := VerdictOf(t, rule, denominator), t.optionScores;
      && (v.outcome == Tied ==> TieAtTop(s) && rule.tieBreak != RandomSeed)
      && (v.outcome == Carried ==> v.winner.Some? && 0 <= v.winner.value < |s| && s[v.winner.value] == MaxScore(s) > 0)
      && (v.outcome == Carried && TieAtTop(s) ==> rule.tieBreak == RandomSeed)
      && (v.outcome == Carried && !TieAtTop(s) ==>
            forall o | 0 <= o < |s| && o != v.winner.value :: s[o] < s[v.winner.value])
  {
    hide SeedHash, MaxScore, TiedAt, TieAtTop, PassesThreshold;
    TieAtTopIff(t.optionScores);
    var s := t.optionScores;
    var tied := TiedAt(s, MaxScore(s));
    if MaxScore(s) > 0 { assert tied[0] in tied; }
    if |tied| == 1 {
      forall o | 0 <= o < |s| && o != tied[0] ensures s[o] < MaxScore(s) {
        assert tied == [tied[0]] && (o in tied <==> s[o] == MaxScore(s));
      }
    }
  }

  /** A carried winner misses the threshold exactly when the seed picked it from tied options that all miss it. */
  lemma CarriedUnderTheBarIff(t: Tally, rule: Rule, denominator: int)
    requires t.scheme != RankedVote
    ensures var v, s, base := VerdictOf(t, rule, denominator), t.optionScores, t.totalCast - t.abstain;
      v.outcome == Carried && v.winner.Some? && 0 <= v.winner.value < |s|
        && !PassesThreshold(rule, s[v.winner.value], base)
      <==> && Contested(t, rule, denominator) && TieAtTop(s) && rule.tieBreak == RandomSeed
           && !PassesThreshold(rule, MaxScore(s), base)
  {
    hide *;
    CarriesIff(t, rule, denominator);
    OutcomeMeans(t, rule, denominator);
  }

  /** Three ballots for three options: whatever the seed, one of them carries the majority rule on one vote of three. */
  lemma OneOfThreeCarries(seed: Option<string>)
    ensures var ps := [Single(0), Single(1), Single(2)];
      var rule := Rule(Majority(None), None, RandomSeed, seed);
      var t := TallyOf(SingleChoice, ps, 3);
      var v := VerdictOf(t, rule, |ps|);
      && t.optionScores == [1, 1, 1] && t.totalCast - t.abstain == 3
      && v.outcome == Carried && !PassesThreshold(rule, 1, 3)
  {
    hide *;
    OnesTie();
    ThreeSingles();
    OneOfThree(Rule(Majority(None), None, RandomSeed, seed));
    CarriesIff(TallyOf(SingleChoice, [Single(0), Single(1), Single(2)], 3),
      Rule(Majority(None), None, RandomSeed, seed), 3);
  }

  lemma OneOfThree(rule: Rule)
    requires rule.threshold.Majority? && rule.quorum.None?
    ensures !PassesThreshold(rule, 1, 3)
    ensures forall t: Tally :: Contested(t, rule, 3) <==> t.totalCast - t.abstain > 0
  {
  }

  lemma ThreeSingles()
    ensures var t := TallyOf(SingleChoice, [Single(0), Single(1), Single(2)], 3);
      t.scheme == SingleChoice && t.optionScores == [1, 1, 1] && t.totalCast == 3 && t.abstain == 0
  {
    var ps := [Single(0), Single(1), Single(2)];
    hide Sum;
    forall o | 0 <= o < 3 ensures Sum(ps, Points(SingleChoice, o, 3)) == 1 { ThreeSum(ps, Points(SingleChoice, o, 3)); }
    ThreeSum(ps, Abstentions());
    assert Scores(SingleChoice, ps, 3) == [1, 1, 1];
  }

  lemma ThreeSum<T>(s: seq<T>, f: T -> int)
    requires |s| == 3
    ensures Sum(s, f) == f(s[0]) + f(s[1]) + f(s[2])
  {
    SumPrefix(s, 2, f);
    SumPrefix(s, 1, f);
    SumPrefix(s, 0, f);
    assert s[..3] == s && s[..0] == [];
  }

  lemma OnesTie()
    ensures TieAtTop([1, 1, 1])
  {
    var s := [1, 1, 1];
    assert MaxScore(s) == 1;
    assert s[0] == s[1] == MaxScore(s) && s[0] > 0;
  }

  // ---- what a verdict holds --------------------------------------------------------------------

  /** A quorum counts the ballots cast, or the denominator if that is less. */
  lemma QuorumMeans(t: Tally, rule: Rule, denominator: int)
    ensures QuorumMet(t, rule, denominator)
      <==> (rule.quorum.Some? ==> rule.quorum.value <= t.totalCast && rule.quorum.value <= denominator)
  {
  }

  /** With the ballots cast as denominator, a quorum of q is met from q ballots on, abstentions included. */
  lemma QuorumOfBallots(scheme: Method, ps: seq<Payload>, n: int, rule: Rule)
    ensures VerdictOf(TallyOf(scheme, ps, n), rule, |ps|).outcome == QuorumNotMet
      <==> rule.quorum.Some? && |ps| < rule.quorum.value
  {
    hide Scores, Sum, RunIrv, MaxScore, TiedAt, PassesThreshold, ResolveTie, RankedVerdict;
    TieBreaks(rule, [0]);
    RankedOutcome(TallyOf(scheme, ps, n), rule, TallyOf(scheme, ps, n).totalCast - TallyOf(scheme, ps, n).abstain);
    ResolveIsNeverQuorum(rule);
  }

  lemma ResolveIsNeverQuorum(rule: Rule)
    ensures forall tied | tied != [] :: ResolveTie(tied, rule).outcome != QuorumNotMet
  {
    hide SeedHash;
  }

  lemma RankedOutcome(t: Tally, rule: Rule, base: int)
    ensures RankedVerdict(t, rule, base).outcome in {Carried, Failed}
  {
    hide PassesThreshold, LastRoundScore;
  }

  /** What each tie-break says: a plain tie, a runoff, a casting vote, or the seed's pick among the tied. */
  lemma TieBreaks(rule: Rule, tied: seq<int>)
    requires tied != []
    ensures var v := ResolveTie(tied, rule);
      && v.tiedOptions == Some(tied)
      && (v.runoff <==> rule.tieBreak == Runoff) && (v.needsCastingVote <==> rule.tieBreak == Casting)
      && (rule.tieBreak == RandomSeed ==> v.outcome == Carried && v.winner.Some? && v.winner.value in tied)
      && (rule.tieBreak != RandomSeed ==> v.outcome == Tied && v.winner.None?)
  {
    hide SeedHash;
  }

  /**
   * Outside ranked tallies: a tie at the top lists exactly the options that share it and sets the
   * flag of its tie-break; any other verdict lists none, sets none, and names a winner only if carried.
   */
  lemma VerdictHolds(t: Tally, rule: Rule, denominator: int)
    requires t.scheme != RankedVote
    ensures var v, s := VerdictOf(t, rule, denominator), t.optionScores;
      if Contested(t, rule, denominator) && TieAtTop(s) then
        && v.tiedOptions.Some?
        && (forall o :: o in v.tiedOptions.value <==> 0 <= o < |s| && s[o] == MaxScore(s))
        && (forall i, j | 0 <= i < j < |v.tiedOptions.value| :: v.tiedOptions.value[i] < v.tiedOptions.value[j])
        && (v.runoff <==> rule.tieBreak == Runoff) && (v.needsCastingVote <==> rule.tieBreak == Casting)
        && (v.winner.Some? <==> rule.tieBreak == RandomSeed)
      else
        v.tiedOptions.None? && !v.runoff && !v.needsCastingVote && (v.winner.Some? <==> v.outcome == Carried)
  {
    hide SeedHash, MaxScore, TiedAt, TieAtTop, PassesThreshold, ResolveTie;
    TieAtTopIff(t.optionScores);
    var tied := TiedAt(t.optionScores, MaxScore(t.optionScores));
    if tied != [] { TieBreaks(rule, tied); }
  }

  /** A ranked verdict names the runoff's winner exactly when it carries, and nothing else. */
  lemma RankedVerdictHolds(t: Tally, rule: Rule, denominator: int)
    requires t.scheme == RankedVote
    ensures var v := VerdictOf(t, rule, denominator);
      && v.tiedOptions.None? && !v.runoff && !v.needsCastingVote
      && (v.outcome == Carried ==> t.irv.Some? && t.irv.value.winner.Some? && v.winner == t.irv.value.winner)
      && (v.outcome != Carried ==> v.winner.None?)
  {
    hide PassesThreshold, LastRoundScore;
  }

  /** Mutual majority down to the verdict: whatever else is cast, a carried winner is in the coalition's set. */
  lemma CoalitionCarries(ps: seq<Payload>, n: int, s: set<int>, rule: Rule, denominator: int)
    requires s != {} && s <= Options(n)
    requires 2 * Sum(Rankings(ps), SolidVotes(s, n)) > |Rankings(ps)|
    ensures var v := VerdictOf(TallyOf(RankedVote, ps, n), rule, denominator);
      if v.outcome == Carried then v.winner.Some? && v.winner.value in s else v.winner.None?
  {
    hide *;
    TallyTheorems.TallyMutualMajority(ps, n, s);
    RankedTally(ps, n);
    RankedVerdictHolds(TallyOf(RankedVote, ps, n), rule, denominator);
  }

  /** The verdict carries exactly when the winner's count in the last round passes over `base`. */
  predicate ByLastCount(r: IrvResult, n: int, rule: Rule, base: int, v: Verdict) {
    && r.winner.Some? && r.rounds != []
    && var counts, w := r.rounds[|r.rounds| - 1].counts, r.winner.value;
       0 <= w < |counts| == n && (v.outcome == Carried <==> PassesThreshold(rule, counts[w], base))
  }

  /** The count that decides a ranked verdict is the winner's in the last round of the runoff. */
  lemma LastCountDecides(ps: seq<Payload>, n: int, rule: Rule)
    requires n >= 1 && Rankings(ps) != [] && (rule.quorum.Some? ==> rule.quorum.value <= |ps|)
    ensures ByLastCount(RunIrv(Rankings(ps), n), n, rule, |ps| - multiset(ps)[Abstain],
                        VerdictOf(TallyOf(RankedVote, ps, n), rule, |ps|))
  {
    var t := TallyOf(RankedVote, ps, n);
    QuorumMeans(t, rule, |ps|);
    hide *;
    RankedTally(ps, n);
    RankedWithinBase(ps);
    TallyTheorems.AbstainSum(ps);
    RunFromNothing(Rankings(ps), n);
    RankedCarriesIff(t, rule, |ps|);
    LastScoreIs(t);
    ContestedMeans(t, rule, |ps|);
    ByLastCountIs(RunIrv(Rankings(ps), n), n, rule, |ps| - multiset(ps)[Abstain], VerdictOf(t, rule, |ps|));
  }

  lemma ByLastCountIs(r: IrvResult, n: int, rule: Rule, base: int, v: Verdict)
    requires r.winner.Some? && r.rounds != [] && 0 <= r.winner.value < |r.rounds[|r.rounds| - 1].counts| == n
    requires v.outcome == Carried <==> PassesThreshold(rule, r.rounds[|r.rounds| - 1].counts[r.winner.value], base)
    ensures ByLastCount(r, n, rule, base, v)
  {
  }

  lemma LastScoreIs(t: Tally)
    requires t.irv.Some? && t.irv.value.rounds != [] && t.irv.value.winner.Some?
    requires var r := t.irv.value; 0 <= r.winner.value < |r.rounds[|r.rounds| - 1].counts|
    ensures var r := t.irv.value;
      LastRoundScore(t, r.winner.value) == r.rounds[|r.rounds| - 1].counts[r.winner.value]
  {
  }

  lemma ContestedMeans(t: Tally, rule: Rule, denominator: int)
    ensures Contested(t, rule, denominator) <==> QuorumMet(t, rule, denominator) && t.totalCast > t.abstain
  {
  }

  /** The seed's hash agrees with the published 32-bit FNV-1a value of the one byte 97, the text "a". */
  lemma SeedHashOfA()
    ensures SeedHash([97], 0x811c9dc5) == 0xe40c292c && SeedHash([], 0x811c9dc5) == 0x811c9dc5
  {
    hide SeedStep;
    assert [97][1..] == [];
    HashOfA();
  }

  /** Whatever options are tied, the seed "a" picks the one at place 0xe40c292c modulo their number. */
  lemma SeededPickOfA(tied: seq<int>)
    requires tied != []
    ensures SeededPick("a", tied) == tied[0xe40c292c % |tied|]
  {
    SeedHashOfA();
    assert JsonText.CodeUnits("a") == [97] by { assert "a"[1..] == "" && JsonText.CodeUnits("") == []; }
    assert 0xe40c292c as bv32 as int == 0xe40c292c;
    hide SeedHash;
  }

  lemma HashOfA()
    ensures SeedStep(0x811c9dc5, 97 as bv32) == 0xe40c292c
  {
    assert 97 as bv32 == 0x61;
  }

  // ---- supermajorities in doubles -----------------------------------------------------------

  /** The product is rounded, so a score passes when it reaches the product or the product is rounded down onto it. */
  lemma SupermajorityIff(rule: Rule, max: int, base: int)
    requires rule.threshold.Supermajority? && -Doubles.TWO_53 <= max * 100 <= Doubles.TWO_53
    ensures var product := Product(PercentDouble(rule.threshold.percent), base);
      PassesThreshold(rule, max, base)
      <==> (max * 100) as real >= product || Doubles.ToDouble(product) == (max * 100) as real
  {
    hide Doubles.ToDouble, PercentDouble, Product;
    Doubles.ComparesIff(max * 100, Product(PercentDouble(rule.threshold.percent), base));
  }

  /** For whole percents the comparison is exact: at least that many of each hundred. */
  lemma WholePercentsAreExact(rule: Rule, percent: int, max: int, base: int)
    requires rule.threshold == Supermajority(Numbers.IntNum(percent))
    requires -Doubles.TWO_53 <= percent <= Doubles.TWO_53 && -Doubles.TWO_53 <= percent * base <= Doubles.TWO_53
    ensures PassesThreshold(rule, max, base) <==> max * 100 >= percent * base
  {
    hide PercentOf;
    WholePercentOf(percent, base);
  }

  lemma WholePercentOf(percent: int, base: int)
    requires -Doubles.TWO_53 <= percent <= Doubles.TWO_53 && -Doubles.TWO_53 <= percent * base <= Doubles.TWO_53
    ensures PercentOf(Numbers.IntNum(percent), base) == (percent * base) as real
  {
    hide Doubles.ToDouble, Numbers.Value, Numbers.IntNum, Product;
    Numbers.ValueOfInt(percent);
    Doubles.IntegersAreExact(percent);
    Doubles.IntegersAreExact(percent * base);
    ProductOfInts(percent, base);
  }

  lemma ProductOfInts(a: int, b: int)
    ensures Product(a as real, b) == (a * b) as real
  {
  }

  /**
   * For fractional percents it is not: 7 approvals of 10000 are 0.07 percent, and yet, with
   * doubles, they do not pass a supermajority of 0.07 percent.
   */
  lemma BoundaryMissed(quorum: Option<int>, tieBreak: TieBreak, seed: Option<string>)
    ensures var percent := Numbers.Num(false, 0, "07", 0);
      var rule := Rule(Supermajority(percent), quorum, tieBreak, seed);
      && Numbers.WellFormed(percent)
      && 7.0 * 100.0 == Numbers.Value(percent) * 10000.0
      && !PassesThreshold(rule, 7, 10000)
  {
    SevenOfTenThousand();
    PassesSevenHundred();
    hide PercentOf, Numbers.Value;
  }

  lemma PassesSevenHundred()
    ensures PercentOf(Numbers.Num(false, 0, "07", 0), 10000) > 700.0
  {
    SevenOfTenThousand();
    Doubles.SevenHundredths();
    Doubles.SevenHundred();
    hide Doubles.ToDouble, Numbers.Value;
    var percent: Numbers.Finite := Numbers.Num(false, 0, "07", 0);
    assert PercentDouble(percent) == 1261007895663739.0 / 18014398509481984.0;
    assert PercentOf(percent, 10000) == 6157265115545601.0 / 8796093022208.0;
  }

  lemma SevenOfTenThousand()
    ensures Numbers.Value(Numbers.Num(false, 0, "07", 0)) == 0.07
  {
    assert "07"[..1] == "0" && "0"[..0] == "" && Numbers.DigitVal('7') == 7 && Numbers.DigitVal('0') == 0;
    assert Numbers.NatOf("0") == 0;
    assert Numbers.NatOf("07") == 7;
    assert Numbers.Pow10(2) == 10.0 * Numbers.Pow10(1) == 100.0;
  }

  // ---- single choice under the majority rule ------------------------------------------------

  predicate ValidSingle(ps: seq<Payload>) { forall p | p in ps :: p.Single? || p.Abstain? }

  lemma TwoOptionsShareBase(ps: seq<Payload>, n: nat, a: int, b: int)
    requires ValidSingle(ps) && a != b
    ensures Sum(ps, Points(SingleChoice, a, n)) + Sum(ps, Points(SingleChoice, b, n)) <= |ps| - Sum(ps, Abstentions())
  {
    var ones, voting := (p: Payload) => 1, (p: Payload) => if p.Abstain? then 0 else 1;
    SumPairMonotone(ps, Points(SingleChoice, a, n), Points(SingleChoice, b, n), voting);
    SumPairMonotone(ps, voting, Abstentions(), ones);
    SumBounds(ps, ones, 1);
  }

  /** An option above all others is alone at the top. */
  lemma StrictLeader(s: seq<int>, o: int)
    requires 0 <= o < |s| && s[o] > 0 && forall i | 0 <= i < |s| && i != o :: s[i] < s[o]
    ensures MaxScore(s) == s[o] && TiedAt(s, MaxScore(s)) == [o]
  {
    var max := MaxScore(s);
    assert s[o] <= max;
    var i :| 0 <= i < |s| && s[i] == max;
    var tied := TiedAt(s, max);
    assert o in tied;
    forall k | 0 <= k < |tied| ensures tied[k] == o { assert tied[k] in tied; }
    SoleTied(tied, o);
  }

  lemma SoleTied(tied: seq<int>, o: int)
    requires o in tied && forall i, j | 0 <= i < j < |tied| :: tied[i] < tied[j]
    requires forall k | 0 <= k < |tied| :: tied[k] == o
    ensures tied == [o]
  {
    assert tied[0] == o && tied[|tied| - 1] == o;
  }

  /** Under the majority rule a unanimous top decides alone; otherwise only the seed can carry. */
  lemma MajorityRule(t: Tally, rule: Rule, denominator: int)
    requires t.scheme != RankedVote && rule.threshold.Majority? && QuorumMet(t, rule, denominator)
    requires var base := t.totalCast - t.abstain; forall i | 0 <= i < |t.optionScores| :: t.optionScores[i] <= base
    ensures var v, s, base := VerdictOf(t, rule, denominator), t.optionScores, t.totalCast - t.abstain;
      v.outcome == Carried <==>
        if TieAtTop(s) then rule.tieBreak == RandomSeed else MaxScore(s) > 0 && 2 * MaxScore(s) > base
    ensures var v, s, base := VerdictOf(t, rule, denominator), t.optionScores, t.totalCast - t.abstain;
      forall o | |s| > o >= 0 && TiedAt(s, MaxScore(s)) == [o] && s[o] == MaxScore(s) > 0 && 2 * s[o] > base ::
        v.outcome == Carried && v.winner == Some(o)
  {
    hide MaxScore, TiedAt, SeedHash;
    TieAtTopIff(t.optionScores);
  }

  /**
   * With one choice per ballot, the majority rule and a met quorum: an option backed by more than
   * half of the non-abstaining ballots carries. Something carries without such backing exactly
   * when the seed breaks a tie at the top.
   */
  lemma MajorityCarriesIff(ps: seq<Payload>, n: nat, rule: Rule)
    requires ValidSingle(ps) && rule.threshold.Majority?
    requires QuorumMet(TallyOf(SingleChoice, ps, n), rule, |ps|)
    ensures var t := TallyOf(SingleChoice, ps, n);
      var v, s, base := VerdictOf(t, rule, |ps|), t.optionScores, t.totalCast - t.abstain;
      && (forall o | 0 <= o < n && 2 * s[o] > base :: v.outcome == Carried && v.winner == Some(o))
      && (v.outcome == Carried && !(exists o :: 0 <= o < n && 2 * s[o] > base)
          <==> TieAtTop(s) && rule.tieBreak == RandomSeed)
  {
    var t := TallyOf(SingleChoice, ps, n);
    var s, base := t.optionScores, t.totalCast - t.abstain;
    SinglesBelowBase(ps, n);
    forall o | 0 <= o < n && 2 * s[o] > base
      ensures MaxScore(s) == s[o] > 0 && TiedAt(s, MaxScore(s)) == [o] && !TieAtTop(s) {
      forall i | 0 <= i < n && i != o ensures s[i] < s[o] { TwoOptionsShareBase(ps, n, i, o); }
      StrictLeader(s, o);
      TieAtTopIff(s);
    }
    hide Sum, Points, Abstentions, Scores, VerdictOf, TiedAt, MaxScore;
    MajorityRule(t, rule, |ps|);
    if !(exists o :: 0 <= o < n && 2 * s[o] > base) { MaxIsAScore(s, base); }
  }

  lemma MaxIsAScore(s: seq<int>, base: int)
    requires forall o | 0 <= o < |s| :: 2 * s[o] <= base
    ensures MaxScore(s) > 0 ==> 2 * MaxScore(s) <= base
  {
  }

  lemma SinglesBelowBase(ps: seq<Payload>, n: nat)
    requires ValidSingle(ps)
    ensures forall o :: 0 <= Sum(ps, Points(SingleChoice, o, n)) <= |ps| - Sum(ps, Abstentions())
  {
    forall o ensures 0 <= Sum(ps, Points(SingleChoice, o, n)) <= |ps| - Sum(ps, Abstentions()) {
      SumBounds(ps, Points(SingleChoice, o, n), 1);
      TwoOptionsShareBase(ps, n, o, o + 1);
      SumBounds(ps, Points(SingleChoice, o + 1, n), 1);
    }
  }

  // ---- ranked decisions by plurality ----------------------------------------------------------

  lemma {:induction false} RankedWithinBase(ps: seq<Payload>)
    ensures |Rankings(ps)| + Sum(ps, Abstentions()) <= |ps|
  {
    if ps != [] { RankedWithinBase(ps[..|ps| - 1]); }
  }

  /** A ranked decision by plurality, with its quorum met, carries exactly when some ballot ranks an option. */
  lemma RankedPluralityCarriesIff(ps: seq<Payload>, n: int, rule: Rule)
    requires n >= 1 && rule.threshold.Plurality?
    requires QuorumMet(TallyOf(RankedVote, ps, n), rule, |ps|)
    ensures VerdictOf(TallyOf(RankedVote, ps, n), rule, |ps|).outcome == Carried <==> SomeoneRanks(Rankings(ps), n)
  {
    hide *;
    var bs := Rankings(ps);
    RankedWithinBase(ps);
    RankedTally(ps, n);
    if bs != [] { LastScoreIff(bs, n); }
    RankedPluralityByRounds(TallyOf(RankedVote, ps, n), rule, |ps|);
  }

  lemma RankedTally(ps: seq<Payload>, n: int)
    ensures var bs, t := Rankings(ps), TallyOf(RankedVote, ps, n);
      && t.scheme == RankedVote && t.irv == Some(RunIrv(bs, n))
      && t.totalCast == |ps| && t.abstain == Sum(ps, Abstentions())
      && (bs == [] ==> RunIrv(bs, n).winner.None? && !SomeoneRanks(bs, n))
  {
  }

  /** By plurality the winner's last count decides. */
  lemma RankedPluralityByRounds(t: Tally, rule: Rule, denominator: int)
    requires t.scheme == RankedVote && t.irv.Some? && rule.threshold.Plurality? && QuorumMet(t, rule, denominator)
    requires var r := t.irv.value;
      r.winner.Some? ==> r.rounds != [] && 0 <= r.winner.value < |r.rounds[|r.rounds| - 1].counts|
    ensures VerdictOf(t, rule, denominator).outcome == Carried
       <==> var r := t.irv.value;
            && t.totalCast > t.abstain && r.winner.Some?
            && (r.rounds != [] && 0 <= r.winner.value < |r.rounds[|r.rounds| - 1].counts|
                ==> r.rounds[|r.rounds| - 1].counts[r.winner.value] > 0)
  {
  }

  /** The winner's last count is positive exactly when some ballot ranks an option. */
  lemma LastScoreIff(bs: seq<Ranking>, n: int)
    requires n >= 1 && bs != []
    ensures var r := RunIrv(bs, n);
      && r.winner.Some? && r.rounds != []
      && var counts := r.rounds[|r.rounds| - 1].counts;
         0 <= r.winner.value < |counts| && (counts[r.winner.value] > 0 <==> SomeoneRanks(bs, n))
  {
    hide *;
    RunFromNothing(bs, n);
    SurvivalIff(bs, n);
    SurvivalByCounts(RunIrv(bs, n));
    ContinuingNonNegative(bs, n, {});
  }

  lemma RunFromNothing(bs: seq<Ranking>, n: int)
    requires n >= 1 && bs != []
    ensures {} < Options(n) && RunIrv(bs, n) == IrvFrom(bs, n, {})
    ensures var r := RunIrv(bs, n); 0 <= r.winner.value < |r.rounds[|r.rounds| - 1].counts|
  {
    hide *;
    OptionsIff(n, 0);
    RunStarts(bs, n, 0);
    WinnerInRace(bs, n, {});
    OptionsIff(n, IrvFrom(bs, n, {}).winner.value);
  }

  lemma SurvivalByCounts(r: IrvResult)
    requires r.rounds != [] && r.winner.Some?
    ensures var last := r.rounds[|r.rounds| - 1];
      0 <= r.winner.value < |last.counts| ==>
        (EndsBySurvival(r) <==> 2 * last.counts[r.winner.value] <= last.continuingBallots)
  {
  }

  lemma {:induction false} ContinuingNonNegative(bs: seq<Ranking>, n: nat, out: set<int>)
    requires out < Options(n)
    ensures var r := IrvFrom(bs, n, out).rounds; r[|r| - 1].continuingBallots >= 0
    decreases Options(n) - out
  {
    hide *;
    PicksAtMostActive(bs, n, out, 0);
    var end := Turn(bs, n, out);
    if end.Drops? {
      var first := Round(Counts(bs, n, out), Sum(bs, Active(n, out)), None, Some(end.option));
      EndsAlike(first, IrvFrom(bs, n, out + {end.option}));
      ContinuingNonNegative(bs, n, out + {end.option});
    }
  }
}
