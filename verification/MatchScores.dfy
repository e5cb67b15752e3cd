/** The scores of `compute_match` in `app/agents/candidate_job_matcher.py`, in exact
    arithmetic: points are counted in halves, rounding is to even as in Python. */
module MatchScores {
  import opened MatchModel

  /** `round(num / den)` for a nonnegative fraction. */
  function RoundHalfEven(num: nat, den: nat): nat
    requires den > 0
  {
    var q, r := num / den, num % den;
    if 2 * r < den || (2 * r == den && q % 2 == 0) then q else q + 1
  }

  /** `_MATCH_POINTS` in half points. */
  function HalfPoints(s: Status): nat {
    match s
    case MATCH => 2
    case PARTIAL => 1
    case MISSING => 0
    case UNKNOWN => 0
  }

  /** `_IMPORTANCE_WEIGHT` in halves. */
  function HalfWeight(i: Importance): nat {
    match i
    case REQUIRED => 6
    case PREFERRED => 2
    case UNSTATED => 1
  }

  function Of(requirements: seq<Requirement>, importance: Importance): (subset: seq<Requirement>)
    ensures |subset| <= |requirements|
  {
    if requirements == [] then []
    else
      var n := |requirements| - 1;
      Of(requirements[..n], importance)
      + (if requirements[n].importance == importance then [requirements[n]] else [])
  }

  function PointSum(requirements: seq<Requirement>): nat {
    if requirements == [] then 0
    else PointSum(requirements[..|requirements| - 1]) + HalfPoints(requirements[|requirements| - 1].status)
  }

  function WeightSum(requirements: seq<Requirement>): nat {
    if requirements == [] then 0
    else WeightSum(requirements[..|requirements| - 1]) + HalfWeight(requirements[|requirements| - 1].importance)
  }

  function WeightedSum(requirements: seq<Requirement>): nat {
    if requirements == [] then 0
    else
      var last := requirements[|requirements| - 1];
      WeightedSum(requirements[..|requirements| - 1]) + HalfWeight(last.importance) * HalfPoints(last.status)
  }

  const NEUTRAL := 50
  const TRIVIAL := 100

  /** The mean of the points as a percentage. */
  function MeanScore(subset: seq<Requirement>, empty: nat): nat {
    if subset == [] then empty else RoundHalfEven(50 * PointSum(subset), |subset|)
  }

  function RequiredScore(requirements: seq<Requirement>): nat {
    MeanScore(Of(requirements, REQUIRED), NEUTRAL)
  }

  function PreferredScore(requirements: seq<Requirement>): nat {
    MeanScore(Of(requirements, PREFERRED), TRIVIAL)
  }

  function CoverageScore(requirements: seq<Requirement>): nat {
    if requirements == [] then NEUTRAL
    else WeightsArePositive(requirements); RoundHalfEven(50 * WeightedSum(requirements), WeightSum(requirements))
  }

  lemma {:induction false} WeightsArePositive(requirements: seq<Requirement>)
    requires requirements != []
    ensures WeightSum(requirements) > 0
  {
    if |requirements| > 1 {
      WeightsArePositive(requirements[..|requirements| - 1]);
    }
  }

  /** The share of single required skills some relevant row backs, scaled by the
      points of a stated years-of-experience requirement. */
  function SupportScore(required: set<string>, backed: set<string>, experience: seq<Status>): nat {
    var base := if required == {} then NEUTRAL else RoundHalfEven(100 * |backed * required|, |required|);
    if experience == [] then base else RoundHalfEven(base * HalfPoints(experience[0]), 2)
  }

  function OverallScore(required: nat, preferred: nat, support: nat): nat {
    RoundHalfEven(3 * required + preferred + support, 5)
  }

  // ---------------------------------------------------------------- rounding

  /** The result is a nearest integer, the even one at a tie. */
  lemma RoundIsNearest(num: nat, den: nat)
    requires den > 0
    ensures var r := RoundHalfEven(num, den);
      && 0 <= 2 * (num - r * den) + den && 2 * (num - r * den) <= den
      && (2 * (num - r * den) == den || 2 * (num - r * den) + den == 0 ==> r % 2 == 0)
  {
    assert num == (num / den) * den + num % den;
    assert (num / den + 1) * den == (num / den) * den + den;
  }

  lemma RoundMonotone(a: nat, b: nat, den: nat)
    requires den > 0 && a <= b
    ensures RoundHalfEven(a, den) <= RoundHalfEven(b, den)
  {
    RoundIsNearest(a, den);
    RoundIsNearest(b, den);
    var x, y := RoundHalfEven(a, den), RoundHalfEven(b, den);
    if x > y {
      NextMultiple(y, x, den);
    }
  }

  lemma NextMultiple(y: nat, x: nat, den: nat)
    requires x > y && den > 0
    ensures x * den >= y * den + den
    ensures x * den == y * den + den ==> x == y + 1
  {
    MulMonotone(y + 1, x, den);
    assert (y + 1) * den == y * den + den;
    if x > y + 1 {
      MulMonotone(y + 2, x, den);
      assert (y + 2) * den == y * den + 2 * den;
    }
  }

  lemma {:induction false} MulMonotone(a: nat, b: nat, den: nat)
    requires a <= b
    ensures a * den <= b * den
  {
    if a < b {
      MulMonotone(a, b - 1, den);
      assert b * den == (b - 1) * den + den;
    }
  }

  lemma RoundBounded(num: nat, den: nat, limit: nat)
    requires den > 0 && num <= limit * den
    ensures RoundHalfEven(num, den) <= limit
  {
    RoundMonotone(num, limit * den, den);
    RoundExact(limit, den);
  }

  lemma RoundExact(n: nat, den: nat)
    requires den > 0
    ensures RoundHalfEven(n * den, den) == n
  {
    RoundIsNearest(n * den, den);
    var r := RoundHalfEven(n * den, den);
    if r > n {
      NextMultiple(n, r, den);
    } else if r < n {
      NextMultiple(r, n, den);
    }
  }

  // ---------------------------------------------------------------- bounds

  lemma {:induction false} PointsBounded(requirements: seq<Requirement>)
    ensures PointSum(requirements) <= 2 * |requirements|
    ensures WeightedSum(requirements) <= 2 * WeightSum(requirements)
    ensures PointSum(requirements) == 2 * |requirements| <==>
      forall k :: 0 <= k < |requirements| ==> requirements[k].status == MATCH
  {
    if requirements != [] {
      PointsBounded(requirements[..|requirements| - 1]);
    }
  }

  /** All five scores lie between 0 and 100. */
  lemma ScoresBounded(requirements: seq<Requirement>, required: set<string>, backed: set<string>, experience: seq<Status>)
    ensures RequiredScore(requirements) <= 100 && PreferredScore(requirements) <= 100
    ensures CoverageScore(requirements) <= 100
    ensures SupportScore(required, backed, experience) <= 100
    ensures OverallScore(RequiredScore(requirements), PreferredScore(requirements),
                         SupportScore(required, backed, experience)) <= 100
  {
    MeanBounded(Of(requirements, REQUIRED), NEUTRAL);
    MeanBounded(Of(requirements, PREFERRED), TRIVIAL);
    if requirements != [] {
      WeightsArePositive(requirements);
      PointsBounded(requirements);
      RoundBounded(50 * WeightedSum(requirements), WeightSum(requirements), 100);
    }
    SupportBounded(required, backed, experience);
    RoundBounded(3 * RequiredScore(requirements) + PreferredScore(requirements)
                 + SupportScore(required, backed, experience), 5, 100);
  }

  lemma MeanBounded(subset: seq<Requirement>, empty: nat)
    requires empty <= 100
    ensures MeanScore(subset, empty) <= 100
  {
    if subset != [] {
      PointsBounded(subset);
      RoundBounded(50 * PointSum(subset), |subset|, 100);
    }
  }

  lemma SupportBounded(required: set<string>, backed: set<string>, experience: seq<Status>)
    ensures SupportScore(required, backed, experience) <= 100
  {
    var base := if required == {} then NEUTRAL else RoundHalfEven(100 * |backed * required|, |required|);
    if required != {} {
      Smaller(backed * required, required);
      RoundBounded(100 * |backed * required|, |required|, 100);
    }
    if experience != [] {
      RoundBounded(base * HalfPoints(experience[0]), 2, 100);
    }
  }

  lemma Smaller(part: set<string>, whole: set<string>)
    requires part <= whole
    ensures |part| <= |whole|
  {
    assert whole == part + (whole - part);
  }

  /** The overall score is the nearest integer to the 60/20/20 blend; no tie is possible. */
  lemma OverallIsNearest(required: nat, preferred: nat, support: nat)
    ensures var blend, overall := 3 * required + preferred + support, OverallScore(required, preferred, support);
      -2 <= 5 * overall - blend <= 2
  {
    RoundIsNearest(3 * required + preferred + support, 5);
  }

  // ---------------------------------------------------------------- full marks

  /** Half points missing from full marks. */
  function Shortfall(subset: seq<Requirement>): nat {
    PointsBounded(subset);
    2 * |subset| - PointSum(subset)
  }

  /** The required score shows 100 exactly when at most one half point is missing
      per hundred required requirements. */
  lemma FullMarks(requirements: seq<Requirement>)
    requires Of(requirements, REQUIRED) != []
    ensures RequiredScore(requirements) == 100 <==>
      100 * Shortfall(Of(requirements, REQUIRED)) <= |Of(requirements, REQUIRED)|
  {
    var subset := Of(requirements, REQUIRED);
    PointsBounded(subset);
    RoundsToHundred(PointSum(subset), |subset|);
  }

  lemma RoundsToHundred(points: nat, n: nat)
    requires n > 0 && points <= 2 * n
    ensures RoundHalfEven(50 * points, n) == 100 <==> 100 * (2 * n - points) <= n
  {
    var r := RoundHalfEven(50 * points, n);
    RoundIsNearest(50 * points, n);
    if r < 100 {
      MulMonotone(r, 99, n);
      if r < 99 {
        MulMonotone(r, 98, n);
      }
    } else if r > 100 {
      MulMonotone(101, r, n);
    }
  }

  /** With 1 to 99 required requirements, 100 means that every one is a MATCH. */
  lemma FullMarksMeansAllMatch(requirements: seq<Requirement>)
    requires 1 <= |Of(requirements, REQUIRED)| <= 99
    ensures RequiredScore(requirements) == 100 <==>
      forall k :: 0 <= k < |Of(requirements, REQUIRED)| ==> Of(requirements, REQUIRED)[k].status == MATCH
  {
    FullMarks(requirements);
    PointsBounded(Of(requirements, REQUIRED));
  }

  /** A list of `n` required requirements, the last of them unevaluated. */
  function AllButOneMatch(n: nat): seq<Requirement> {
    if n == 0 then []
    else Matches(n - 1) + [Requirement("", "", OTHER, REQUIRED, UNKNOWN, [], [])]
  }

  function Matches(n: nat): (r: seq<Requirement>)
    ensures |r| == n
  {
    if n == 0 then [] else Matches(n - 1) + [Requirement("", "", SKILL, REQUIRED, MATCH, [], [])]
  }

  lemma {:induction false} MatchesPoints(n: nat)
    ensures PointSum(Matches(n)) == 2 * n && Of(Matches(n), REQUIRED) == Matches(n)
  {
    if n > 0 {
      var all, last := Matches(n), Requirement("", "", SKILL, REQUIRED, MATCH, [], []);
      MatchesPoints(n - 1);
      assert all[..n - 1] == Matches(n - 1) && all[n - 1] == last;
      hide Matches;
      assert PointSum(all) == PointSum(all[..n - 1]) + 2;
    }
  }

  /** Unevaluated required text does not always keep the score below 100. */
  lemma HundredDespiteUnknown()
    ensures RequiredScore(AllButOneMatch(200)) == 100
  {
    var n: nat := 200;
    var all := AllButOneMatch(n);
    MatchesPoints(n - 1);
    assert all[..|all| - 1] == Matches(n - 1);
    assert Of(all, REQUIRED) == all;
    FullMarks(all);
  }

  // ---------------------------------------------------------------- monotonicity

  predicate AtLeast(better: Status, worse: Status) {
    HalfPoints(worse) <= HalfPoints(better)
  }

  /** The same requirements, each with at least as many points. */
  ghost predicate Improved(before: seq<Requirement>, after: seq<Requirement>) {
    && |before| == |after|
    && forall k :: 0 <= k < |before| ==>
         after[k].importance == before[k].importance && AtLeast(after[k].status, before[k].status)
  }

  lemma {:induction false} ImprovedSums(before: seq<Requirement>, after: seq<Requirement>, importance: Importance)
    requires Improved(before, after)
    ensures Improved(Of(before, importance), Of(after, importance))
    ensures PointSum(before) <= PointSum(after)
    ensures WeightedSum(before) <= WeightedSum(after) && WeightSum(before) == WeightSum(after)
  {
    if before != [] {
      var n := |before| - 1;
      ImprovedSums(before[..n], after[..n], importance);
      MulMonotone(HalfPoints(before[n].status), HalfPoints(after[n].status), HalfWeight(before[n].importance));
    }
  }

  /** Better statuses never lower a score. */
  lemma ScoresMonotone(before: seq<Requirement>, after: seq<Requirement>, required: set<string>, backed: set<string>,
                       experience: seq<Status>)
    requires Improved(before, after)
    ensures RequiredScore(before) <= RequiredScore(after) && PreferredScore(before) <= PreferredScore(after)
    ensures CoverageScore(before) <= CoverageScore(after)
    ensures var support := SupportScore(required, backed, experience);
      OverallScore(RequiredScore(before), PreferredScore(before), support)
      <= OverallScore(RequiredScore(after), PreferredScore(after), support)
  {
    hide Of, PointSum, WeightSum, WeightedSum, RoundHalfEven, SupportScore, Improved, MeanScore;
    MeanMonotone(before, after, REQUIRED, NEUTRAL);
    MeanMonotone(before, after, PREFERRED, TRIVIAL);
    CoverageMonotone(before, after);
    var support := SupportScore(required, backed, experience);
    RoundMonotone(3 * RequiredScore(before) + PreferredScore(before) + support,
                  3 * RequiredScore(after) + PreferredScore(after) + support, 5);
  }

  lemma CoverageMonotone(before: seq<Requirement>, after: seq<Requirement>)
    requires Improved(before, after)
    ensures CoverageScore(before) <= CoverageScore(after)
  {
    hide PointSum, WeightSum, WeightedSum, RoundHalfEven, Of;
    if before != [] {
      ImprovedSums(before, after, REQUIRED);
      WeightsArePositive(before);
      RoundMonotone(50 * WeightedSum(before), 50 * WeightedSum(after), WeightSum(before));
    }
  }

  lemma MeanMonotone(before: seq<Requirement>, after: seq<Requirement>, importance: Importance, empty: nat)
    requires Improved(before, after)
    ensures MeanScore(Of(before, importance), empty) <= MeanScore(Of(after, importance), empty)
  {
    ImprovedSums(before, after, importance);
    var a, b := Of(before, importance), Of(after, importance);
    if a != [] {
      ImprovedSums(a, b, importance);
      RoundMonotone(50 * PointSum(a), 50 * PointSum(b), |a|);
    }
  }

  // ---------------------------------------------------------------- what the scores measure

  /** `r` is a nearest integer of `x`, the even one at a tie. */
  ghost predicate Nearest(x: real, r: int) {
    && -0.5 <= r as real - x <= 0.5
    && (r as real - x == 0.5 || x - r as real == 0.5 ==> r % 2 == 0)
  }

  lemma RoundIsNearestReal(num: nat, den: nat)
    requires den > 0
    ensures Nearest(num as real / den as real, RoundHalfEven(num, den))
  {
    RoundIsNearest(num, den);
    var r, x := RoundHalfEven(num, den), num as real / den as real;
    assert x * den as real == num as real;
    NearestByGap(x, r, den, 2 * (num - r * den));
  }

  lemma NearestByGap(x: real, r: int, den: int, gap: int)
    requires den > 0 && gap as real == 2.0 * (x * den as real - r as real * den as real)
    requires -den <= gap <= den && (gap == den || gap == -den ==> r % 2 == 0)
    ensures Nearest(x, r)
  {
    ScaledDistance(x, r as real, den as real);
    assert gap as real == den as real ==> gap == den;
    assert gap as real == -(den as real) ==> gap == -den;
  }

  lemma ScaledDistance(x: real, r: real, d: real)
    requires d > 0.0
    ensures -d <= 2.0 * (x * d - r * d) ==> -0.5 <= x - r
    ensures 2.0 * (x * d - r * d) <= d ==> x - r <= 0.5
    ensures x - r == 0.5 ==> 2.0 * (x * d - r * d) == d
    ensures r - x == 0.5 ==> 2.0 * (x * d - r * d) == -d
  {
    assert x * d - r * d == (x - r) * d;
  }

  /** Two fractions of one value. */
  lemma SameFraction(num: nat, den: nat, x: real, y: real)
    requires den > 0 && y > 0.0 && num as real * y == x * den as real
    ensures num as real / den as real == x / y
  {
  }

  /** How many of the requirements have this importance. */
  function Number(requirements: seq<Requirement>, importance: Importance): nat {
    |set k: nat | k < |requirements| && requirements[k].importance == importance|
  }

  lemma NumberStep(requirements: seq<Requirement>, importance: Importance)
    requires requirements != []
    ensures var n := |requirements| - 1;
      Number(requirements, importance)
      == Number(requirements[..n], importance) + (if requirements[n].importance == importance then 1 else 0)
  {
    var n := |requirements| - 1;
    var before := set k: nat | k < n && requirements[..n][k].importance == importance;
    var all := set k: nat | k < |requirements| && requirements[k].importance == importance;
    assert all == before + (if requirements[n].importance == importance then {n} else {});
  }
}
