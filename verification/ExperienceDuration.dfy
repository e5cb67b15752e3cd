/** How long the candidate has worked with a technology: the interval sweep and
    the duration rule of `app/agents/candidate_job_matcher.py`. */
module ExperienceDuration {
  import opened CandidateProfile
  import opened MatchModel
  import opened Sorting
  import opened Wrappers

  /** A dated period in day ordinals; the end day itself is not counted. */
  datatype Period = Period(start: int, end: int)

  // ---------------------------------------------------------------- the sweep

  /** The order of Python tuples. */
  predicate Before(a: Period, b: Period) {
    a.start < b.start || (a.start == b.start && a.end < b.end)
  }

  function Sort(periods: seq<Period>): seq<Period> {
    SortWith(Before, periods)
  }

  lemma SortFacts(periods: seq<Period>)
    ensures multiset(Sort(periods)) == multiset(periods) && OrderedWith(Before, Sort(periods))
  {
    assert WeakOrder(Before);
    SortWithFacts(Before, periods);
  }

  /** The days closed so far and the interval still open, if any. */
  datatype State = State(total: int, open: bool, start: int, end: int)

  function Step(state: State, p: Period): State {
    if !state.open || p.start > state.end
    then State(state.total + (if state.open then state.end - state.start else 0), true, p.start, p.end)
    else state.(end := if state.end < p.end then p.end else state.end)
  }

  function Sweep(s: seq<Period>): State {
    if s == [] then State(0, false, 0, 0) else Step(Sweep(s[..|s| - 1]), s[|s| - 1])
  }

  function Days(state: State): int {
    state.total + (if state.open then state.end - state.start else 0)
  }

  /** `_merged_days`, as a function. */
  function MergedDays(periods: seq<Period>): int {
    Days(Sweep(Sort(periods)))
  }

  /** `_merged_days`, as the loop the source runs. */
  method ComputeMergedDays(periods: seq<Period>) returns (days: int)
    ensures days == MergedDays(periods)
  {
    var s := Sort(periods);
    var total := 0;
    var open, start, end := false, 0, 0;
    for k := 0 to |s|
      invariant Sweep(s[..k]).total == total && Sweep(s[..k]).open == open
      invariant open ==> Sweep(s[..k]).start == start && Sweep(s[..k]).end == end
    {
      assert s[..k + 1][..k] == s[..k];
      if !open || s[k].start > end {
        if open {
          total := total + (end - start);
        }
        open, start, end := true, s[k].start, s[k].end;
      } else if end < s[k].end {
        end := s[k].end;
      }
    }
    assert s[..|s|] == s;
    if open {
      total := total + (end - start);
    }
    return total;
  }

  // ---------------------------------------------------------------- exactness

  predicate Within(d: int, a: int, b: int) {
    a <= d < b
  }

  function Interval(a: int, b: int): set<int> {
    set d | a <= d < b && Within(d, a, b)
  }

  /** The distinct days the periods cover. */
  function Covered(s: seq<Period>): set<int> {
    if s == [] then {} else Covered(s[..|s| - 1]) + Interval(s[|s| - 1].start, s[|s| - 1].end)
  }

  lemma {:induction false} CoveredMeaning(s: seq<Period>, d: int)
    ensures d in Covered(s) <==> exists k :: 0 <= k < |s| && Within(d, s[k].start, s[k].end)
  {
    if s != [] {
      var n := |s| - 1;
      CoveredMeaning(s[..n], d);
      if d in Covered(s[..n]) {
        var k :| 0 <= k < n && Within(d, s[..n][k].start, s[..n][k].end);
        assert Within(d, s[k].start, s[k].end);
      }
      if exists k :: 0 <= k < |s| && Within(d, s[k].start, s[k].end) {
        var k :| 0 <= k < |s| && Within(d, s[k].start, s[k].end);
        if k < n {
          assert Within(d, s[..n][k].start, s[..n][k].end);
        }
      }
    }
  }

  lemma {:induction false} IntervalSize(a: int, b: int)
    requires a <= b
    ensures |Interval(a, b)| == b - a
    decreases b - a
  {
    if a < b {
      IntervalSize(a, b - 1);
      assert Interval(a, b) == Interval(a, b - 1) + {b - 1};
    } else {
      assert Interval(a, b) == {};
    }
  }

  /** A period that ends before it starts and starts after everything before it
      has ended: the sweep counts it negatively. */
  predicate Offends(s: seq<Period>, k: nat)
    requires k < |s|
  {
    s[k].end < s[k].start && forall j :: 0 <= j < k ==> s[j].end < s[k].start
  }

  /** The days lost to offending periods. */
  function Lost(s: seq<Period>): int {
    if s == [] then 0
    else Lost(s[..|s| - 1]) + (if Offends(s, |s| - 1) then s[|s| - 1].start - s[|s| - 1].end else 0)
  }

  /** What the sweep knows after a nonempty sorted prefix. */
  ghost predicate Swept(s: seq<Period>, state: State) {
    && state.open
    && (exists j :: 0 <= j < |s| && s[j].start == state.start)
    && (exists j :: 0 <= j < |s| && s[j].end == state.end)
    && ((forall j :: 0 <= j < |s| ==> s[j].end <= state.end) || (forall j :: 0 <= j < |s| ==> s[j].end < state.start))
    && (forall d :: d in Covered(s) ==> d < state.start || d < state.end)
    && (forall d :: Within(d, state.start, state.end) ==> d in Covered(s))
    && |Covered(s)| - Lost(s) == Days(state)
  }

  lemma NewInterval(s: seq<Period>, p: Period, state: State)
    requires s != [] ==> Swept(s, state) && state.end < p.start
    requires s == [] ==> state == State(0, false, 0, 0)
    requires forall j :: 0 <= j < |s| ==> s[j].start <= p.start
    ensures |Covered(s + [p])| - Lost(s + [p]) == Days(Step(state, p))
    ensures forall j :: 0 <= j < |s| ==> s[j].end < p.start
    ensures Covered(s + [p]) == Covered(s) + Interval(p.start, p.end)
    ensures s == [] ==> Covered(s) == {}
  {
    hide Covered, Lost, Interval;
    CoveredGrows(s, p);
    LostGrows(s, p);
    InInterval(p.start, p.end);
    IntervalLength(p.start, p.end);
    if s != [] {
      assert forall d :: d in Covered(s) ==> d < p.start;
    } else {
      assert Covered(s) == Covered([]);
    }
    DisjointSum(Covered(s), Interval(p.start, p.end), p.start);
  }

  lemma DisjointSum(low: set<int>, high: set<int>, bound: int)
    requires (forall d :: d in low ==> d < bound) && (forall d :: d in high ==> bound <= d)
    ensures |low + high| == |low| + |high|
  {
    assert forall d :: d in low ==> d !in high;
    assert low !! high;
  }

  lemma CoveredGrows(s: seq<Period>, p: Period)
    ensures Covered(s + [p]) == Covered(s) + Interval(p.start, p.end) && Covered([]) == {} && Lost([]) == 0
  {
    assert (s + [p])[..|s|] == s;
  }

  lemma LostGrows(s: seq<Period>, p: Period)
    ensures Lost(s + [p]) == Lost(s) +
      (if p.end < p.start && (forall j :: 0 <= j < |s| ==> s[j].end < p.start) then p.start - p.end else 0)
  {
    var t := s + [p];
    assert t[..|s|] == s && t[|s|] == p;
    assert forall j :: 0 <= j < |s| ==> t[j] == s[j];
  }

  lemma IntervalLength(a: int, b: int)
    ensures |Interval(a, b)| == if a <= b then b - a else 0
  {
    if a <= b {
      IntervalSize(a, b);
    } else {
      assert Interval(a, b) == {};
    }
  }

  lemma NewIntervalSwept(s: seq<Period>, p: Period, state: State)
    requires s != [] ==> Swept(s, state) && state.end < p.start
    requires s == [] ==> state == State(0, false, 0, 0)
    requires forall j :: 0 <= j < |s| ==> s[j].start <= p.start
    ensures Swept(s + [p], Step(state, p))
  {
    hide Covered, Lost, Interval;
    var t := s + [p];
    NewInterval(s, p, state);
    InInterval(p.start, p.end);
    assert t[|s|].start == p.start && t[|s|].end == p.end;
    assert forall j :: 0 <= j < |s| ==> t[j] == s[j];
  }

  lemma Extended(s: seq<Period>, p: Period, state: State)
    requires s != [] && Swept(s, state) && p.start <= state.end
    requires forall j :: 0 <= j < |s| ==> s[j].start <= p.start
    ensures Covered(s + [p]) == Covered(s) + Interval(state.end, p.end)
    ensures |Covered(s + [p])| == |Covered(s)| + (if state.end < p.end then p.end - state.end else 0)
    ensures Lost(s + [p]) == Lost(s)
  {
    var t := s + [p];
    assert t[..|s|] == s && t[|s|] == p;
    forall d | d in Interval(p.start, p.end) ensures d in Covered(s) + Interval(state.end, p.end) {
      if d < state.end {
        assert Within(d, state.start, state.end);
      } else {
        assert Within(d, state.end, p.end);
      }
    }
    forall d | d in Interval(state.end, p.end) ensures d in Interval(p.start, p.end) && d !in Covered(s) {
      assert Within(d, p.start, p.end);
    }
    if state.end < p.end {
      IntervalSize(state.end, p.end);
    } else {
      assert Interval(state.end, p.end) == {};
    }
    var j :| 0 <= j < |s| && s[j].end == state.end;
    assert t[j] == s[j];
  }

  lemma ExtendedSwept(s: seq<Period>, p: Period, state: State)
    requires s != [] && Swept(s, state) && p.start <= state.end
    requires forall j :: 0 <= j < |s| ==> s[j].start <= p.start
    ensures Swept(s + [p], Step(state, p))
  {
    hide Covered, Lost, Interval;
    var t, after := s + [p], Step(state, p);
    Extended(s, p, state);
    assert forall j :: 0 <= j < |s| ==> t[j] == s[j];
    var i :| 0 <= i < |s| && s[i].start == state.start;
    var j :| 0 <= j < |s| && s[j].end == state.end;
    assert t[i].start == after.start && t[if state.end < p.end then |s| else j].end == after.end;
    InInterval(state.end, p.end);
  }

  lemma InInterval(a: int, b: int)
    ensures forall d :: d in Interval(a, b) <==> Within(d, a, b)
  {
  }

  lemma {:induction false} SweepIsSwept(s: seq<Period>)
    requires OrderedWith(Before, s) && s != []
    ensures Swept(s, Sweep(s))
  {
    var n := |s| - 1;
    var init, p := s[..n], s[n];
    assert s == init + [p];
    assert forall j :: 0 <= j < n ==> !Before(s[n], s[j]);
    if n > 0 {
      SweepIsSwept(init);
    }
    if n == 0 || Sweep(init).end < p.start {
      NewIntervalSwept(init, p, Sweep(init));
    } else {
      ExtendedSwept(init, p, Sweep(init));
    }
  }

  lemma {:induction false} LostBounds(s: seq<Period>)
    ensures Lost(s) >= 0
    ensures Lost(s) == 0 <==> forall k :: 0 <= k < |s| ==> !Offends(s, k)
  {
    if s != [] {
      var n := |s| - 1;
      LostBounds(s[..n]);
      assert forall k :: 0 <= k < n ==> (Offends(s, k) <==> Offends(s[..n], k)) by {
        forall k | 0 <= k < n ensures Offends(s, k) <==> Offends(s[..n], k) {
          assert forall j :: 0 <= j <= k ==> s[..n][j] == s[j];
        }
      }
    }
  }

  lemma {:induction false} CoveredOfPermutation(a: seq<Period>, b: seq<Period>)
    requires multiset(a) == multiset(b)
    ensures Covered(a) == Covered(b)
  {
    forall d ensures d in Covered(a) <==> d in Covered(b) {
      CoveredMeaning(a, d);
      CoveredMeaning(b, d);
      if exists k :: 0 <= k < |a| && Within(d, a[k].start, a[k].end) {
        var k :| 0 <= k < |a| && Within(d, a[k].start, a[k].end);
        assert a[k] in multiset(b);
        var m :| 0 <= m < |b| && b[m] == a[k];
        assert Within(d, b[m].start, b[m].end);
      }
      if exists k :: 0 <= k < |b| && Within(d, b[k].start, b[k].end) {
        var k :| 0 <= k < |b| && Within(d, b[k].start, b[k].end);
        assert b[k] in multiset(a);
        var m :| 0 <= m < |a| && a[m] == b[k];
        assert Within(d, a[m].start, a[m].end);
      }
    }
  }

  /** The sweep never counts too much, and it counts exactly the distinct days
      unless some period ends before it starts after all earlier ones ended. */
  lemma MergedDaysExact(periods: seq<Period>)
    ensures MergedDays(periods) <= |Covered(periods)|
    ensures MergedDays(periods) == |Covered(periods)| <==>
      forall k :: 0 <= k < |Sort(periods)| ==> !Offends(Sort(periods), k)
  {
    var s := Sort(periods);
    SortFacts(periods);
    LostBounds(s);
    CoveredOfPermutation(s, periods);
    if s != [] {
      SweepIsSwept(s);
    }
  }

  /** Periods that do not end before they start are always counted exactly. */
  lemma MergedDaysOfRealPeriods(periods: seq<Period>)
    requires forall k :: 0 <= k < |periods| ==> periods[k].start <= periods[k].end
    ensures MergedDays(periods) == |Covered(periods)|
  {
    var s := Sort(periods);
    SortFacts(periods);
    forall k | 0 <= k < |s| ensures !Offends(s, k) {
      assert s[k] in multiset(periods);
      var m :| 0 <= m < |periods| && periods[m] == s[k];
    }
    MergedDaysExact(periods);
  }

  /** A current job that starts after the reference day makes the sweep lose days. */
  lemma FutureStartLosesDays()
    ensures MergedDays([Period(0, 10), Period(15, 12)]) == 7
    ensures |Covered([Period(0, 10), Period(15, 12)])| == 10
  {
    var a, b := Period(0, 10), Period(15, 12);
    assert [a, b][..1] == [a] && [a][..0] == [];
    assert InsertWith(Before, a, []) == [a] && InsertWith(Before, b, []) == [b];
    assert !Before(b, a) && InsertWith(Before, b, [a]) == [a, b];
    assert Sort([a, b]) == InsertWith(Before, b, SortWith(Before, [a]));
    assert Sweep([a]) == State(0, true, 0, 10);
    assert Sweep([a, b]) == State(10, true, 15, 12);
    IntervalSize(0, 10);
    assert Interval(15, 12) == {};
    assert Covered([a]) == Interval(0, 10) && Covered([a, b]) == Interval(0, 10);
  }

  // ---------------------------------------------------------------- the duration rule

  predicate Dated(row: Experience) {
    row.startDate.Some? && (row.endDate.Some? || row.isCurrent)
  }

  predicate AllDated(rows: seq<Experience>) {
    forall k :: 0 <= k < |rows| ==> Dated(rows[k])
  }

  /** An open period ends on the reference day. */
  function PeriodOf(row: Experience, asOf: int): Period
    requires Dated(row)
  {
    Period(row.startDate.value, if row.endDate.Some? then row.endDate.value else asOf)
  }

  function Periods(rows: seq<Experience>, asOf: int): (periods: seq<Period>)
    requires AllDated(rows)
    ensures |periods| == |rows| && forall k :: 0 <= k < |rows| ==> periods[k] == PeriodOf(rows[k], asOf)
  {
    seq(|rows|, k requires 0 <= k < |rows| => PeriodOf(rows[k], asOf))
  }

  const DAYS_PER_YEAR := 365

  /** One alternative reaches the years on its own. */
  predicate Reaches(rows: seq<Experience>, years: int, asOf: int) {
    rows != [] && AllDated(rows) && MergedDays(Periods(rows, asOf)) >= years * DAYS_PER_YEAR
  }

  predicate Undated(rows: seq<Experience>) {
    rows != [] && !AllDated(rows)
  }

  /** `_duration_status` */
  function DurationStatus(alternatives: seq<seq<Experience>>, years: int, asOf: int): Status {
    if exists k :: 0 <= k < |alternatives| && Reaches(alternatives[k], years, asOf) then MATCH
    else if exists k :: 0 <= k < |alternatives| && Undated(alternatives[k]) then UNKNOWN
    else PARTIAL
  }

  /** `_duration_status`, as the loop the source runs. */
  method ComputeDurationStatus(alternatives: seq<seq<Experience>>, years: int, asOf: int) returns (status: Status)
    ensures status == DurationStatus(alternatives, years, asOf)
  {
    var undated := false;
    for k := 0 to |alternatives|
      invariant forall j :: 0 <= j < k ==> !Reaches(alternatives[j], years, asOf)
      invariant undated <==> exists j :: 0 <= j < k && Undated(alternatives[j])
    {
      var rows := alternatives[k];
      if rows != [] {
        if !AllDated(rows) {
          undated := true;
          assert Undated(alternatives[k]);
        } else {
          var days := ComputeMergedDays(Periods(rows, asOf));
          if days >= years * DAYS_PER_YEAR {
            assert Reaches(alternatives[k], years, asOf);
            return MATCH;
          }
        }
      }
    }
    return if undated then UNKNOWN else PARTIAL;
  }

  /** MATCH: one alternative's own dated rows cover the years in distinct days. */
  lemma MatchIsCovered(alternatives: seq<seq<Experience>>, years: int, asOf: int)
    requires DurationStatus(alternatives, years, asOf) == MATCH
    ensures exists k :: 0 <= k < |alternatives| && CoversYears(alternatives[k], years, asOf)
  {
    hide MergedDays, Covered, CoversYears;
    var k :| 0 <= k < |alternatives| && Reaches(alternatives[k], years, asOf);
    MergedDaysExact(Periods(alternatives[k], asOf));
    CoversMeaning(alternatives[k], years, asOf);
    assert CoversYears(alternatives[k], years, asOf);
  }

  /** The day is a day of the job: from its start, before its end, or, while it is
      current, before the reference day. */
  predicate WorkedOn(row: Experience, d: int, asOf: int) {
    && row.startDate.Some? && row.startDate.value <= d
    && if row.endDate.Some? then d < row.endDate.value else row.isCurrent && d < asOf
  }

  /** Both ends of the job are known. */
  predicate EndsKnown(row: Experience) {
    row.startDate.Some? && (row.endDate.Some? || row.isCurrent)
  }

  ghost predicate SomeWorked(rows: seq<Experience>, d: int, asOf: int) {
    exists k :: 0 <= k < |rows| && WorkedOn(rows[k], d, asOf)
  }

  /** The rows, all of them dated, hold so many years of distinct working days, at 365 a year. */
  ghost predicate CoversYears(rows: seq<Experience>, years: int, asOf: int) {
    && rows != [] && (forall k :: 0 <= k < |rows| ==> EndsKnown(rows[k]))
    && exists days: set<int> :: |days| >= 365 * years && AllWorked(rows, days, asOf)
  }

  ghost predicate AllWorked(rows: seq<Experience>, days: set<int>, asOf: int) {
    forall d :: d in days ==> SomeWorked(rows, d, asOf)
  }

  lemma WorkedMeaning(rows: seq<Experience>, d: int, asOf: int)
    requires AllDated(rows)
    ensures d in Covered(Periods(rows, asOf)) <==> SomeWorked(rows, d, asOf)
  {
    hide Covered;
    var periods := Periods(rows, asOf);
    CoveredMeaning(periods, d);
    forall k | 0 <= k < |rows| ensures Within(d, periods[k].start, periods[k].end) <==> WorkedOn(rows[k], d, asOf) {
      assert Dated(rows[k]);
    }
    if SomeWorked(rows, d, asOf) {
      var k :| 0 <= k < |rows| && WorkedOn(rows[k], d, asOf);
      assert Within(d, periods[k].start, periods[k].end);
    }
  }

  lemma CoversMeaning(rows: seq<Experience>, years: int, asOf: int)
    ensures CoversYears(rows, years, asOf) <==>
      rows != [] && AllDated(rows) && |Covered(Periods(rows, asOf))| >= 365 * years
  {
    hide Covered, SomeWorked;
    if AllDated(rows) {
      var covered := Covered(Periods(rows, asOf));
      forall d: int ensures d in covered <==> SomeWorked(rows, d, asOf) {
        WorkedMeaning(rows, d, asOf);
      }
      assert AllWorked(rows, covered, asOf);
      if CoversYears(rows, years, asOf) {
        var days: set<int> :| |days| >= 365 * years && AllWorked(rows, days, asOf);
        forall d | d in days ensures d in covered {
          assert SomeWorked(rows, d, asOf);
        }
        SmallerSubset(days, covered);
      }
    } else {
      var k :| 0 <= k < |rows| && !Dated(rows[k]);
      assert !EndsKnown(rows[k]);
    }
  }

  lemma SmallerSubset(a: set<int>, b: set<int>)
    requires a <= b
    ensures |a| <= |b|
  {
    assert b == a + (b - a);
  }

  /** No period ends before it starts: no current job starts after the reference day. */
  predicate RealPeriods(rows: seq<Experience>, asOf: int) {
    forall k :: 0 <= k < |rows| && Dated(rows[k]) ==> PeriodOf(rows[k], asOf).start <= PeriodOf(rows[k], asOf).end
  }

  lemma MatchIffCovered(alternatives: seq<seq<Experience>>, years: int, asOf: int)
    requires forall k :: 0 <= k < |alternatives| ==> RealPeriods(alternatives[k], asOf)
    ensures DurationStatus(alternatives, years, asOf) == MATCH
      <==> exists k :: 0 <= k < |alternatives| && CoversYears(alternatives[k], years, asOf)
  {
    hide MergedDays, Covered, CoversYears;
    forall k | 0 <= k < |alternatives|
      ensures Reaches(alternatives[k], years, asOf) <==> CoversYears(alternatives[k], years, asOf)
    {
      ReachesMeaning(alternatives[k], years, asOf);
    }
  }

  lemma ReachesMeaning(rows: seq<Experience>, years: int, asOf: int)
    requires RealPeriods(rows, asOf)
    ensures Reaches(rows, years, asOf) <==> CoversYears(rows, years, asOf)
  {
    hide MergedDays, Covered, CoversYears;
    CoversMeaning(rows, years, asOf);
    if AllDated(rows) {
      MergedDaysOfRealPeriods(Periods(rows, asOf));
    }
  }

  /** Some row with an open end or start. */
  ghost predicate SomeUndated(rows: seq<Experience>) {
    exists k :: 0 <= k < |rows| && !EndsKnown(rows[k])
  }

  /** MATCH when one alternative covers the years on its own, otherwise UNKNOWN when one
      has a row without dates, otherwise PARTIAL. */
  lemma DurationMeaning(alternatives: seq<seq<Experience>>, years: int, asOf: int)
    requires forall k :: 0 <= k < |alternatives| ==> RealPeriods(alternatives[k], asOf)
    ensures DurationStatus(alternatives, years, asOf) ==
      if exists k :: 0 <= k < |alternatives| && CoversYears(alternatives[k], years, asOf) then MATCH
      else if exists k :: 0 <= k < |alternatives| && SomeUndated(alternatives[k]) then UNKNOWN
      else PARTIAL
  {
    hide Reaches, CoversYears;
    MatchIffCovered(alternatives, years, asOf);
    forall k | 0 <= k < |alternatives| ensures Undated(alternatives[k]) <==> SomeUndated(alternatives[k]) {
      UndatedMeaning(alternatives[k]);
    }
  }

  lemma UndatedMeaning(rows: seq<Experience>)
    ensures Undated(rows) <==> SomeUndated(rows)
  {
    if !AllDated(rows) {
      var k :| 0 <= k < |rows| && !Dated(rows[k]);
      assert !EndsKnown(rows[k]);
    }
    if SomeUndated(rows) {
      var k :| 0 <= k < |rows| && !EndsKnown(rows[k]);
      assert !Dated(rows[k]);
    }
  }
}
