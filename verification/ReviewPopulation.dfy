/** The review export of `scripts/offline_rescore_stage12.py`: which previewed
    jobs a human must look at, and what an approved review then guarantees. */
module ReviewPopulation {
  import opened Decimal
  import opened Permutations
  import opened PythonText
  import opened ReviewGate
  import opened Sequences
  import opened Sorting
  import opened Wrappers
  import Preview = ReviewProvenance
  import Rescore = RescoreApply

  const HIGH_SCORE_SKIP_THRESHOLD := 60
  const SKIP_SAMPLE_SIZE := 20

  /** What the export shows besides inputs and outcome: `ReviewEvidence` and two skill lists. */
  datatype Explanation = Explanation(
    matchedSkills: seq<string>, missingMustHave: seq<string>, baseScore: Option<int>, baseRecommendation: string,
    resolvedMustHave: seq<string>, resolvedNiceToHave: seq<string>, matchedMustHave: seq<string>,
    matchedOptional: seq<string>, uniqueEvidence: int, cardinality: string, roleRelevance: string, seniority: string,
    posting: string, gateTrace: seq<string>)

  datatype Item = Item(job: Preview.Previewed, shown: Explanation)

  function ItemId(x: Item): int { x.job.id }

  function ItemFingerprint(x: Item): string { x.job.before.fingerprint }

  // ---------------------------------------------------------------- the selection

  predicate IsApply(x: Item) { x.job.after.recommendation == "APPLY" }
  predicate IsMaybe(x: Item) { x.job.after.recommendation == "MAYBE" }
  predicate IsSkip(x: Item) { x.job.after.recommendation == "SKIP" }
  predicate IsHigh(x: Item) { x.job.after.score >= HIGH_SCORE_SKIP_THRESHOLD }

  /** Outcomes nobody may persist unreviewed. */
  predicate NeedsReview(after: Rescore.Outcome) {
    || after.recommendation == "APPLY" || after.recommendation == "MAYBE"
    || (after.recommendation == "SKIP" && after.score >= HIGH_SCORE_SKIP_THRESHOLD)
  }

  predicate MustReview(x: Item) { NeedsReview(x.job.after) }

  function HighSkips(results: seq<Item>): seq<Item> {
    Filter(IsHigh, Filter(IsSkip, results))
  }

  function HighIds(results: seq<Item>): set<int> {
    set x | x in HighSkips(results) :: ItemId(x)
  }

  /** The skipped jobs whose id is none of the high-score ones. */
  function RemainingSkips(results: seq<Item>): seq<Item> {
    var high := HighIds(results);
    Filter((x: Item) => ItemId(x) !in high, Filter(IsSkip, results))
  }

  /** `random.Random(seed).sample`: distinct positions, any of them. */
  type Draw = (int, nat, nat) -> seq<nat>

  predicate Positions(ps: seq<nat>, n: nat, k: nat) {
    |ps| == k && NoRepeats(ps) && forall i :: 0 <= i < |ps| ==> ps[i] < n
  }

  ghost predicate Samples(draw: Draw) {
    forall seed, n: nat, k: nat :: k <= n ==> Positions(draw(seed, n, k), n, k)
  }

  function SampleSize(n: nat): (k: nat)
    ensures k <= n && k <= SKIP_SAMPLE_SIZE && (k == n || k == SKIP_SAMPLE_SIZE)
  {
    if n < SKIP_SAMPLE_SIZE then n else SKIP_SAMPLE_SIZE
  }

  function At(items: seq<Item>, ps: seq<nat>): (chosen: seq<Item>)
    requires forall i :: 0 <= i < |ps| ==> ps[i] < |items|
    ensures |chosen| == |ps| && forall i :: 0 <= i < |ps| ==> chosen[i] == items[ps[i]]
  {
    seq(|ps|, i requires 0 <= i < |ps| => items[ps[i]])
  }

  function SampledSkips(draw: Draw, results: seq<Item>, seed: int): seq<Item>
    requires Samples(draw)
  {
    var rest := RemainingSkips(results);
    var k := SampleSize(|rest|);
    assert Positions(draw(seed, |rest|, k), |rest|, k);
    At(rest, draw(seed, |rest|, k))
  }

  function Grouped(draw: Draw, results: seq<Item>, seed: int): seq<Item>
    requires Samples(draw)
  {
    Filter(IsApply, results) + Filter(IsMaybe, results) + HighSkips(results) + SampledSkips(draw, results, seed)
  }

  /** The reviewed jobs, in ascending order of their ids. */
  function Selected(draw: Draw, results: seq<Item>, seed: int): seq<Item>
    requires Samples(draw)
  {
    SortBy(ItemId, Grouped(draw, results, seed))
  }

  lemma {:induction false} FilterDistinct<T>(key: T -> int, keep: T -> bool, items: seq<T>)
    requires DistinctKeys(key, items)
    ensures DistinctKeys(key, Filter(keep, items))
  {
    if items != [] {
      var n := |items| - 1;
      FilterDistinct(key, keep, items[..n]);
      var kept := Filter(keep, items[..n]);
      forall i | 0 <= i < |kept| ensures key(kept[i]) != key(items[n]) {
        FilterMember(keep, items[..n], kept[i]);
        assert kept[i] in items[..n];
      }
    }
  }

  lemma ConcatDistinct<T>(key: T -> int, a: seq<T>, b: seq<T>)
    requires DistinctKeys(key, a) && DistinctKeys(key, b)
    requires forall x, y :: x in a && y in b ==> key(x) != key(y)
    ensures DistinctKeys(key, a + b)
  {
    forall i, j | 0 <= i < j < |a + b| ensures key((a + b)[i]) != key((a + b)[j]) {
      if i < |a| <= j {
        assert a[i] in a && b[j - |a|] in b;
      }
    }
  }

  lemma SameKeySameItem<T>(key: T -> int, items: seq<T>, x: T, y: T)
    requires DistinctKeys(key, items) && x in items && y in items && key(x) == key(y)
    ensures x == y
  {
    var i :| 0 <= i < |items| && items[i] == x;
    var j :| 0 <= j < |items| && items[j] == y;
    assert !(i < j) && !(j < i);
  }

  lemma HighSkipMember(results: seq<Item>, x: Item)
    ensures x in HighSkips(results) <==> x in results && IsSkip(x) && IsHigh(x)
  {
    FilterMember(IsHigh, Filter(IsSkip, results), x);
    FilterMember(IsSkip, results, x);
  }

  /** With distinct ids, the remaining skips are those with a low score. */
  lemma RemainingMember(results: seq<Item>, x: Item)
    requires DistinctKeys(ItemId, results)
    ensures x in RemainingSkips(results) <==> x in results && IsSkip(x) && !IsHigh(x)
  {
    hide HighSkips;
    var high := HighIds(results);
    FilterMember((y: Item) => ItemId(y) !in high, Filter(IsSkip, results), x);
    FilterMember(IsSkip, results, x);
    HighSkipMember(results, x);
    if x in results && ItemId(x) in high {
      var y :| y in HighSkips(results) && ItemId(y) == ItemId(x);
      HighSkipMember(results, y);
      SameKeySameItem(ItemId, results, x, y);
    }
  }

  lemma SampledFacts(draw: Draw, results: seq<Item>, seed: int)
    requires Samples(draw) && DistinctKeys(ItemId, results)
    ensures DistinctKeys(ItemId, SampledSkips(draw, results, seed))
    ensures |SampledSkips(draw, results, seed)| == SampleSize(|RemainingSkips(results)|)
    ensures forall x :: x in SampledSkips(draw, results, seed) ==> x in results && IsSkip(x) && !IsHigh(x)
  {
    var rest, high := RemainingSkips(results), HighIds(results);
    var k := SampleSize(|rest|);
    var ps := draw(seed, |rest|, k);
    assert Positions(ps, |rest|, k);
    FilterDistinct(ItemId, IsSkip, results);
    FilterDistinct(ItemId, (x: Item) => ItemId(x) !in high, Filter(IsSkip, results));
    hide RemainingSkips, Filter;
    var chosen := SampledSkips(draw, results, seed);
    forall i, j | 0 <= i < j < |chosen| ensures ItemId(chosen[i]) != ItemId(chosen[j]) {
      assert ps[i] != ps[j];
      assert chosen[i] == rest[ps[i]] && chosen[j] == rest[ps[j]];
    }
    forall x | x in chosen ensures x in results && IsSkip(x) && !IsHigh(x) {
      var i :| 0 <= i < |chosen| && chosen[i] == x;
      assert rest[ps[i]] in rest;
      RemainingMember(results, x);
    }
  }

  lemma GroupedMember(draw: Draw, results: seq<Item>, seed: int, x: Item)
    requires Samples(draw) && DistinctKeys(ItemId, results)
    ensures x in Grouped(draw, results, seed) <==>
      (x in results && MustReview(x)) || x in SampledSkips(draw, results, seed)
  {
    hide SampledSkips, HighSkips;
    FilterMember(IsApply, results, x);
    FilterMember(IsMaybe, results, x);
    HighSkipMember(results, x);
  }

  /** No job is selected twice, as the source asserts. */
  lemma GroupedDistinct(draw: Draw, results: seq<Item>, seed: int)
    requires Samples(draw) && DistinctKeys(ItemId, results)
    ensures DistinctKeys(ItemId, Grouped(draw, results, seed))
  {
    var a, b, c, d := Filter(IsApply, results), Filter(IsMaybe, results), HighSkips(results),
                      SampledSkips(draw, results, seed);
    FilterDistinct(ItemId, IsApply, results);
    FilterDistinct(ItemId, IsMaybe, results);
    FilterDistinct(ItemId, IsSkip, results);
    FilterDistinct(ItemId, IsHigh, Filter(IsSkip, results));
    SampledFacts(draw, results, seed);
    forall x ensures (x in a <==> x in results && IsApply(x)) && (x in b <==> x in results && IsMaybe(x))
      && (x in c <==> x in results && IsSkip(x) && IsHigh(x))
    {
      FilterMember(IsApply, results, x);
      FilterMember(IsMaybe, results, x);
      HighSkipMember(results, x);
    }
    hide Filter, HighSkips, SampledSkips, DistinctKeys;
    Apart(results, a, b, IsApply, IsMaybe);
    Apart(results, a + b, c, (x: Item) => IsApply(x) || IsMaybe(x), (x: Item) => IsSkip(x) && IsHigh(x));
    Apart(results, a + b + c, d, MustReview, (x: Item) => IsSkip(x) && !IsHigh(x));
  }

  /** Groups that tell their members apart have no id in common. */
  lemma Apart(results: seq<Item>, a: seq<Item>, b: seq<Item>, p: Item -> bool, q: Item -> bool)
    requires DistinctKeys(ItemId, results) && DistinctKeys(ItemId, a) && DistinctKeys(ItemId, b)
    requires forall x :: x in a ==> x in results && p(x)
    requires forall x :: x in b ==> x in results && q(x)
    requires forall x :: !(p(x) && q(x))
    ensures DistinctKeys(ItemId, a + b)
  {
    hide DistinctKeys;
    forall x, y | x in a && y in b ensures ItemId(x) != ItemId(y) {
      if ItemId(x) == ItemId(y) {
        SameKeySameItem(ItemId, results, x, y);
      }
    }
    ConcatDistinct(ItemId, a, b);
  }

  lemma FilterAppend<T>(keep: T -> bool, items: seq<T>, item: T)
    ensures Filter(keep, items + [item]) == Filter(keep, items) + (if keep(item) then [item] else [])
  {
    assert (items + [item])[..|items|] == items;
  }

  lemma OneGroup(x: Item)
    ensures !(IsApply(x) && IsMaybe(x)) && !(IsApply(x) && IsSkip(x)) && !(IsMaybe(x) && IsSkip(x))
    ensures MustReview(x) <==> IsApply(x) || IsMaybe(x) || (IsSkip(x) && IsHigh(x))
  {
    assert "APPLY"[0] != "MAYBE"[0] && "APPLY"[0] != "SKIP"[0] && "MAYBE"[0] != "SKIP"[0];
  }

  lemma {:induction false} ReviewedCount(results: seq<Item>)
    ensures |Filter(IsApply, results)| + |Filter(IsMaybe, results)| + |HighSkips(results)|
         == |Filter(MustReview, results)|
  {
    if results != [] {
      var n := |results| - 1;
      var x := results[n];
      ReviewedCount(results[..n]);
      assert results == results[..n] + [x];
      FilterAppend(IsApply, results[..n], x);
      FilterAppend(IsMaybe, results[..n], x);
      FilterAppend(IsSkip, results[..n], x);
      FilterAppend(IsHigh, Filter(IsSkip, results[..n]), x);
      FilterAppend(MustReview, results[..n], x);
      OneGroup(x);
      assert Filter(IsSkip, results[..n]) + [] == Filter(IsSkip, results[..n]);
    }
  }

  /** What is reviewed: every APPLY, every MAYBE and every high-score SKIP, and a
      sample of the other skips; each job once, in ascending order of the ids. */
  lemma SelectedMeaning(draw: Draw, results: seq<Item>, seed: int)
    requires Samples(draw) && DistinctKeys(ItemId, results)
    ensures var selected := Selected(draw, results, seed);
      && StrictlyOrdered(ItemId, selected)
      && (forall x :: x in selected ==> x in results && (MustReview(x) || IsSkip(x)))
      && (forall x :: x in results && MustReview(x) ==> x in selected)
      && |selected| == |Filter(MustReview, results)| + SampleSize(|RemainingSkips(results)|)
  {
    var grouped, selected := Grouped(draw, results, seed), Selected(draw, results, seed);
    GroupedDistinct(draw, results, seed);
    SortStrictly(ItemId, grouped);
    SortFacts(ItemId, grouped);
    PermutationKeeps(selected, grouped);
    SampledFacts(draw, results, seed);
    ReviewedCount(results);
    assert |selected| == |Filter(MustReview, results)| + SampleSize(|RemainingSkips(results)|);
    hide Grouped, Selected, SampledSkips, DistinctKeys;
    forall x ensures x in selected <==>
      (x in results && MustReview(x)) || x in SampledSkips(draw, results, seed)
    {
      GroupedMember(draw, results, seed, x);
    }
  }

  predicate Reviewable(x: Item) {
    IsApply(x) || IsMaybe(x) || IsSkip(x)
  }

  /** The export is empty only when no job has a recommendation that is reviewed at all. */
  lemma SelectedEmpty(draw: Draw, results: seq<Item>, seed: int)
    requires Samples(draw) && DistinctKeys(ItemId, results)
    ensures Selected(draw, results, seed) == [] <==> forall x :: x in results ==> !Reviewable(x)
  {
    hide Selected, RemainingSkips, DistinctKeys;
    var selected := Selected(draw, results, seed);
    SelectedMeaning(draw, results, seed);
    if selected != [] {
      assert selected[0] in selected && Reviewable(selected[0]);
    } else {
      assert RemainingSkips(results) == [];
      forall x | x in results ensures !Reviewable(x) {
        RemainingMember(results, x);
      }
    }
  }

  // ---------------------------------------------------------------- the rows

  predicate IsFormulaPrefix(c: char) {
    c == '=' || c == '+' || c == '-' || c == '@'
  }

  /** `_csv_safe`: no cell starts a spreadsheet formula. */
  function CsvSafe(value: string): (safe: string)
    ensures safe != "" ==> !IsFormulaPrefix(safe[0])
    ensures |value| <= |safe| && safe[|safe| - |value|..] == value
  {
    if value != "" && IsFormulaPrefix(value[0]) then "'" + value else value
  }

  function SafeText(value: string): Cell { TextCell(CsvSafe(value)) }

  function SafeList(values: seq<string>): Cell { SafeText(JoinWith(values, ';')) }

  /** The cell of one column; `repr` is Python's `repr` of a float. */
  function CellOf(repr: real -> string, x: Item, provenance: string, c: Column): Cell {
    var before, after, shown := x.job.before, x.job.after, x.shown;
    match c
    case JobId => IntCell(x.job.id)
    case Fingerprint => TextCell(before.fingerprint)
    case Title => SafeText(before.title)
    case Company => SafeText(before.company)
    case Location => SafeText(before.location)
    case PostingType => SafeText(if before.postingType.None? then "" else before.postingType.value)
    case Score => IntCell(after.score)
    case Recommendation => TextCell(after.recommendation)
    case MatchedSkills => SafeList(shown.matchedSkills)
    case MissingMustHave => SafeList(shown.missingMustHave)
    case BaseScore => if shown.baseScore.None? then TextCell("") else IntCell(shown.baseScore.value)
    case BaseRecommendation => SafeText(shown.baseRecommendation)
    case ResolvedMustHave => SafeList(shown.resolvedMustHave)
    case ResolvedNiceToHave => SafeList(shown.resolvedNiceToHave)
    case MatchedMustHave => SafeList(shown.matchedMustHave)
    case MatchedOptional => SafeList(shown.matchedOptional)
    case UniqueEvidenceCount => IntCell(shown.uniqueEvidence)
    case EvidenceCardinality => SafeText(shown.cardinality)
    case RoleRelevance => SafeText(shown.roleRelevance)
    case SeniorityClassification => SafeText(shown.seniority)
    case PostingClassification => SafeText(shown.posting)
    case DataConfidence => FloatCell(repr(after.dataConfidence))
    case GateReason => SafeList(shown.gateTrace)
    case DescriptionOrUrl => SafeText(before.url)
    case ReviewProvenance => TextCell(provenance)
    case HumanRelevant => TextCell("")
    case HumanDecision => TextCell("")
    case HumanNotes => TextCell("")
  }

  function ExportRow(repr: real -> string, x: Item, provenance: string): ExpectedRow {
    map c: Column :: CellOf(repr, x, provenance, c)
  }

  function ExportRows(repr: real -> string, selected: seq<Item>, provenance: string): (rows: seq<ExpectedRow>)
    ensures |rows| == |selected|
    ensures forall k :: 0 <= k < |rows| ==> rows[k] == ExportRow(repr, selected[k], provenance)
  {
    seq(|selected|, k requires 0 <= k < |selected| => ExportRow(repr, selected[k], provenance))
  }

  /** `_build_human_review_rows` without its counters. */
  function ReviewExport(draw: Draw, repr: real -> string, results: seq<Item>, seed: int, provenance: string): seq<ExpectedRow>
    requires Samples(draw)
  {
    ExportRows(repr, Selected(draw, results, seed), provenance)
  }

  /** How many rows each group contributes. */
  datatype Counts = Counts(apply: nat, maybe: nat, highSkip: nat, sampledSkip: nat)

  /** The selection of `_build_human_review_rows`, group by group. */
  method SelectForReview(draw: Draw, results: seq<Item>, seed: int) returns (selected: seq<Item>, counts: Counts)
    requires Samples(draw) && DistinctKeys(ItemId, results)
    ensures selected == Selected(draw, results, seed)
    ensures |selected| == counts.apply + counts.maybe + counts.highSkip + counts.sampledSkip
    ensures counts.apply + counts.maybe + counts.highSkip == |Filter(MustReview, results)|
    ensures counts.sampledSkip == SampleSize(|RemainingSkips(results)|)
  {
    SampledFacts(draw, results, seed);
    ReviewedCount(results);
    SelectedMeaning(draw, results, seed);
    hide SortBy, Filter, DistinctKeys;
    var skips := Filter(IsSkip, results);
    var applies, maybes, high := Filter(IsApply, results), Filter(IsMaybe, results), Filter(IsHigh, skips);
    var ids := set x | x in high :: ItemId(x);
    var rest := Filter((x: Item) => ItemId(x) !in ids, skips);
    var k := if |rest| < SKIP_SAMPLE_SIZE then |rest| else SKIP_SAMPLE_SIZE;
    assert Positions(draw(seed, |rest|, k), |rest|, k);
    var sampled := At(rest, draw(seed, |rest|, k));
    assert sampled == SampledSkips(draw, results, seed);
    selected := SortBy(ItemId, applies + maybes + high + sampled);
    counts := Counts(|applies|, |maybes|, |high|, |sampled|);
  }

  /** `_build_human_review_rows`, as the source runs it. */
  method BuildReviewRows(draw: Draw, repr: real -> string, results: seq<Item>, seed: int, provenance: string)
    returns (rows: seq<ExpectedRow>, counts: Counts)
    requires Samples(draw) && DistinctKeys(ItemId, results)
    ensures rows == ReviewExport(draw, repr, results, seed, provenance)
    ensures |rows| == counts.apply + counts.maybe + counts.highSkip + counts.sampledSkip
    ensures counts.apply + counts.maybe + counts.highSkip == |Filter(MustReview, results)|
    ensures counts.sampledSkip == SampleSize(|RemainingSkips(results)|)
  {
    hide ExportRow, Selected, RemainingSkips, Filter, DistinctKeys;
    var selected;
    selected, counts := SelectForReview(draw, results, seed);
    rows := [];
    for i := 0 to |selected|
      invariant |rows| == i
      invariant forall j :: 0 <= j < i ==> rows[j] == ExportRow(repr, selected[j], provenance)
    {
      rows := rows + [ExportRow(repr, selected[i], provenance)];
    }
  }

  // ---------------------------------------------------------------- what the gate is given

  /** What the `jobs` table guarantees about the previewed jobs. */
  predicate FromTable(results: seq<Item>) {
    && DistinctKeys(ItemId, results)
    && (forall x :: x in results ==> ItemId(x) > 0 && Strip(ItemFingerprint(x)) != "")
    && (forall x, y :: x in results && y in results && ItemFingerprint(x) == ItemFingerprint(y) ==> ItemId(x) == ItemId(y))
  }

  lemma ExportRowFacts(repr: real -> string, x: Item, provenance: string)
    ensures var e := ExportRow(repr, x, provenance);
      && (forall c: Column :: c in e)
      && e[JobId] == IntCell(ItemId(x)) && e[Fingerprint] == TextCell(ItemFingerprint(x))
      && e[ReviewProvenance] == TextCell(provenance)
      && e[Recommendation] == TextCell(x.job.after.recommendation) && e[Score] == IntCell(x.job.after.score)
  {
  }

  lemma ExportedRow(repr: real -> string, x: Item, provenance: string)
    requires ItemId(x) > 0 && Strip(ItemFingerprint(x)) != ""
    ensures var e := ExportRow(repr, x, provenance);
      && WellFormedRow(e) && IdOf(e) == ItemId(x) && FingerprintOf(e) == ItemFingerprint(x)
      && ProvenanceOf(e) == TextCell(provenance)
  {
    ExportRowFacts(repr, x, provenance);
    hide ExportRow, Strip;
  }

  lemma RowsWellFormed(repr: real -> string, selected: seq<Item>, provenance: string)
    requires selected != [] && Strip(provenance) != ""
    requires forall k :: 0 <= k < |selected| ==> ItemId(selected[k]) > 0 && Strip(ItemFingerprint(selected[k])) != ""
    requires forall i, j :: 0 <= i < j < |selected| ==>
      ItemId(selected[i]) != ItemId(selected[j]) && ItemFingerprint(selected[i]) != ItemFingerprint(selected[j])
    ensures WellFormed(ExportRows(repr, selected, provenance))
  {
    hide ExportRow, WellFormedRow, Strip, IdOf, FingerprintOf, ProvenanceOf, ItemId, ItemFingerprint;
    var rows := ExportRows(repr, selected, provenance);
    forall k | 0 <= k < |selected|
      ensures WellFormedRow(rows[k]) && IdOf(rows[k]) == ItemId(selected[k])
      ensures FingerprintOf(rows[k]) == ItemFingerprint(selected[k]) && ProvenanceOf(rows[k]) == TextCell(provenance)
    {
      ExportedRow(repr, selected[k], provenance);
    }
  }

  /** The export of a preview is a population the gate accepts, unless there is
      nothing to review; the gate then refuses every file. */
  lemma ExportIsWellFormed(draw: Draw, repr: real -> string, results: seq<Item>, seed: int, provenance: string)
    requires Samples(draw) && FromTable(results) && Strip(provenance) != ""
    ensures WellFormed(ReviewExport(draw, repr, results, seed, provenance))
      <==> exists x :: x in results && Reviewable(x)
  {
    hide Selected, ExportRow, WellFormedRow, Strip, RemainingSkips, Filter, Reviewable, MustReview, IsSkip, SampleSize,
      ItemFingerprint;
    var selected := Selected(draw, results, seed);
    SelectedMeaning(draw, results, seed);
    SelectedEmpty(draw, results, seed);
    if selected != [] {
      forall k | 0 <= k < |selected| ensures selected[k] in results {
        assert selected[k] in selected;
      }
      forall i, j | 0 <= i < j < |selected|
        ensures ItemId(selected[i]) != ItemId(selected[j]) && ItemFingerprint(selected[i]) != ItemFingerprint(selected[j])
      {
        assert selected[i] in results && selected[j] in results;
      }
      RowsWellFormed(repr, selected, provenance);
    }
  }

  // ---------------------------------------------------------------- what an approved file reads

  /** The cell shows the text, with a quote before it when it would start a formula. */
  predicate Guarded(cell: string, text: string) {
    if text != "" && text[0] in {'=', '+', '-', '@'} then cell == ['\''] + text else cell == text
  }

  predicate GuardedList(cell: string, values: seq<string>) {
    Guarded(cell, JoinWith(values, ';'))
  }

  /** What the protected cell of each column must read in a row about the job. */
  predicate CellReads(repr: real -> string, cell: string, x: Item, provenance: string, c: Column) {
    var before, after, shown := x.job.before, x.job.after, x.shown;
    match c
    case JobId => cell == IntText(x.job.id)
    case Fingerprint => cell == before.fingerprint
    case Title => Guarded(cell, before.title)
    case Company => Guarded(cell, before.company)
    case Location => Guarded(cell, before.location)
    case PostingType => Guarded(cell, if before.postingType.Some? then before.postingType.value else "")
    case Score => cell == IntText(after.score)
    case Recommendation => cell == after.recommendation
    case MatchedSkills => GuardedList(cell, shown.matchedSkills)
    case MissingMustHave => GuardedList(cell, shown.missingMustHave)
    case BaseScore => if shown.baseScore.Some? then cell == IntText(shown.baseScore.value) else cell == ""
    case BaseRecommendation => Guarded(cell, shown.baseRecommendation)
    case ResolvedMustHave => GuardedList(cell, shown.resolvedMustHave)
    case ResolvedNiceToHave => GuardedList(cell, shown.resolvedNiceToHave)
    case MatchedMustHave => GuardedList(cell, shown.matchedMustHave)
    case MatchedOptional => GuardedList(cell, shown.matchedOptional)
    case UniqueEvidenceCount => cell == IntText(shown.uniqueEvidence)
    case EvidenceCardinality => Guarded(cell, shown.cardinality)
    case RoleRelevance => Guarded(cell, shown.roleRelevance)
    case SeniorityClassification => Guarded(cell, shown.seniority)
    case PostingClassification => Guarded(cell, shown.posting)
    case DataConfidence => cell == repr(after.dataConfidence)
    case GateReason => GuardedList(cell, shown.gateTrace)
    case DescriptionOrUrl => Guarded(cell, before.url)
    case ReviewProvenance => cell == provenance
    case HumanRelevant => true
    case HumanDecision => true
    case HumanNotes => true
  }

  /** Every protected cell of the row reads what the preview says about the job. */
  predicate ReadsAs(repr: real -> string, row: Row, x: Item, provenance: string)
    requires Complete(row)
  {
    forall c: Column :: CellReads(repr, row[c], x, provenance, c)
  }

  predicate ListColumn(c: Column) {
    c.MatchedSkills? || c.MissingMustHave? || c.ResolvedMustHave? || c.ResolvedNiceToHave? || c.MatchedMustHave?
    || c.MatchedOptional? || c.GateReason?
  }

  predicate TextColumn(c: Column) {
    c.Title? || c.Company? || c.Location? || c.PostingType? || c.BaseRecommendation? || c.EvidenceCardinality?
    || c.RoleRelevance? || c.SeniorityClassification? || c.PostingClassification? || c.DescriptionOrUrl?
  }

  /** The text such a column shows, before it is guarded. */
  function ColumnText(x: Item, c: Column): string
    requires ListColumn(c) || TextColumn(c)
  {
    var before, shown := x.job.before, x.shown;
    match c
    case Title => before.title
    case Company => before.company
    case Location => before.location
    case PostingType => if before.postingType.Some? then before.postingType.value else ""
    case BaseRecommendation => shown.baseRecommendation
    case EvidenceCardinality => shown.cardinality
    case RoleRelevance => shown.roleRelevance
    case SeniorityClassification => shown.seniority
    case PostingClassification => shown.posting
    case DescriptionOrUrl => before.url
    case MatchedSkills => JoinWith(shown.matchedSkills, ';')
    case MissingMustHave => JoinWith(shown.missingMustHave, ';')
    case ResolvedMustHave => JoinWith(shown.resolvedMustHave, ';')
    case ResolvedNiceToHave => JoinWith(shown.resolvedNiceToHave, ';')
    case MatchedMustHave => JoinWith(shown.matchedMustHave, ';')
    case MatchedOptional => JoinWith(shown.matchedOptional, ';')
    case GateReason => JoinWith(shown.gateTrace, ';')
  }

  lemma TextWritten(repr: real -> string, x: Item, provenance: string, c: Column)
    requires ListColumn(c) || TextColumn(c)
    ensures CellOf(repr, x, provenance, c) == SafeText(ColumnText(x, c))
  {
    hide JoinWith, CsvSafe;
  }

  lemma TextRead(repr: real -> string, cell: string, x: Item, provenance: string, c: Column)
    requires ListColumn(c) || TextColumn(c)
    ensures CellReads(repr, cell, x, provenance, c) == Guarded(cell, ColumnText(x, c))
  {
    hide JoinWith, Guarded;
  }

  lemma SafeIffGuarded(cell: string, text: string)
    ensures cell == CsvSafe(text) <==> Guarded(cell, text)
  {
  }

  lemma PlainCellIffReads(repr: real -> string, cell: string, x: Item, provenance: string, c: Column)
    requires Immutable(c) && !ListColumn(c) && !TextColumn(c)
    ensures Writes(CellOf(repr, x, provenance, c), cell) <==> CellReads(repr, cell, x, provenance, c)
  {
    hide IntText, JoinWith, CsvSafe, Guarded;
  }

  lemma CellIffReads(repr: real -> string, cell: string, x: Item, provenance: string, c: Column)
    requires Immutable(c)
    ensures Writes(CellOf(repr, x, provenance, c), cell) <==> CellReads(repr, cell, x, provenance, c)
  {
    hide Writes, CellOf, CellReads;
    if ListColumn(c) || TextColumn(c) {
      TextWritten(repr, x, provenance, c);
      TextRead(repr, cell, x, provenance, c);
      hide ColumnText, CsvSafe, Guarded;
      SafeIffGuarded(cell, ColumnText(x, c));
      GuardedCell(CellOf(repr, x, provenance, c), ColumnText(x, c));
    } else {
      PlainCellIffReads(repr, cell, x, provenance, c);
    }
  }

  lemma GuardedCell(cell: Cell, text: string)
    requires cell == SafeText(text)
    ensures forall t :: Writes(cell, t) <==> t == CsvSafe(text)
  {
  }

  /** A row passes the comparison exactly when each of its protected cells reads so. */
  lemma MatchesIffReads(repr: real -> string, row: Row, x: Item, provenance: string)
    requires Complete(row) && ItemId(x) > 0 && Strip(ItemFingerprint(x)) != ""
    ensures WellFormedRow(ExportRow(repr, x, provenance))
    ensures RowMatches(row, ExportRow(repr, x, provenance)) <==> ReadsAs(repr, row, x, provenance)
  {
    ExportedRow(repr, x, provenance);
    var e := ExportRow(repr, x, provenance);
    hide CellOf, Writes, CellReads, Strip, WellFormedRow;
    forall c: Column ensures Immutable(c) ==> (Writes(e[c], row[c]) <==> CellReads(repr, row[c], x, provenance, c)) {
      if Immutable(c) {
        CellIffReads(repr, row[c], x, provenance, c);
      }
    }
    forall c: Column | !Immutable(c) ensures CellReads(repr, row[c], x, provenance, c) {
      EditableCell(repr, row[c], x, provenance, c);
    }
  }

  lemma EditableCell(repr: real -> string, cell: string, x: Item, provenance: string, c: Column)
    requires !Immutable(c)
    ensures CellReads(repr, cell, x, provenance, c)
  {
    hide IntText, JoinWith;
  }

  /** The rows are about the jobs, one each, in any order. */
  ghost predicate RowsReadAs(repr: real -> string, rows: seq<Row>, items: seq<Item>, provenance: string)
    requires AllComplete(rows)
  {
    && |rows| == |items|
    && (forall i :: 0 <= i < |rows| ==> RowReadsSome(repr, rows[i], items, provenance))
    && (forall k :: 0 <= k < |items| ==> SomeRowReads(repr, rows, items[k], provenance))
  }

  ghost predicate RowReadsSome(repr: real -> string, row: Row, items: seq<Item>, provenance: string)
    requires Complete(row)
  {
    exists k :: 0 <= k < |items| && ReadsAs(repr, row, items[k], provenance)
  }

  ghost predicate SomeRowReads(repr: real -> string, rows: seq<Row>, x: Item, provenance: string)
    requires AllComplete(rows)
  {
    exists i :: 0 <= i < |rows| && ReadsAs(repr, rows[i], x, provenance)
  }

  /** The cells say YES or NO, and APPROVE, up to case and surrounding white space. */
  predicate SaysApprove(upper: string -> string, row: Row)
    requires Complete(row)
  {
    var relevant, decision := Strip(row[HumanRelevant]), Strip(row[HumanDecision]);
    relevant != "" && decision != "" && (upper(relevant) == "YES" || upper(relevant) == "NO") && upper(decision) == "APPROVE"
  }

  lemma PermutedIffReads(repr: real -> string, rows: seq<Row>, items: seq<Item>, provenance: string)
    requires AllComplete(rows) && WellFormed(ExportRows(repr, items, provenance))
    requires forall k :: 0 <= k < |items| ==> ItemId(items[k]) > 0 && Strip(ItemFingerprint(items[k])) != ""
    ensures Permuted(rows, ExportRows(repr, items, provenance)) <==> RowsReadAs(repr, rows, items, provenance)
  {
    hide ReadsAs, WellFormedRow, Complete, RowMatches, Shown, Exported, ExportRow, ItemId, ItemFingerprint, OneProvenance,
      Strip, IdOf;
    var expected := ExportRows(repr, items, provenance);
    forall i: nat, k: nat | i < |rows| && k < |items|
      ensures ShownRows(rows)[i] == ExportedRows(expected)[k] <==> ReadsAs(repr, rows[i], items[k], provenance)
    {
      MatchesIffReads(repr, rows[i], items[k], provenance);
      ShownIsExported(rows[i], expected[k]);
    }
    hide ShownRows, ExportedRows;
    if Permuted(rows, expected) {
      PermutedReads(repr, rows, items, provenance);
    }
    if RowsReadAs(repr, rows, items, provenance) {
      ReadsPermuted(repr, rows, items, provenance);
    }
  }

  /** File rows and exported ones are equal where the rows read as the jobs. */
  ghost predicate EqualWhereRead(repr: real -> string, rows: seq<Row>, items: seq<Item>, provenance: string)
    requires AllComplete(rows) && AllWellFormed(ExportRows(repr, items, provenance))
  {
    forall i: nat, k: nat :: i < |rows| && k < |items| ==>
      (ShownRows(rows)[i] == ExportedRows(ExportRows(repr, items, provenance))[k]
       <==> ReadsAs(repr, rows[i], items[k], provenance))
  }

  lemma PermutedReads(repr: real -> string, rows: seq<Row>, items: seq<Item>, provenance: string)
    requires AllComplete(rows) && AllWellFormed(ExportRows(repr, items, provenance))
    requires EqualWhereRead(repr, rows, items, provenance)
    requires Permuted(rows, ExportRows(repr, items, provenance))
    ensures RowsReadAs(repr, rows, items, provenance)
  {
    hide ReadsAs, WellFormedRow, Complete, Shown, Exported, ExportRow;
    var shown, exported := ShownRows(rows), ExportedRows(ExportRows(repr, items, provenance));
    PermutationKeeps(shown, exported);
    PermutationKeeps(exported, shown);
    forall i: nat | i < |rows| ensures RowReadsSome(repr, rows[i], items, provenance) {
      assert shown[i] in exported;
      var k: nat :| k < |exported| && shown[i] == exported[k];
    }
    forall k: nat | k < |items| ensures SomeRowReads(repr, rows, items[k], provenance) {
      assert exported[k] in shown;
      var i: nat :| i < |shown| && shown[i] == exported[k];
    }
  }

  lemma ReadsPermuted(repr: real -> string, rows: seq<Row>, items: seq<Item>, provenance: string)
    requires AllComplete(rows) && WellFormed(ExportRows(repr, items, provenance))
    requires EqualWhereRead(repr, rows, items, provenance) && RowsReadAs(repr, rows, items, provenance)
    ensures Permuted(rows, ExportRows(repr, items, provenance))
  {
    hide ReadsAs, WellFormedRow, Complete, Shown, Exported, ExportRow, OneProvenance;
    var expected := ExportRows(repr, items, provenance);
    var shown, exported := ShownRows(rows), ExportedRows(expected);
    ExportHasNoRepeats(expected);
    hide NoRepeats;
    forall i: nat | i < |shown| ensures shown[i] in exported {
      assert RowReadsSome(repr, rows[i], items, provenance);
      var k: nat :| k < |items| && ReadsAs(repr, rows[i], items[k], provenance);
      assert shown[i] == exported[k];
    }
    forall k: nat | k < |exported| ensures exported[k] in shown {
      assert SomeRowReads(repr, rows, items[k], provenance);
      var i: nat :| i < |rows| && ReadsAs(repr, rows[i], items[k], provenance);
      assert shown[i] == exported[k];
    }
    SameSizeCover(shown, exported);
  }

  lemma SameSizeCover<T>(a: seq<T>, b: seq<T>)
    requires |a| == |b| && NoRepeats(b) && forall k :: 0 <= k < |b| ==> b[k] in a
    requires forall i :: 0 <= i < |a| ==> a[i] in b
    ensures multiset(a) == multiset(b)
  {
    forall x ensures multiset(b)[x] <= multiset(a)[x] {
      CountInPrefix(a, x);
      CountInPrefix(b, x);
    }
    assert multiset(b) <= multiset(a);
    assert |multiset(a) - multiset(b)| == |multiset(a)| - |multiset(b)| == 0;
    assert multiset(a) == multiset(b) + (multiset(a) - multiset(b));
  }

  /** The gate accepts a file for the export of a preview exactly when there is
      something to review, ids are in range, and the file is readable, with one row
      about each selected job, every protected cell reading what the preview
      says, and every row approved. */
  lemma ApprovedFileReads(upper: string -> string, file: Option<CsvFile>, draw: Draw, repr: real -> string,
                          results: seq<Item>, seed: int, provenance: string)
    requires Samples(draw) && FromTable(results) && Strip(provenance) != ""
    ensures var selected := Selected(draw, results, seed);
      Approved(upper, file, ReviewExport(draw, repr, results, seed, provenance)) <==>
        && selected != []
        && (forall k :: 0 <= k < |selected| ==> selected[k].job.id <= 2_147_483_647)
        && Readable(file)
        && RowsReadAs(repr, FileRows(file), selected, provenance)
        && (forall i :: 0 <= i < |FileRows(file)| ==> SaysApprove(upper, FileRows(file)[i]))
  {
    hide Selected, ReadsAs, WellFormedRow, ExportRow, Complete, Readable, FileRows, RowsReadAs, Permuted, Strip, RemainingSkips,
      Filter, Reviewable, OneProvenance;
    var selected, expected := Selected(draw, results, seed), ReviewExport(draw, repr, results, seed, provenance);
    SelectedMeaning(draw, results, seed);
    ExportIsWellFormed(draw, repr, results, seed, provenance);
    SelectedEmpty(draw, results, seed);
    forall k | 0 <= k < |selected|
      ensures ItemId(selected[k]) > 0 && Strip(ItemFingerprint(selected[k])) != ""
      ensures WellFormedRow(expected[k]) && IdOf(expected[k]) == selected[k].job.id
    {
      assert selected[k] in selected;
      ExportedRow(repr, selected[k], provenance);
    }
    if selected != [] && Readable(file) {
      PermutedIffReads(repr, FileRows(file), selected, provenance);
    }
  }

  // ---------------------------------------------------------------- from the review to the database

  function Jobs(results: seq<Item>): (jobs: seq<Preview.Previewed>)
    ensures |jobs| == |results| && forall k :: 0 <= k < |results| ==> jobs[k] == results[k].job
  {
    seq(|results|, k requires 0 <= k < |results| => results[k].job)
  }

  /** A row of the file approves the job with this id and fingerprint. */
  ghost predicate ApprovedIn(upper: string -> string, rows: seq<Row>, id: int, fingerprint: string)
    requires AllComplete(rows)
  {
    exists i :: 0 <= i < |rows| && RowId(rows[i]).Some? && RowId(rows[i]).value == id
      && RowFingerprint(rows[i]) == fingerprint && HumanApproves(upper, rows[i])
  }

  lemma ApprovedRow(upper: string -> string, file: Option<CsvFile>, expected: seq<ExpectedRow>, j: nat)
    requires Approved(upper, file, expected) && j < |expected|
    ensures ApprovedIn(upper, FileRows(file), IdOf(expected[j]), FingerprintOf(expected[j]))
  {
    hide WellFormedRow, Complete, RowMatches, Shown, Exported, RowId, IdOf, FingerprintOf, RowFingerprint, HumanApproves,
      Readable, FileRows;
    var rows := FileRows(file);
    ExpectedIsFound(rows, expected, j);
    var i :| 0 <= i < |rows| && RowId(rows[i]).Some? && RowId(rows[i]).value == IdOf(expected[j]);
    FoundInExport(rows, expected, i);
    var k :| 0 <= k < |expected| && ShownRows(rows)[i] == ExportedRows(expected)[k] && RowMatches(rows[i], expected[k]);
    MatchedRow(rows[i], expected[k]);
    assert ExpectedIds(expected)[k] == ExpectedIds(expected)[j];
    assert k == j;
  }

  /** An approved review approves every APPLY, MAYBE and high-score SKIP of the preview. */
  lemma ApprovalCoversOutcomes(upper: string -> string, file: Option<CsvFile>, draw: Draw, repr: real -> string,
                               results: seq<Item>, seed: int, provenance: string, x: Item)
    requires Samples(draw) && FromTable(results)
    requires Approved(upper, file, ReviewExport(draw, repr, results, seed, provenance))
    requires x in results && MustReview(x)
    ensures ApprovedIn(upper, FileRows(file), ItemId(x), ItemFingerprint(x))
  {
    var selected := Selected(draw, results, seed);
    var expected := ReviewExport(draw, repr, results, seed, provenance);
    SelectedMeaning(draw, results, seed);
    hide Selected, ExportRow, Strip, RemainingSkips, Filter, ApprovedIn, HumanApproves, WellFormedRow;
    var j :| 0 <= j < |selected| && selected[j] == x;
    ExportedRow(repr, x, provenance);
    ApprovedRow(upper, file, expected, j);
  }

  /** No unreviewed recommendation reaches the database: after a commit of the
      preview an approved file was exported from, every previewed job whose
      stored outcome needs a review has an approving row with its id and its
      present fingerprint in that file. */
  lemma CommittedOutcomesWereApproved(
      upper: string -> string, file: Option<CsvFile>, draw: Draw, repr: real -> string, results: seq<Item>,
      seed: int, provenance: string, rules: Rescore.Rules, postgresql: bool, s: Rescore.Db, preview: Rescore.Preview, id: int)
    requires Samples(draw) && FromTable(results) && Preview.Covers(preview, Jobs(results))
    requires Approved(upper, file, ReviewExport(draw, repr, results, seed, provenance))
    requires Rescore.Ready(rules, postgresql, s, preview) && id in preview.expected
    ensures var t := Rescore.WriteScores(s, Rescore.Scores(preview));
      id in t.jobs &&
      (NeedsReview(t.jobs[id].persisted) ==> ApprovedIn(upper, FileRows(file), id, t.jobs[id].fingerprint))
  {
    Rescore.CommitMeaning(rules, postgresql, s, preview);
    assert Rescore.RowReady(rules, s, preview, id);
    hide ApprovedIn, ReviewExport, FromTable, Approved;
    var job :| job in Jobs(results) && job.id == id;
    var k :| 0 <= k < |results| && Jobs(results)[k] == job;
    assert results[k] in results;
    if NeedsReview(job.after) {
      ApprovalCoversOutcomes(upper, file, draw, repr, results, seed, provenance, results[k]);
    }
  }
}
