/** The fail-closed promise of `app/agents/candidate_job_matcher.py` from the required
    lines of a vacancy to the scores and the unknown requirements of its match. */
module FailClosed {
  import opened CandidateMatcher
  import opened CandidateProfile
  import CandidateTrust
  import opened MatchModel
  import opened MatchScores
  import opened PythonText
  import opened RequiredText
  import opened ResidualText
  import opened Sequences
  import opened SubjectRestoration
  import opened Wrappers

  function NeedsOf(found: seq<OtherRequirement>): (needs: seq<OtherNeed>)
    ensures |needs| == |found|
    ensures forall k :: 0 <= k < |found| ==> needs[k] == OtherNeed(found[k].text, found[k].identity, found[k].evidence)
  {
    seq(|found|, k requires 0 <= k < |found| => OtherNeed(found[k].text, found[k].identity, found[k].evidence))
  }

  /** The required lines of a vacancy and how they are read. */
  datatype Reading = Reading(r: Reader, fold: char -> string, e: Evaluation, segments: seq<string>)

  ghost predicate GoodReading(x: Reading) {
    Regular(x.r) && FoldsWords(x.fold) && GoodEvaluation(x.e)
  }

  /** The vacancy with the requirements its required lines leave unevaluated. */
  function ReadVacancy(x: Reading, vacancy: Vacancy): Vacancy
    requires GoodReading(x)
  {
    vacancy.(unevaluated := NeedsOf(UnevaluatedOf(x.r, x.fold, x.e, x.segments, |x.segments|)))
  }

  /** Some UNKNOWN required requirement of the match is about the words and cites the line. */
  ghost predicate KeptUnknown(m: Match, identity: string, segment: string) {
    exists q :: q in m.unknown && q.importance == REQUIRED && q.kind == OTHER
                && Occurs(identity, q.normalized) && segment in q.jobEvidence
  }

  // ---------------------------------------------------------------- words

  lemma UnevaluatedIsUnknown(v: Vocabulary, vacancy: Vacancy, p: Profile, asOf: int, j: nat)
    requires j < |vacancy.unevaluated|
    ensures CandidateMatcher.Unevaluated(vacancy.unevaluated[j]) in AllRequirements(v, vacancy, UsableFacts(p), asOf)
    ensures CandidateMatcher.Unevaluated(vacancy.unevaluated[j]) in ComputeMatch(v, vacancy, p, asOf).unknown
  {
    var q := CandidateMatcher.Unevaluated(vacancy.unevaluated[j]);
    var all := AllRequirements(v, vacancy, UsableFacts(p), asOf);
    assert UnevaluatedAll(vacancy.unevaluated)[j] == q;
    assert q in all by {
      hide MatchSkills, MatchCategories, MatchLanguages, MatchEducation, ExperienceMatch, UsableFacts;
    }
    hide AllRequirements, UsableFacts;
    FilterMember((r: Requirement) => r.status == UNKNOWN, all, q);
    assert ComputeMatch(v, vacancy, p, asOf).unknown == WithStatus(all, UNKNOWN) by {
      hide WithStatus;
    }
  }

  lemma ReportedIsUnknown(x: Reading, v: Vocabulary, vacancy: Vacancy, p: Profile, asOf: int, identity: string,
                          segment: string)
    requires GoodReading(x)
    requires Reported(UnevaluatedOf(x.r, x.fold, x.e, x.segments, |x.segments|), identity, segment)
    ensures KeptUnknown(ComputeMatch(v, ReadVacancy(x, vacancy), p, asOf), identity, segment)
  {
    hide Regular, FoldsWords, GoodEvaluation, UnevaluatedOf, Occurs, ComputeMatch, AllRequirements;
    var found := UnevaluatedOf(x.r, x.fold, x.e, x.segments, |x.segments|);
    var j: nat :| j < |found| && Reports(found[j], identity, segment);
    UnevaluatedIsUnknown(v, ReadVacancy(x, vacancy), p, asOf, j);
    var q := CandidateMatcher.Unevaluated(ReadVacancy(x, vacancy).unevaluated[j]);
    assert q.normalized == found[j].identity && q.jobEvidence == found[j].evidence;
  }

  /** Every word of a required line that must show is in an UNKNOWN required
      requirement of the match that cites the line. */
  ghost predicate WordsKept(x: Reading, m: Match, segment: string)
    requires GoodReading(x)
  {
    forall t :: MustShow(x.r, x.e, segment, t) ==>
      KeptUnknown(m, WordIdentity(x.fold, LineRead(x.e, segment), t), segment)
  }

  /** Of a line no span evaluates the whole text, and of any other line every word that
      must be reported, is in such a requirement. */
  ghost predicate ClausesKept(x: Reading, m: Match, segment: string)
    requires GoodReading(x)
  {
    if x.e.spans(segment) == [] then KeptUnknown(m, Identity(x.fold, segment), segment)
    else
      var line, pieces := LineRead(x.e, segment), ClausesOf(x.r, x.e, segment);
      forall k: nat, t :: k < |pieces| && MustReport(x.r, line.masked, pieces[k], RightOf(pieces, k), t) ==>
        KeptUnknown(m, WordIdentity(x.fold, line, t), segment)
  }

  lemma LineKept(x: Reading, v: Vocabulary, vacancy: Vacancy, p: Profile, asOf: int, segment: string)
    requires GoodReading(x)
    requires var found := UnevaluatedOf(x.r, x.fold, x.e, x.segments, |x.segments|);
      && NothingLost(x.r, x.fold, x.e, segment, found)
      && (x.e.spans(segment) != [] ==> WordsInClauses(x.r, x.fold, x.e, segment, found))
    ensures ClausesKept(x, ComputeMatch(v, ReadVacancy(x, vacancy), p, asOf), segment)
  {
    hide Regular, FoldsWords, GoodEvaluation, UnevaluatedOf, ComputeMatch, Identity, WordIdentity, KeptUnknown, Reported,
      PiecesOf, ReadVacancy, MustReport;
    var found := UnevaluatedOf(x.r, x.fold, x.e, x.segments, |x.segments|);
    var m := ComputeMatch(v, ReadVacancy(x, vacancy), p, asOf);
    if x.e.spans(segment) == [] {
      WholeIsReported(found, Identity(x.fold, segment), segment);
      ReportedIsUnknown(x, v, vacancy, p, asOf, Identity(x.fold, segment), segment);
    } else {
      var line, pieces := LineRead(x.e, segment), ClausesOf(x.r, x.e, segment);
      forall k: nat, t | k < |pieces| && MustReport(x.r, line.masked, pieces[k], RightOf(pieces, k), t)
        ensures KeptUnknown(m, WordIdentity(x.fold, line, t), segment)
      {
        assert Reported(found, WordIdentity(x.fold, line, t), segment);
        ReportedIsUnknown(x, v, vacancy, p, asOf, WordIdentity(x.fold, line, t), segment);
      }
    }
  }

  lemma WholeIsReported(found: seq<OtherRequirement>, identity: string, segment: string)
    requires ReportedWhole(found, identity, segment)
    ensures Reported(found, identity, segment)
  {
    var j :| 0 <= j < |found| && found[j].identity == identity && segment in found[j].evidence;
    assert OccursAt(identity, found[j].identity, 0);
    assert Reports(found[j], identity, segment);
  }

  /** `compute_match` with `_unevaluated_requirements`: whatever the profile says, no
      required text that was left unevaluated disappears. */
  method MatchVacancy(x: Reading, v: Vocabulary, vacancy: Vacancy, p: Profile, asOf: int) returns (m: Match)
    requires GoodReading(x)
    ensures m == ComputeMatch(v, ReadVacancy(x, vacancy), p, asOf)
    ensures forall k :: 0 <= k < |x.segments| ==> ClausesKept(x, m, x.segments[k])
    ensures Tokenwise(x.r) ==> forall k :: 0 <= k < |x.segments| ==> WordsKept(x, m, x.segments[k])
  {
    hide ComputeMatch, Tokenwise, MustShow, WordIdentity, KeptUnknown, NothingLost, Reported, Regular, FoldsWords,
      GoodEvaluation, OnePerIdentity, WordsInClauses, ClausesKept;
    var found := ResidualText.Unevaluated(x.r, x.fold, x.e, x.segments);
    m := ComputeMatch(v, vacancy.(unevaluated := NeedsOf(found)), p, asOf);
    forall k | 0 <= k < |x.segments| ensures ClausesKept(x, m, x.segments[k]) {
      LineKept(x, v, vacancy, p, asOf, x.segments[k]);
    }
    if Tokenwise(x.r) {
      forall k, t | 0 <= k < |x.segments| && MustShow(x.r, x.e, x.segments[k], t)
        ensures KeptUnknown(m, WordIdentity(x.fold, LineRead(x.e, x.segments[k]), t), x.segments[k])
      {
        assert MaterialInLine(x.r, x.fold, x.e, x.segments[k], found);
        ReportedIsUnknown(x, v, vacancy, p, asOf, WordIdentity(x.fold, LineRead(x.e, x.segments[k]), t), x.segments[k]);
      }
    }
  }

  // ---------------------------------------------------------------- scores

  /** A typed requirement evaluated some of the line, and no clause of it still says
      something: none of its words is kept, and it is no requirement as it stands. */
  ghost predicate FullyEvaluated(r: Reader, e: Evaluation, segment: string)
    requires Regular(r) && GoodEvaluation(e)
  {
    var masked, pieces := LineRead(e, segment).masked, ClausesOf(r, e, segment);
    && e.spans(segment) != []
    && forall k: nat :: k < |pieces| ==>
         NothingKept(r, masked, pieces[k]) && !Independent(r, masked, pieces[k], RightOf(pieces, k))
  }

  lemma {:induction false} SilentClauses(r: Reader, x: Line, pieces: seq<Clause>, n: nat)
    requires GoodLine(x) && GoodPieces(x, pieces) && n <= |pieces|
    ensures TextsOf(r, x, pieces, n) == [] <==> forall k: nat :: k < n ==>
      NothingKept(r, x.masked, pieces[k]) && !Independent(r, x.masked, pieces[k], RightOf(pieces, k))
  {
    hide GoodLine, GoodPieces, NothingKept, Independent, TextsOfClause;
    if n > 0 {
      SilentClauses(r, x, pieces, n - 1);
      SilentMeaning(r, x, pieces, n - 1);
    }
  }

  lemma SilentLine(r: Reader, e: Evaluation, segment: string)
    requires Regular(r) && GoodEvaluation(e)
    ensures TextsOfLine(r, e, segment) == [] <==> FullyEvaluated(r, e, segment)
  {
    hide Regular, PiecesOf, IsPieces, NothingKept, Independent, TextsOf, LineOf, GoodPieces;
    if e.spans(segment) != [] {
      var pieces := ClausesOf(r, e, segment);
      PiecesAreGood(r, segment, e.spans(segment), e.technology(segment), pieces);
      SilentClauses(r, LineRead(e, segment), pieces, |pieces|);
    }
  }

  lemma {:induction false} MergedSize(fold: char -> string, found: seq<OtherRequirement>, texts: seq<string>,
                                      segment: string, n: nat)
    requires n <= |texts|
    ensures |MergeAll(fold, found, texts, segment, n)| >= |found|
    ensures MergeAll(fold, found, texts, segment, n) == [] <==> found == [] && n == 0
  {
    hide Identity, Merge;
    if n > 0 {
      MergedSize(fold, found, texts, segment, n - 1);
      MergeKeeps(MergeAll(fold, found, texts, segment, n - 1), Identity(fold, texts[n - 1]), texts[n - 1], segment);
    }
  }

  lemma {:induction false} MergeKeeps(found: seq<OtherRequirement>, identity: string, text: string, segment: string)
    ensures |Merge(found, identity, text, segment)| >= |found|
    ensures Merge(found, identity, text, segment) != []
  {
    if found != [] {
      MergeKeeps(found[1..], identity, text, segment);
    }
  }

  /** The first `n` lines leave no requirement exactly when each of them is fully evaluated. */
  lemma {:induction false} NothingUnevaluated(x: Reading, n: nat)
    requires GoodReading(x) && n <= |x.segments|
    ensures UnevaluatedOf(x.r, x.fold, x.e, x.segments, n) == [] <==>
      forall k :: 0 <= k < n ==> FullyEvaluated(x.r, x.e, x.segments[k])
  {
    hide Regular, FoldsWords, GoodEvaluation, FullyEvaluated, TextsOfLine, MergeAll;
    if n > 0 {
      NothingUnevaluated(x, n - 1);
      SilentLine(x.r, x.e, x.segments[n - 1]);
      var texts := TextsOfLine(x.r, x.e, x.segments[n - 1]);
      MergedSize(x.fold, UnevaluatedOf(x.r, x.fold, x.e, x.segments, n - 1), texts, x.segments[n - 1], |texts|);
    }
  }

  lemma {:induction false} OfMember(requirements: seq<Requirement>, importance: Importance, q: Requirement)
    ensures q in Of(requirements, importance) <==> q in requirements && q.importance == importance
  {
    if requirements != [] {
      var n := |requirements| - 1;
      assert requirements == requirements[..n] + [requirements[n]];
      OfMember(requirements[..n], importance, q);
    }
  }

  /** Every required requirement in the list is a MATCH. */
  ghost predicate AllMatch(requirements: seq<Requirement>) {
    forall q :: q in requirements && q.importance == REQUIRED ==> q.status == MATCH
  }

  /** With 1 to 99 required requirements, typed or not, the required score is 100
      exactly when every required line is fully evaluated and every typed required
      requirement is a MATCH. */
  lemma FullMarksMeansEvaluated(x: Reading, v: Vocabulary, vacancy: Vacancy, p: Profile, asOf: int)
    requires GoodReading(x) && vacancy.unevaluated == []
    requires 1 <= |Of(AllRequirements(v, ReadVacancy(x, vacancy), UsableFacts(p), asOf), REQUIRED)| <= 99
    ensures ComputeMatch(v, ReadVacancy(x, vacancy), p, asOf).required == 100 <==>
      && (forall k :: 0 <= k < |x.segments| ==> FullyEvaluated(x.r, x.e, x.segments[k]))
      && AllMatch(AllRequirements(v, vacancy, UsableFacts(p), asOf))
  {
    hide GoodReading, UsableFacts, FullyEvaluated, UnevaluatedOf, AllMatch, AllRequirements, ComputeMatch, RequiredScore, Of;
    NothingUnevaluated(x, |x.segments|);
    var read, facts := ReadVacancy(x, vacancy), UsableFacts(p);
    var all := AllRequirements(v, read, facts, asOf);
    RequiredOfMatch(v, read, p, asOf);
    FullMarksMeansMatch(all);
    WithUnevaluated(v, vacancy, read, facts, asOf);
    var needs := read.unevaluated;
    NoneUnknown(UnevaluatedAll(needs));
    Both(AllRequirements(v, vacancy, facts, asOf), UnevaluatedAll(needs));
  }

  lemma RequiredOfMatch(v: Vocabulary, vacancy: Vacancy, p: Profile, asOf: int)
    ensures ComputeMatch(v, vacancy, p, asOf).required == RequiredScore(AllRequirements(v, vacancy, UsableFacts(p), asOf))
  {
    hide AllRequirements, UsableFacts, RequiredScore;
  }

  lemma FullMarksMeansMatch(all: seq<Requirement>)
    requires 1 <= |Of(all, REQUIRED)| <= 99
    ensures RequiredScore(all) == 100 <==> AllMatch(all)
  {
    hide RequiredScore, Of;
    FullMarksMeansAllMatch(all);
    var required := Of(all, REQUIRED);
    forall q ensures q in required <==> q in all && q.importance == REQUIRED {
      OfMember(all, REQUIRED, q);
    }
    assert forall k :: 0 <= k < |required| ==> required[k] in required;
  }

  lemma WithUnevaluated(v: Vocabulary, vacancy: Vacancy, read: Vacancy, facts: Facts, asOf: int)
    requires vacancy.unevaluated == [] && read == vacancy.(unevaluated := read.unevaluated)
    ensures AllRequirements(v, read, facts, asOf)
         == AllRequirements(v, vacancy, facts, asOf) + UnevaluatedAll(read.unevaluated)
  {
    hide MatchSkills, MatchCategories, MatchLanguages, MatchEducation, MatchExperience;
    assert ExperienceMatch(v, read, facts, asOf) == ExperienceMatch(v, vacancy, facts, asOf);
    assert UnevaluatedAll(vacancy.unevaluated) == [];
  }

  lemma NoneUnknown(others: seq<Requirement>)
    requires forall k :: 0 <= k < |others| ==> others[k].importance == REQUIRED && others[k].status == UNKNOWN
    ensures AllMatch(others) <==> others == []
  {
    if others != [] {
      assert others[0] in others;
    }
  }

  lemma Both(a: seq<Requirement>, b: seq<Requirement>)
    ensures AllMatch(a + b) <==> AllMatch(a) && AllMatch(b)
  {
    assert forall q :: q in a + b <==> q in a || q in b;
  }

  // ---------------------------------------------------------------- full marks despite unevaluated text

  lemma {:induction false} OfWithOthers(a: seq<Requirement>, b: seq<Requirement>)
    requires forall k :: 0 <= k < |b| ==> b[k].importance == REQUIRED
    ensures Of(a + b, REQUIRED) == Of(a, REQUIRED) + b
  {
    if b == [] {
      assert a + b == a && Of(a, REQUIRED) + b == Of(a, REQUIRED);
    } else {
      var n := |b| - 1;
      OfWithOthers(a, b[..n]);
      assert (a + b)[..|a| + n] == a + b[..n];
      hide Of;
      assert Of(a, REQUIRED) + b[..n] + [b[n]] == Of(a, REQUIRED) + b;
    }
  }

  lemma {:induction false} UnknownAddNothing(a: seq<Requirement>, b: seq<Requirement>)
    requires forall k :: 0 <= k < |b| ==> b[k].status == UNKNOWN
    ensures PointSum(a + b) == PointSum(a)
  {
    if b == [] {
      assert a + b == a;
    } else {
      var n := |b| - 1;
      UnknownAddNothing(a, b[..n]);
      assert (a + b)[..|a| + n] == a + b[..n];
    }
  }

  lemma AllMatchPoints(requirements: seq<Requirement>)
    requires AllMatch(requirements)
    ensures PointSum(Of(requirements, REQUIRED)) == 2 * |Of(requirements, REQUIRED)|
  {
    hide Of;
    var required := Of(requirements, REQUIRED);
    PointsBounded(required);
    forall k | 0 <= k < |required| ensures required[k].status == MATCH {
      OfMember(requirements, REQUIRED, required[k]);
    }
  }

  /** When every typed required requirement is a MATCH, the required score shows 100
      exactly when there are at least 199 of them for each unevaluated text. */
  lemma HundredDespiteUnevaluated(x: Reading, v: Vocabulary, vacancy: Vacancy, p: Profile, asOf: int)
    requires GoodReading(x) && vacancy.unevaluated == []
    requires AllMatch(AllRequirements(v, vacancy, UsableFacts(p), asOf))
    ensures var left := |ReadVacancy(x, vacancy).unevaluated|;
      var typed := |Of(AllRequirements(v, vacancy, UsableFacts(p), asOf), REQUIRED)|;
      typed + left > 0 ==> (ComputeMatch(v, ReadVacancy(x, vacancy), p, asOf).required == 100 <==> 199 * left <= typed)
  {
    hide GoodReading, UsableFacts, UnevaluatedOf, AllMatch, AllRequirements, ComputeMatch, RequiredScore, Of, PointSum;
    var read, facts := ReadVacancy(x, vacancy), UsableFacts(p);
    var typed, others := AllRequirements(v, vacancy, facts, asOf), UnevaluatedAll(read.unevaluated);
    RequiredOfMatch(v, read, p, asOf);
    WithUnevaluated(v, vacancy, read, facts, asOf);
    OfWithOthers(typed, others);
    UnknownAddNothing(Of(typed, REQUIRED), others);
    AllMatchPoints(typed);
    if Of(typed, REQUIRED) + others != [] {
      FullMarks(typed + others);
    }
  }

  function SkillName(k: nat): (name: string)
    ensures |name| == k + 1
  {
    seq(k + 1, _ => 's')
  }

  /** A vacancy that requires `n` different skills, and a profile that has all of them. */
  function SkilledVacancy(n: nat): Vacancy {
    Vacancy(1, "", "", "", seq(n, k requires 0 <= k < n => SkillNeed(SkillName(k), REQUIRED)), [], [], None, None, [], [])
  }

  function SkilledRows(n: nat): (rows: seq<Skill>)
    ensures |rows| == n && forall k :: 0 <= k < n ==> rows[k].name == SkillName(k) && rows[k].id == k + 1
  {
    seq(n, k requires 0 <= k < n =>
      Skill(k + 1, SkillName(k), "", "", None, CandidateTrust.Trust(CandidateTrust.MANUAL_ENTRY, CandidateTrust.CONFIRMED)))
  }

  function SkilledProfile(n: nat): Profile {
    Profile(1, 1, map[], SkilledRows(n), [], [], [], [], [])
  }

  lemma {:induction false} AllTrusted(rows: seq<Skill>)
    requires forall k :: 0 <= k < |rows| ==> CandidateTrust.IsUsable(rows[k].trust)
    ensures Trusted(OfSkill, rows) == rows
  {
    if rows != [] {
      AllTrusted(rows[..|rows| - 1]);
    }
  }

  lemma {:induction false} OfAll(requirements: seq<Requirement>)
    requires forall k :: 0 <= k < |requirements| ==> requirements[k].importance == REQUIRED
    ensures Of(requirements, REQUIRED) == requirements
  {
    if requirements != [] {
      OfAll(requirements[..|requirements| - 1]);
    }
  }

  lemma SkilledMatches(v: Vocabulary, n: nat, asOf: int)
    ensures var typed := AllRequirements(v, SkilledVacancy(n), UsableFacts(SkilledProfile(n)), asOf);
      AllMatch(typed) && |Of(typed, REQUIRED)| == n
  {
    var vacancy, p := SkilledVacancy(n), SkilledProfile(n);
    AllTrusted(p.skills);
    var facts := UsableFacts(p);
    var typed := MatchSkills(v, vacancy.skills, facts.skills);
    assert AllRequirements(v, vacancy, facts, asOf) == typed by {
      hide MatchSkills;
    }
    hide AllRequirements, UsableFacts;
    forall k: nat | k < n ensures typed[k].status == MATCH && typed[k].importance == REQUIRED {
      assert facts.skills[k].name == SkillName(k);
      FirstNamedIsRow(v, facts.skills, v.normalize(SkillName(k)));
    }
    OfAll(typed);
  }

  /** A vacancy requiring 199 skills, all of them matched, and one line no typed
      requirement evaluated: the match keeps that line as unknown and shows 100. */
  lemma HundredWithLineLeft(x: Reading, v: Vocabulary, asOf: int, segment: string)
    requires GoodReading(x) && x.segments == [segment] && x.e.spans(segment) == []
    ensures var m := ComputeMatch(v, ReadVacancy(x, SkilledVacancy(199)), SkilledProfile(199), asOf);
      && m.required == 100 && !FullyEvaluated(x.r, x.e, segment)
      && KeptUnknown(m, Identity(x.fold, segment), segment)
  {
    hide SkilledVacancy, SkilledProfile, UsableFacts, ComputeMatch, AllRequirements, Identity, KeptUnknown, Regular,
      FoldsWords, GoodEvaluation, Of, AllMatch;
    var n: nat := 199;
    var vacancy, p := SkilledVacancy(n), SkilledProfile(n);
    SkilledMatches(v, n, asOf);
    WholeLineOnly(x, segment);
    assert vacancy.unevaluated == [] by {
      NothingUnevaluatedYet(n);
    }
    HundredDespiteUnevaluated(x, v, vacancy, p, asOf);
    ReportedIsUnknown(x, v, vacancy, p, asOf, Identity(x.fold, segment), segment);
  }

  lemma NothingUnevaluatedYet(n: nat)
    ensures SkilledVacancy(n).unevaluated == []
  {
  }

  lemma WholeLineOnly(x: Reading, segment: string)
    requires GoodReading(x) && x.segments == [segment] && x.e.spans(segment) == []
    ensures var found := UnevaluatedOf(x.r, x.fold, x.e, x.segments, |x.segments|);
      |found| == 1 && Reported(found, Identity(x.fold, segment), segment)
  {
    hide Identity, Regular, FoldsWords, GoodEvaluation;
    var found := UnevaluatedOf(x.r, x.fold, x.e, x.segments, 1);
    assert UnevaluatedOf(x.r, x.fold, x.e, x.segments, 0) == [];
    assert MergeAll(x.fold, [], [segment], segment, 0) == [];
    assert found == [OtherRequirement(segment, Identity(x.fold, segment), [segment])];
    assert found[0].identity == Identity(x.fold, segment) && segment in found[0].evidence;
    WholeIsReported(found, Identity(x.fold, segment), segment);
  }
}
