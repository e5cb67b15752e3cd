/** What a computed match of `app/agents/candidate_job_matcher.py` holds besides its
    requirements: the scores, the relevant rows, the claims and the warnings. */
module MatchContents {
  import opened CandidateMatcher
  import opened CandidateProfile
  import opened MatchMeaning
  import opened MatchModel
  import opened MatchScores
  import opened Sequences
  import opened Wrappers

  // ---------------------------------------------------------------- scores

  /** Points of the listed requirements of this importance: 1 for a MATCH, half for a PARTIAL. */
  function Points(m: Match, importance: Importance): real {
    Number(m.matched, importance) as real + 0.5 * Number(m.partials, importance) as real
  }

  function Total(m: Match, importance: Importance): real {
    (Number(m.matched, importance) + Number(m.partials, importance) + Number(m.missing, importance)
     + Number(m.unknown, importance)) as real
  }

  /** `score` is the nearest percentage, or `empty` when there is nothing to measure. */
  ghost predicate IsShare(points: real, total: real, empty: int, score: int) {
    if total == 0.0 then score == empty else Nearest(100.0 * points / total, score)
  }

  lemma NumberAppend(requirements: seq<Requirement>, q: Requirement, importance: Importance)
    ensures Number(requirements + [q], importance)
      == Number(requirements, importance) + (if q.importance == importance then 1 else 0)
  {
    NumberStep(requirements + [q], importance);
    assert (requirements + [q])[..|requirements|] == requirements;
  }

  lemma WithStatusStep(all: seq<Requirement>, status: Status, importance: Importance)
    requires all != []
    ensures var n := |all| - 1;
      Number(WithStatus(all, status), importance) == Number(WithStatus(all[..n], status), importance)
        + (if all[n].status == status && all[n].importance == importance then 1 else 0)
  {
    hide Number;
    var n := |all| - 1;
    NumberAppend(WithStatus(all[..n], status), all[n], importance);
    assert WithStatus(all[..n], status) + [] == WithStatus(all[..n], status);
  }

  lemma {:induction false} PointsByNumber(all: seq<Requirement>, importance: Importance)
    ensures PointSum(Of(all, importance))
      == 2 * Number(WithStatus(all, MATCH), importance) + Number(WithStatus(all, PARTIAL), importance)
    ensures |Of(all, importance)| == Number(WithStatus(all, MATCH), importance)
      + Number(WithStatus(all, PARTIAL), importance) + Number(WithStatus(all, MISSING), importance)
      + Number(WithStatus(all, UNKNOWN), importance)
  {
    if all != [] {
      var n := |all| - 1;
      PointsByNumber(all[..n], importance);
      WithStatusStep(all, MATCH, importance);
      WithStatusStep(all, PARTIAL, importance);
      WithStatusStep(all, MISSING, importance);
      WithStatusStep(all, UNKNOWN, importance);
      hide Number, WithStatus;
      var before := Of(all[..n], importance);
      assert (before + [all[n]])[..|before|] == before;
      assert before + [] == before;
    }
  }

  lemma {:induction false} WeightsByNumber(all: seq<Requirement>)
    ensures WeightedSum(all)
      == 6 * PointSum(Of(all, REQUIRED)) + 2 * PointSum(Of(all, PREFERRED)) + PointSum(Of(all, UNSTATED))
    ensures WeightSum(all) == 6 * |Of(all, REQUIRED)| + 2 * |Of(all, PREFERRED)| + |Of(all, UNSTATED)|
  {
    if all != [] {
      var n := |all| - 1;
      WeightsByNumber(all[..n]);
      PointSumOf(all, REQUIRED);
      PointSumOf(all, PREFERRED);
      PointSumOf(all, UNSTATED);
      WeighsPoints(all[n]);
      hide Of, PointSum, HalfWeight, HalfPoints;
    }
  }

  lemma WeighsPoints(q: Requirement)
    ensures HalfWeight(q.importance) * HalfPoints(q.status) == match q.importance
      case REQUIRED => 6 * HalfPoints(q.status)
      case PREFERRED => 2 * HalfPoints(q.status)
      case UNSTATED => HalfPoints(q.status)
    ensures HalfWeight(q.importance) == match q.importance case REQUIRED => 6 case PREFERRED => 2 case UNSTATED => 1
  {
  }

  lemma PointSumOf(all: seq<Requirement>, importance: Importance)
    requires all != []
    ensures var n := |all| - 1;
      && PointSum(Of(all, importance)) == PointSum(Of(all[..n], importance))
        + (if all[n].importance == importance then HalfPoints(all[n].status) else 0)
      && |Of(all, importance)| == |Of(all[..n], importance)| + (if all[n].importance == importance then 1 else 0)
  {
    var n := |all| - 1;
    var before := Of(all[..n], importance);
    assert (before + [all[n]])[..|before|] == before;
    assert before + [] == before;
  }

  lemma ShareOfMean(num: nat, den: nat, points: real, total: real)
    requires den > 0 && total > 0.0 && num as real * total == 100.0 * points * den as real
    ensures Nearest(100.0 * points / total, RoundHalfEven(num, den))
  {
    RoundIsNearestReal(num, den);
    SameFraction(num, den, 100.0 * points, total);
  }

  lemma ShareOfHalves(num: nat, den: nat, points: real, total: real)
    requires den > 0 && num as real == 200.0 * points && den as real == 2.0 * total
    ensures Nearest(100.0 * points / total, RoundHalfEven(num, den))
  {
    hide Nearest, RoundHalfEven;
    assert 200.0 * points * total == 100.0 * points * (2.0 * total);
    ShareOfMean(num, den, points, total);
  }

  lemma MeanMeaning(all: seq<Requirement>, importance: Importance, m: Match, empty: nat)
    requires m.matched == WithStatus(all, MATCH) && m.partials == WithStatus(all, PARTIAL)
    requires m.missing == WithStatus(all, MISSING) && m.unknown == WithStatus(all, UNKNOWN)
    ensures IsShare(Points(m, importance), Total(m, importance), empty, MeanScore(Of(all, importance), empty))
  {
    hide Number, WithStatus, Nearest, PointSum, RoundHalfEven;
    PointsByNumber(all, importance);
    var subset := Of(all, importance);
    hide Of;
    if subset != [] {
      assert (50 * PointSum(subset)) as real == 100.0 * Points(m, importance);
      ShareOfMean(50 * PointSum(subset), |subset|, Points(m, importance), Total(m, importance));
    }
  }

  lemma CoverageMeaning(all: seq<Requirement>, m: Match)
    requires m.matched == WithStatus(all, MATCH) && m.partials == WithStatus(all, PARTIAL)
    requires m.missing == WithStatus(all, MISSING) && m.unknown == WithStatus(all, UNKNOWN)
    ensures IsShare(3.0 * Points(m, REQUIRED) + Points(m, PREFERRED) + 0.5 * Points(m, UNSTATED),
                    3.0 * Total(m, REQUIRED) + Total(m, PREFERRED) + 0.5 * Total(m, UNSTATED),
                    50, CoverageScore(all))
  {
    hide Number, WithStatus, Nearest, RoundHalfEven;
    PointsByNumber(all, REQUIRED);
    PointsByNumber(all, PREFERRED);
    PointsByNumber(all, UNSTATED);
    WeightsByNumber(all);
    assert all == [] ==> WeightSum(all) == 0;
    hide PointSum, Of, WeightedSum, WeightSum;
    var points := 3.0 * Points(m, REQUIRED) + Points(m, PREFERRED) + 0.5 * Points(m, UNSTATED);
    var total := 3.0 * Total(m, REQUIRED) + Total(m, PREFERRED) + 0.5 * Total(m, UNSTATED);
    assert WeightedSum(all) as real == 4.0 * points;
    assert WeightSum(all) as real == 2.0 * total;
    hide Points, Total;
    if all != [] {
      WeightsArePositive(all);
      ShareOfHalves(50 * WeightedSum(all), WeightSum(all), points, total);
    }
  }

  /** The required, preferred and coverage scores measure the listed requirements, and the
      overall score blends them 60/20/20. */
  lemma ScoresMeaning(v: Vocabulary, vacancy: Vacancy, p: Profile, asOf: int)
    ensures var m := ComputeMatch(v, vacancy, p, asOf);
      && IsShare(Points(m, REQUIRED), Total(m, REQUIRED), 50, m.required)
      && IsShare(Points(m, PREFERRED), Total(m, PREFERRED), 100, m.preferred)
      && IsShare(3.0 * Points(m, REQUIRED) + Points(m, PREFERRED) + 0.5 * Points(m, UNSTATED),
                 3.0 * Total(m, REQUIRED) + Total(m, PREFERRED) + 0.5 * Total(m, UNSTATED), 50, m.coverage)
      && Nearest(0.6 * m.required as real + 0.2 * m.preferred as real + 0.2 * m.support as real, m.overall)
  {
    var m, all := ComputeMatch(v, vacancy, p, asOf), AllRequirements(v, vacancy, UsableFacts(p), asOf);
    ListsOf(v, vacancy, p, asOf);
    ScoresOf(v, vacancy, p, asOf);
    hide ComputeMatch, IsShare, Nearest, MeanScore, CoverageScore, RoundHalfEven, AllRequirements, Points, Total;
    MeanMeaning(all, REQUIRED, m, 50);
    MeanMeaning(all, PREFERRED, m, 100);
    CoverageMeaning(all, m);
    BlendMeaning(m.required, m.preferred, m.support);
  }

  lemma BlendMeaning(required: nat, preferred: nat, support: nat)
    ensures Nearest(0.6 * required as real + 0.2 * preferred as real + 0.2 * support as real,
                    OverallScore(required, preferred, support))
  {
    hide Nearest, RoundHalfEven;
    RoundIsNearestReal(3 * required + preferred + support, 5);
    assert (3 * required + preferred + support) as real / 5.0
      == 0.6 * required as real + 0.2 * preferred as real + 0.2 * support as real;
  }

  lemma ScoresOf(v: Vocabulary, vacancy: Vacancy, p: Profile, asOf: int)
    ensures var m, all := ComputeMatch(v, vacancy, p, asOf), AllRequirements(v, vacancy, UsableFacts(p), asOf);
      && m.required == MeanScore(Of(all, REQUIRED), NEUTRAL) && m.preferred == MeanScore(Of(all, PREFERRED), TRIVIAL)
      && m.coverage == CoverageScore(all) && m.overall == RoundHalfEven(3 * m.required + m.preferred + m.support, 5)
  {
    hide AllRequirements, MeanScore, CoverageScore, RoundHalfEven, Of, SupportScore, WithStatus, UsableFacts;
  }

  // ---------------------------------------------------------------- relevant rows

  /** The text names, as the matcher compares names, a skill of the vacancy. */
  ghost predicate NamesSkill(v: Vocabulary, vacancy: Vacancy, text: string) {
    exists k :: 0 <= k < |vacancy.skills| && v.normalize(text) == v.normalize(vacancy.skills[k].text)
  }

  ghost function NamedIn(v: Vocabulary, vacancy: Vacancy, technologies: seq<string>): set<string> {
    set text | text in technologies && NamesSkill(v, vacancy, text)
  }

  ghost predicate IsRelevant(v: Vocabulary, vacancy: Vacancy, technologies: seq<string>) {
    exists k :: 0 <= k < |technologies| && NamesSkill(v, vacancy, technologies[k])
  }

  /** The relevant rows are the trusted rows with a technology the vacancy names, in
      order, each with those technologies sorted. */
  ghost predicate RowsAreRelevant(v: Vocabulary, vacancy: Vacancy, p: Profile, m: Match) {
    && Picks(m.experiences, Trusted(OfExperience, p.experiences),
             (row: Experience) => IsRelevant(v, vacancy, row.technologies),
             (row: Experience) => RelevantRow(row.id, row.jobTitle, row.company,
                                              v.sorted(NamedIn(v, vacancy, row.technologies))))
    && Picks(m.projects, Trusted(OfProject, p.projects),
             (row: Project) => IsRelevant(v, vacancy, row.technologies),
             (row: Project) => RelevantRow(row.id, row.name, "", v.sorted(NamedIn(v, vacancy, row.technologies))))
  }

  ghost predicate AskedFor(v: Vocabulary, vacancy: Vacancy, row: Language) {
    exists k :: 0 <= k < |vacancy.languages| && v.canonicalLanguage(row.language) == Some(vacancy.languages[k].language)
  }

  /** Listed are the completed education, if the vacancy asks for one, and the languages it asks for. */
  ghost predicate RowsAreAskedFor(v: Vocabulary, vacancy: Vacancy, p: Profile, m: Match) {
    && Selects(m.education, Trusted(OfEducation, p.education),
               (row: Education) => vacancy.education.Some? && row.completed)
    && Selects(m.languages, Trusted(OfLanguage, p.languages), (row: Language) => AskedFor(v, vacancy, row))
  }

  lemma MatchedMeaning(v: Vocabulary, vacancy: Vacancy, technologies: seq<string>)
    requires SortsSets(v)
    ensures MatchedTechnologies(v, technologies, NamedSkills(v, vacancy)) == v.sorted(NamedIn(v, vacancy, technologies))
    ensures MatchedTechnologies(v, technologies, NamedSkills(v, vacancy)) != [] <==> IsRelevant(v, vacancy, technologies)
  {
    var required := NamedSkills(v, vacancy);
    var matched := set k | 0 <= k < |technologies| && v.normalize(technologies[k]) in required :: technologies[k];
    forall text ensures v.normalize(text) in required <==> NamesSkill(v, vacancy, text) {
    }
    hide NamesSkill;
    assert matched == NamedIn(v, vacancy, technologies);
    var sorted := v.sorted(matched);
    if sorted != [] {
      assert sorted[0] in matched;
    }
    if k :| 0 <= k < |technologies| && NamesSkill(v, vacancy, technologies[k]) {
      assert technologies[k] in matched;
    }
  }

  lemma {:induction false} ExperiencesMeaning(v: Vocabulary, vacancy: Vacancy, rows: seq<Experience>)
    requires SortsSets(v)
    ensures Picks(RelevantExperiences(v, rows, NamedSkills(v, vacancy)), rows,
                  (row: Experience) => IsRelevant(v, vacancy, row.technologies),
                  (row: Experience) => RelevantRow(row.id, row.jobTitle, row.company,
                                                   v.sorted(NamedIn(v, vacancy, row.technologies))))
  {
    hide Picks, SortsSets, IsRelevant, NamedIn, NamedSkills, MatchedTechnologies;
    var keep := (row: Experience) => IsRelevant(v, vacancy, row.technologies);
    var become := (row: Experience) =>
      RelevantRow(row.id, row.jobTitle, row.company, v.sorted(NamedIn(v, vacancy, row.technologies)));
    if rows == [] {
      PicksNothing(keep, become);
    } else {
      var n := |rows| - 1;
      assert rows == rows[..n] + [rows[n]];
      ExperiencesMeaning(v, vacancy, rows[..n]);
      MatchedMeaning(v, vacancy, rows[n].technologies);
      PicksNext(RelevantExperiences(v, rows[..n], NamedSkills(v, vacancy)), rows[..n], keep, become, rows[n]);
    }
  }

  lemma {:induction false} ProjectsMeaning(v: Vocabulary, vacancy: Vacancy, rows: seq<Project>)
    requires SortsSets(v)
    ensures Picks(RelevantProjects(v, rows, NamedSkills(v, vacancy)), rows,
                  (row: Project) => IsRelevant(v, vacancy, row.technologies),
                  (row: Project) => RelevantRow(row.id, row.name, "", v.sorted(NamedIn(v, vacancy, row.technologies))))
  {
    hide Picks, SortsSets, IsRelevant, NamedIn, NamedSkills, MatchedTechnologies;
    var keep := (row: Project) => IsRelevant(v, vacancy, row.technologies);
    var become := (row: Project) =>
      RelevantRow(row.id, row.name, "", v.sorted(NamedIn(v, vacancy, row.technologies)));
    if rows == [] {
      PicksNothing(keep, become);
    } else {
      var n := |rows| - 1;
      assert rows == rows[..n] + [rows[n]];
      ProjectsMeaning(v, vacancy, rows[..n]);
      MatchedMeaning(v, vacancy, rows[n].technologies);
      PicksNext(RelevantProjects(v, rows[..n], NamedSkills(v, vacancy)), rows[..n], keep, become, rows[n]);
    }
  }

  /** What the match lists beside the requirements. */
  lemma RowsMeaning(v: Vocabulary, vacancy: Vacancy, p: Profile, asOf: int)
    requires SortsSets(v)
    ensures var m := ComputeMatch(v, vacancy, p, asOf);
      && m.jobId == vacancy.jobId && m.version == p.version
      && RowsAreRelevant(v, vacancy, p, m) && RowsAreAskedFor(v, vacancy, p, m)
  {
    var m := ComputeMatch(v, vacancy, p, asOf);
    ListedRows(v, vacancy, p, asOf);
    ExperiencesMeaning(v, vacancy, Trusted(OfExperience, p.experiences));
    ProjectsMeaning(v, vacancy, Trusted(OfProject, p.projects));
    EducationRows(vacancy, Trusted(OfEducation, p.education));
    LanguageRows(v, vacancy, Trusted(OfLanguage, p.languages));
    hide ComputeMatch, Picks, Selects, IsRelevant, NamedIn, AskedFor, Trusted, SortsSets, RelevantExperiences, RelevantProjects;
  }

  function CompletedIf(vacancy: Vacancy, rows: seq<Education>): seq<Education> {
    if vacancy.education.None? then [] else Filter((row: Education) => row.completed, rows)
  }

  function WantedLanguages(v: Vocabulary, vacancy: Vacancy, rows: seq<Language>): seq<Language> {
    var wanted := set k | 0 <= k < |vacancy.languages| :: vacancy.languages[k].language;
    Filter((row: Language) =>
      v.canonicalLanguage(row.language).Some? && v.canonicalLanguage(row.language).value in wanted, rows)
  }

  lemma ListedRows(v: Vocabulary, vacancy: Vacancy, p: Profile, asOf: int)
    ensures var m := ComputeMatch(v, vacancy, p, asOf);
      && m.jobId == vacancy.jobId && m.version == p.version
      && m.experiences == RelevantExperiences(v, Trusted(OfExperience, p.experiences), NamedSkills(v, vacancy))
      && m.projects == RelevantProjects(v, Trusted(OfProject, p.projects), NamedSkills(v, vacancy))
      && m.education == CompletedIf(vacancy, Trusted(OfEducation, p.education))
      && m.languages == WantedLanguages(v, vacancy, Trusted(OfLanguage, p.languages))
  {
    hide AllRequirements, Trusted, RelevantExperiences, RelevantProjects, Filter, SupportScore, OverallScore, CoverageScore,
      RequiredScore, PreferredScore, WithStatus, AddAll, RequirementClaims, RowClaims, RequirementWarnings;
  }

  lemma EducationRows(vacancy: Vacancy, rows: seq<Education>)
    ensures Selects(CompletedIf(vacancy, rows), rows, (row: Education) => vacancy.education.Some? && row.completed)
  {
    var keep := (row: Education) => vacancy.education.Some? && row.completed;
    if vacancy.education.None? {
      assert PicksAt([], rows, keep, (row: Education) => row, []);
    } else {
      FilterSelects((row: Education) => row.completed, rows);
      SelectsSame(CompletedIf(vacancy, rows), rows, (row: Education) => row.completed, keep);
    }
  }

  lemma LanguageRows(v: Vocabulary, vacancy: Vacancy, rows: seq<Language>)
    ensures Selects(WantedLanguages(v, vacancy, rows), rows, (row: Language) => AskedFor(v, vacancy, row))
  {
    var wanted := set k | 0 <= k < |vacancy.languages| :: vacancy.languages[k].language;
    var keep := (row: Language) =>
      v.canonicalLanguage(row.language).Some? && v.canonicalLanguage(row.language).value in wanted;
    assert WantedLanguages(v, vacancy, rows) == Filter(keep, rows);
    FilterSelects(keep, rows);
    SelectsSame(Filter(keep, rows), rows, keep, (row: Language) => AskedFor(v, vacancy, row));
  }

  // ---------------------------------------------------------------- support

  /** The requirement stands in one of the four lists. */
  ghost predicate InMatch(m: Match, q: Requirement) {
    q in m.matched || q in m.partials || q in m.missing || q in m.unknown
  }

  ghost predicate IsSingleRequired(m: Match, name: string) {
    exists q :: InMatch(m, q) && q.kind == SKILL && q.importance == REQUIRED && q.normalized == name
      && !("group:" <= name)
  }

  ghost predicate ListsName(v: Vocabulary, row: RelevantRow, name: string) {
    exists j :: 0 <= j < |row.matchedSkills| && v.normalize(row.matchedSkills[j]) == name
  }

  /** A relevant experience or project lists a technology of this name. */
  ghost predicate IsBacked(v: Vocabulary, m: Match, name: string) {
    exists row :: (row in m.experiences || row in m.projects) && ListsName(v, row, name)
  }

  /** `required` are the single required skills, `backed` those of them some relevant row backs,
      and `base` is their share. */
  ghost predicate IsSupportBase(v: Vocabulary, m: Match, required: set<string>, backed: set<string>, base: nat) {
    && (forall name :: name in required <==> IsSingleRequired(m, name))
    && (forall name :: name in backed <==> name in required && IsBacked(v, m, name))
    && IsShare(|backed| as real, |required| as real, 50, base)
  }

  ghost predicate HasExperience(requirements: seq<Requirement>) {
    exists k :: 0 <= k < |requirements| && requirements[k].kind == EXPERIENCE
  }

  /** The share stands when no years of experience are asked for or they match, is halved when
      they are partly met, and is lost otherwise. */
  ghost predicate IsSupport(v: Vocabulary, vacancy: Vacancy, m: Match) {
    exists required, backed, base: nat ::
      && IsSupportBase(v, m, required, backed, base)
      && if vacancy.experience.None? || HasExperience(m.matched) then m.support == base
         else if HasExperience(m.partials) then Nearest(base as real / 2.0, m.support)
         else m.support == 0
  }

  lemma SupportOf(v: Vocabulary, vacancy: Vacancy, p: Profile, asOf: int)
    ensures var m, all := ComputeMatch(v, vacancy, p, asOf), AllRequirements(v, vacancy, UsableFacts(p), asOf);
      m.support == SupportScore(RequiredSkills(all), Backed(v, m.experiences + m.projects),
                                Statuses(ExperienceMatch(v, vacancy, UsableFacts(p), asOf)))
  {
    hide AllRequirements, UsableFacts, RelevantExperiences, RelevantProjects, Filter, SupportScore, OverallScore,
      CoverageScore, RequiredScore, PreferredScore, WithStatus, AddAll, RequirementClaims, RowClaims, RequirementWarnings,
      ExperienceMatch;
  }

  lemma WithStatusMember(all: seq<Requirement>, status: Status, q: Requirement)
    ensures q in WithStatus(all, status) <==> q in all && q.status == status
  {
    FilterMember((r: Requirement) => r.status == status, all, q);
  }

  lemma InMatchMeaning(v: Vocabulary, vacancy: Vacancy, p: Profile, asOf: int, q: Requirement)
    ensures InMatch(ComputeMatch(v, vacancy, p, asOf), q) <==> q in AllRequirements(v, vacancy, UsableFacts(p), asOf)
  {
    hide ComputeMatch, AllRequirements, WithStatus, UsableFacts;
    var all := AllRequirements(v, vacancy, UsableFacts(p), asOf);
    ListsOf(v, vacancy, p, asOf);
    WithStatusMember(all, MATCH, q);
    WithStatusMember(all, PARTIAL, q);
    WithStatusMember(all, MISSING, q);
    WithStatusMember(all, UNKNOWN, q);
  }

  lemma RequiredMeaning(v: Vocabulary, vacancy: Vacancy, p: Profile, asOf: int, name: string)
    ensures name in RequiredSkills(AllRequirements(v, vacancy, UsableFacts(p), asOf))
      <==> IsSingleRequired(ComputeMatch(v, vacancy, p, asOf), name)
  {
    hide ComputeMatch, AllRequirements, UsableFacts, InMatch;
    var all := AllRequirements(v, vacancy, UsableFacts(p), asOf);
    forall q ensures InMatch(ComputeMatch(v, vacancy, p, asOf), q) <==> q in all {
      InMatchMeaning(v, vacancy, p, asOf, q);
    }
    if name in RequiredSkills(all) {
      var k :| 0 <= k < |all| && all[k].kind == SKILL && all[k].importance == REQUIRED
        && !("group:" <= all[k].normalized) && all[k].normalized == name;
      assert all[k] in all;
    }
  }

  lemma BackedMeaning(v: Vocabulary, m: Match, name: string)
    ensures name in Backed(v, m.experiences + m.projects) <==> IsBacked(v, m, name)
  {
    var rows := m.experiences + m.projects;
    forall row: RelevantRow ensures name in Norms(v, row.matchedSkills) <==> ListsName(v, row, name) {
    }
    hide ListsName, Norms;
    if name in Backed(v, rows) {
      var k :| 0 <= k < |rows| && name in Norms(v, rows[k].matchedSkills);
      assert rows[k] in rows;
    }
    if row :| (row in m.experiences || row in m.projects) && ListsName(v, row, name) {
      assert row in rows;
      var k :| 0 <= k < |rows| && rows[k] == row;
    }
  }

  lemma SupportBaseMeaning(v: Vocabulary, vacancy: Vacancy, p: Profile, asOf: int, base: nat)
    requires var m, all := ComputeMatch(v, vacancy, p, asOf), AllRequirements(v, vacancy, UsableFacts(p), asOf);
      base == SupportScore(RequiredSkills(all), Backed(v, m.experiences + m.projects), [])
    ensures var m, all := ComputeMatch(v, vacancy, p, asOf), AllRequirements(v, vacancy, UsableFacts(p), asOf);
      IsSupportBase(v, m, RequiredSkills(all), Backed(v, m.experiences + m.projects) * RequiredSkills(all), base)
  {
    hide ComputeMatch, AllRequirements, UsableFacts, Backed, RequiredSkills, IsSingleRequired, IsBacked, Nearest, RoundHalfEven;
    var m, all := ComputeMatch(v, vacancy, p, asOf), AllRequirements(v, vacancy, UsableFacts(p), asOf);
    var required, backing := RequiredSkills(all), Backed(v, m.experiences + m.projects);
    forall name
      ensures name in required <==> IsSingleRequired(m, name)
      ensures name in backing <==> IsBacked(v, m, name)
    {
      RequiredMeaning(v, vacancy, p, asOf, name);
      BackedMeaning(v, m, name);
    }
    if required != {} {
      ShareOfMean(100 * |backing * required|, |required|, |backing * required| as real, |required| as real);
    }
  }

  lemma OtherKinds(v: Vocabulary, vacancy: Vacancy, facts: Facts)
    ensures forall q :: q in MatchSkills(v, vacancy.skills, facts.skills) ==> q.kind == SKILL
    ensures forall q :: q in MatchCategories(v, vacancy.categories, facts.skills) ==> q.kind == SKILL
    ensures forall q :: q in MatchLanguages(v, vacancy.languages, facts.languages) ==> q.kind == LANGUAGE
    ensures forall q :: q in UnevaluatedAll(vacancy.unevaluated) ==> q.kind == OTHER
    ensures vacancy.education.Some? ==> MatchEducation(v, vacancy.education.value, facts.education).kind == EDUCATION
  {
  }

  /** Of the listed requirements, only the one on experience is of its kind. */
  lemma OnlyExperience(v: Vocabulary, vacancy: Vacancy, facts: Facts, asOf: int, q: Requirement)
    ensures q in AllRequirements(v, vacancy, facts, asOf) && q.kind == EXPERIENCE <==>
      vacancy.experience.Some? && q == MatchExperience(v, vacancy.experience.value, facts.experiences, asOf)
  {
    OtherKinds(v, vacancy, facts);
    assert vacancy.experience.Some? ==>
      MatchExperience(v, vacancy.experience.value, facts.experiences, asOf).kind == EXPERIENCE;
    hide MatchSkills, MatchCategories, MatchLanguages, MatchEducation, MatchExperience, UnevaluatedAll;
  }

  lemma HasExperienceMeaning(v: Vocabulary, vacancy: Vacancy, p: Profile, asOf: int, status: Status)
    requires vacancy.experience.Some?
    ensures var all := AllRequirements(v, vacancy, UsableFacts(p), asOf);
      HasExperience(WithStatus(all, status)) <==>
        MatchExperience(v, vacancy.experience.value, UsableFacts(p).experiences, asOf).status == status
  {
    hide AllRequirements, UsableFacts, MatchExperience;
    var all := AllRequirements(v, vacancy, UsableFacts(p), asOf);
    var own := MatchExperience(v, vacancy.experience.value, UsableFacts(p).experiences, asOf);
    var found := WithStatus(all, status);
    forall q ensures q in found <==> q in all && q.status == status {
      WithStatusMember(all, status, q);
    }
    forall q ensures q in all && q.kind == EXPERIENCE <==> q == own {
      OnlyExperience(v, vacancy, UsableFacts(p), asOf, q);
    }
    hide WithStatus;
    if k :| 0 <= k < |found| && found[k].kind == EXPERIENCE {
      assert found[k] in found;
    }
    if own.status == status {
      assert own in found;
    }
  }

  /** The support score. */
  lemma SupportMeaning(v: Vocabulary, vacancy: Vacancy, p: Profile, asOf: int)
    ensures IsSupport(v, vacancy, ComputeMatch(v, vacancy, p, asOf))
  {
    var m, all := ComputeMatch(v, vacancy, p, asOf), AllRequirements(v, vacancy, UsableFacts(p), asOf);
    ListsOf(v, vacancy, p, asOf);
    SupportOf(v, vacancy, p, asOf);
    hide ComputeMatch, AllRequirements, UsableFacts, Backed, RequiredSkills, IsSupportBase, Nearest, HasExperience,
      WithStatus, MatchExperience;
    var required, backing := RequiredSkills(all), Backed(v, m.experiences + m.projects);
    var base := SupportScore(required, backing, []);
    SupportBaseMeaning(v, vacancy, p, asOf, base);
    if vacancy.experience.Some? {
      HasExperienceMeaning(v, vacancy, p, asOf, MATCH);
      HasExperienceMeaning(v, vacancy, p, asOf, PARTIAL);
      var status := MatchExperience(v, vacancy.experience.value, UsableFacts(p).experiences, asOf).status;
      ScaledSupport(required, backing, status);
    }
  }

  lemma ScaledSupport(required: set<string>, backing: set<string>, status: Status)
    ensures var base, support := SupportScore(required, backing, []), SupportScore(required, backing, [status]);
      && (status == MATCH ==> support == base)
      && (status == PARTIAL ==> Nearest(base as real / 2.0, support))
      && (status == MISSING || status == UNKNOWN ==> support == 0)
  {
    var base := SupportScore(required, backing, []);
    RoundExact(base, 2);
    RoundIsNearestReal(base, 2);
    RoundExact(0, 2);
    hide RoundHalfEven, Nearest;
    assert base * 1 == base && base * 0 == 0 * 2;
  }

  // ---------------------------------------------------------------- claims

  predicate SameSource(a: Claim, b: Claim) {
    a.kind == b.kind && a.id == b.id
  }

  /** `result` are the first claims of each source in `offered`. */
  ghost predicate FirstOfEach(result: seq<Claim>, offered: seq<Claim>) {
    && (forall i, j :: 0 <= i < j < |result| ==> !SameSource(result[i], result[j]))
    && (forall c :: c in result <==> IsFirst(offered, c))
  }

  ghost predicate IsFirst(offered: seq<Claim>, c: Claim) {
    exists k :: 0 <= k < |offered| && offered[k] == c && forall j :: 0 <= j < k ==> !SameSource(offered[j], c)
  }

  lemma FirstAppend(offered: seq<Claim>, next: Claim, c: Claim)
    ensures IsFirst(offered + [next], c) <==>
      IsFirst(offered, c) || (c == next && forall j :: 0 <= j < |offered| ==> !SameSource(offered[j], next))
  {
    var all, n := offered + [next], |offered|;
    assert forall j :: 0 <= j < n ==> all[j] == offered[j];
    assert all[n] == next;
    if IsFirst(all, c) {
      var k :| 0 <= k < |all| && all[k] == c && forall j :: 0 <= j < k ==> !SameSource(all[j], c);
      if k == n {
        assert forall j :: 0 <= j < n ==> !SameSource(offered[j], next);
      } else {
        assert offered[k] == c && forall j :: 0 <= j < k ==> !SameSource(offered[j], c);
      }
    }
    if IsFirst(offered, c) {
      var k :| 0 <= k < n && offered[k] == c && forall j :: 0 <= j < k ==> !SameSource(offered[j], c);
      assert all[k] == c && forall j :: 0 <= j < k ==> !SameSource(all[j], c);
    }
  }

  /** Among claims of one source there is a first. */
  lemma {:induction false} SomeFirst(offered: seq<Claim>, k: nat) returns (first: Claim)
    requires k < |offered|
    ensures IsFirst(offered, first) && SameSource(first, offered[k])
  {
    if j :| 0 <= j < k && SameSource(offered[j], offered[k]) {
      first := SomeFirst(offered, j);
    } else {
      first := offered[k];
    }
  }

  lemma AddMeaning(claims: seq<Claim>, offered: seq<Claim>, next: Claim)
    requires FirstOfEach(claims, offered)
    ensures FirstOfEach(Add(claims, next), offered + [next])
  {
    forall c
      ensures IsFirst(offered + [next], c) <==>
        IsFirst(offered, c) || (c == next && forall j :: 0 <= j < |offered| ==> !SameSource(offered[j], next))
    {
      FirstAppend(offered, next, c);
    }
    if k: nat :| k < |offered| && SameSource(offered[k], next) {
      var first := SomeFirst(offered, k);
      assert first in claims;
      var i :| 0 <= i < |claims| && claims[i] == first;
      assert Add(claims, next) == claims;
    } else {
      forall i | 0 <= i < |claims|
        ensures !SameSource(claims[i], next)
      {
        assert claims[i] in claims && IsFirst(offered, claims[i]);
      }
      assert Add(claims, next) == claims + [next];
    }
  }

  lemma {:induction false} AddAllMeaning(claims: seq<Claim>, offered: seq<Claim>, more: seq<Claim>)
    requires FirstOfEach(claims, offered)
    ensures FirstOfEach(AddAll(claims, more), offered + more)
    decreases more
  {
    hide FirstOfEach, Add;
    if more == [] {
      assert offered + more == offered;
    } else {
      AddMeaning(claims, offered, more[0]);
      AddAllMeaning(Add(claims, more[0]), offered + [more[0]], more[1..]);
      assert offered + [more[0]] + more[1..] == offered + more;
    }
  }

  /** The claim states a profile row that is evidence of a matched, partly matched or unknown requirement. */
  ghost predicate StatesEvidence(m: Match, c: Claim) {
    exists q, e :: CitesFact(m, q, e) && c == Claim(e.kind, e.value, e.id, m.version)
  }

  ghost predicate CitesFact(m: Match, q: Requirement, e: EvidenceRef) {
    && (q in m.matched || q in m.partials || q in m.unknown)
    && e in q.evidence && e.kind in {SKILL, LANGUAGE, EDUCATION}
  }

  const LEVEL_NAMES := {
    (A1, "A1"), (A2, "A2"), (B1, "B1"), (B2, "B2"), (C1, "C1"), (C2, "C2"), (NATIVE, "NATIVE"), (UNKNOWN_LEVEL, "UNKNOWN")}

  /** The claim states a row the match lists. */
  ghost predicate StatesRow(m: Match, c: Claim) {
    || (exists r :: r in m.experiences && c == Claim(EXPERIENCE, r.title + " at " + r.place, r.id, m.version))
    || (exists r :: r in m.projects && c == Claim(PROJECT, r.title, r.id, m.version))
    || (exists row :: row in m.education && c == Claim(EDUCATION, row.institution, row.id, m.version))
    || (exists row, name :: StatesLanguage(m, c, row, name))
  }

  ghost predicate StatesLanguage(m: Match, c: Claim, row: Language, name: string) {
    && row in m.languages && (row.level, name) in LEVEL_NAMES
    && c == Claim(LANGUAGE, row.language + " (" + name + ")", row.id, m.version)
  }

  /** One claim for each row used: as evidence, or else as a listed row. */
  ghost predicate ClaimsAreSafe(m: Match) {
    && (forall i, j :: 0 <= i < j < |m.claims| ==> !SameSource(m.claims[i], m.claims[j]))
    && (forall c :: c in m.claims ==>
          StatesEvidence(m, c) || (StatesRow(m, c) && forall d :: StatesEvidence(m, d) ==> !SameSource(d, c)))
    && (forall d :: StatesEvidence(m, d) || StatesRow(m, d) ==> exists c :: c in m.claims && SameSource(c, d))
  }

  function EvidenceOffers(m: Match): seq<Claim> {
    RequirementClaims(m.matched + m.partials + m.unknown, m.version)
  }

  function RowOffers(m: Match): seq<Claim> {
    RowClaims(EXPERIENCE, m.experiences, m.version) + RowClaims(PROJECT, m.projects, m.version)
    + EducationClaims(m.education, m.version) + LanguageClaims(m.languages, m.version)
  }

  lemma {:induction false} RefClaimsMeaning(refs: seq<EvidenceRef>, version: int, c: Claim)
    ensures c in RefClaims(refs, version) <==>
      exists e :: e in refs && e.kind in {SKILL, LANGUAGE, EDUCATION} && c == Claim(e.kind, e.value, e.id, version)
  {
    if refs != [] {
      var n := |refs| - 1;
      assert refs == refs[..n] + [refs[n]];
      RefClaimsMeaning(refs[..n], version, c);
    }
  }

  ghost predicate Cites(requirements: seq<Requirement>, version: int, c: Claim) {
    exists q, e :: q in requirements && e in q.evidence && e.kind in {SKILL, LANGUAGE, EDUCATION}
      && c == Claim(e.kind, e.value, e.id, version)
  }

  lemma {:induction false} RequirementClaimsMeaning(requirements: seq<Requirement>, version: int, c: Claim)
    ensures c in RequirementClaims(requirements, version) <==> Cites(requirements, version, c)
  {
    if requirements != [] {
      var n := |requirements| - 1;
      assert requirements == requirements[..n] + [requirements[n]];
      RequirementClaimsMeaning(requirements[..n], version, c);
      RefClaimsMeaning(requirements[n].evidence, version, c);
      hide RefClaims;
    }
  }

  lemma EvidenceOffersMeaning(m: Match, c: Claim)
    ensures c in EvidenceOffers(m) <==> StatesEvidence(m, c)
  {
    var requirements := m.matched + m.partials + m.unknown;
    RequirementClaimsMeaning(requirements, m.version, c);
    hide RequirementClaims;
    if Cites(requirements, m.version, c) {
      var q, e :| q in requirements && e in q.evidence && e.kind in {SKILL, LANGUAGE, EDUCATION}
        && c == Claim(e.kind, e.value, e.id, m.version);
      assert CitesFact(m, q, e);
    }
    if StatesEvidence(m, c) {
      var q, e :| CitesFact(m, q, e) && c == Claim(e.kind, e.value, e.id, m.version);
      assert q in requirements;
    }
  }

  lemma LevelNamesMeaning(level: Level, name: string)
    ensures (level, name) in LEVEL_NAMES <==> name == LevelText(level)
  {
  }

  lemma RowOffersMeaning(m: Match, c: Claim)
    ensures c in RowOffers(m) <==> StatesRow(m, c)
  {
    var a, b := RowClaims(EXPERIENCE, m.experiences, m.version), RowClaims(PROJECT, m.projects, m.version);
    var d, f := EducationClaims(m.education, m.version), LanguageClaims(m.languages, m.version);
    assert c in RowOffers(m) <==> c in a || c in b || c in d || c in f;
    assert c in a <==> exists r :: r in m.experiences && c == Claim(EXPERIENCE, r.title + " at " + r.place, r.id, m.version) by {
      if c in a {
        var k :| 0 <= k < |a| && a[k] == c;
        assert m.experiences[k] in m.experiences;
      }
      if r :| r in m.experiences && c == Claim(EXPERIENCE, r.title + " at " + r.place, r.id, m.version) {
        var k :| 0 <= k < |m.experiences| && m.experiences[k] == r;
        assert a[k] == c;
      }
    }
    assert c in b <==> exists r :: r in m.projects && c == Claim(PROJECT, r.title, r.id, m.version) by {
      if c in b {
        var k :| 0 <= k < |b| && b[k] == c;
        assert m.projects[k] in m.projects;
      }
      if r :| r in m.projects && c == Claim(PROJECT, r.title, r.id, m.version) {
        var k :| 0 <= k < |m.projects| && m.projects[k] == r;
        assert b[k] == c;
      }
    }
    assert c in d <==> exists row :: row in m.education && c == Claim(EDUCATION, row.institution, row.id, m.version) by {
      if row :| row in m.education && c == Claim(EDUCATION, row.institution, row.id, m.version) {
        var k :| 0 <= k < |m.education| && m.education[k] == row;
        assert d[k] == c;
      }
    }
    LanguageClaimsMeaning(m, c);
  }

  lemma LanguageClaimsMeaning(m: Match, c: Claim)
    ensures c in LanguageClaims(m.languages, m.version) <==>
      exists row, name :: StatesLanguage(m, c, row, name)
  {
    var f := LanguageClaims(m.languages, m.version);
    if c in f {
      var k :| 0 <= k < |f| && f[k] == c;
      var row := m.languages[k];
      LevelNamesMeaning(row.level, LevelText(row.level));
      assert StatesLanguage(m, c, row, LevelText(row.level));
    }
    if row, name :| StatesLanguage(m, c, row, name) {
      LevelNamesMeaning(row.level, name);
      var k :| 0 <= k < |m.languages| && m.languages[k] == row;
      assert f[k] == c;
    }
  }

  lemma ClaimsOf(v: Vocabulary, vacancy: Vacancy, p: Profile, asOf: int)
    ensures var m := ComputeMatch(v, vacancy, p, asOf);
      m.claims == AddAll([], EvidenceOffers(m) + RowOffers(m))
  {
    hide AllRequirements, UsableFacts, RelevantExperiences, RelevantProjects, Filter, SupportScore, OverallScore,
      CoverageScore, RequiredScore, PreferredScore, WithStatus, AddAll, RequirementClaims, RowClaims, RequirementWarnings;
    var m := ComputeMatch(v, vacancy, p, asOf);
    var a, b := RowClaims(EXPERIENCE, m.experiences, m.version), RowClaims(PROJECT, m.projects, m.version);
    assert EvidenceOffers(m) + RowOffers(m) == EvidenceOffers(m) + a + b + EducationClaims(m.education, m.version)
      + LanguageClaims(m.languages, m.version);
  }

  lemma SafeClaims(m: Match)
    requires m.claims == AddAll([], EvidenceOffers(m) + RowOffers(m))
    ensures ClaimsAreSafe(m)
  {
    var cited, listed := EvidenceOffers(m), RowOffers(m);
    AddAllMeaning([], [], cited + listed);
    assert [] + (cited + listed) == cited + listed;
    forall c
      ensures c in cited <==> StatesEvidence(m, c)
      ensures c in listed <==> StatesRow(m, c)
    {
      EvidenceOffersMeaning(m, c);
      RowOffersMeaning(m, c);
    }
    hide AddAll, EvidenceOffers, RowOffers, StatesEvidence, StatesRow, FirstOfEach, SameSource;
    FirstClaims(m.claims, cited, listed);
    assert forall i, j :: 0 <= i < j < |m.claims| ==> !SameSource(m.claims[i], m.claims[j]) by {
      DistinctSources(m.claims, cited + listed);
    }
  }

  lemma DistinctSources(result: seq<Claim>, offered: seq<Claim>)
    requires FirstOfEach(result, offered)
    ensures forall i, j :: 0 <= i < j < |result| ==> !SameSource(result[i], result[j])
  {
  }

  lemma FirstClaims(result: seq<Claim>, cited: seq<Claim>, listed: seq<Claim>)
    requires FirstOfEach(result, cited + listed)
    ensures forall c :: c in result ==> c in cited || (c in listed && forall d :: d in cited ==> !SameSource(d, c))
    ensures forall d :: d in cited || d in listed ==> exists c :: c in result && SameSource(c, d)
  {
    var offered := cited + listed;
    hide SameSource;
    forall c | c in result
      ensures c in cited || (c in listed && forall d :: d in cited ==> !SameSource(d, c))
    {
      var k :| 0 <= k < |offered| && offered[k] == c && forall j :: 0 <= j < k ==> !SameSource(offered[j], c);
      if k >= |cited| {
        forall d | d in cited ensures !SameSource(d, c) {
          var j :| 0 <= j < |cited| && cited[j] == d;
          assert offered[j] == d;
        }
      }
    }
    forall d | d in cited || d in listed
      ensures exists c :: c in result && SameSource(c, d)
    {
      assert d in offered;
      var k: nat :| k < |offered| && offered[k] == d;
      var first := SomeFirst(offered, k);
      assert first in result;
    }
  }

  /** The claims of a computed match. */
  lemma ClaimsMeaning(v: Vocabulary, vacancy: Vacancy, p: Profile, asOf: int)
    ensures ClaimsAreSafe(ComputeMatch(v, vacancy, p, asOf))
  {
    hide ComputeMatch, ClaimsAreSafe, AddAll;
    ClaimsOf(v, vacancy, p, asOf);
    SafeClaims(ComputeMatch(v, vacancy, p, asOf));
  }

  // ---------------------------------------------------------------- warnings

  /** What is warned about. */
  ghost predicate Warns(vacancy: Vacancy, p: Profile, m: Match, w: Warning) {
    || (exists q :: q in m.missing && q.importance == REQUIRED && w == MissingRequired(q.kind, q.text))
    || (exists q :: q in m.unknown && q.importance == REQUIRED && w == UnknownRequired(q.kind, q.text))
    || (w == NoConfirmedFacts && Trusted(OfSkill, p.skills) == [] && Trusted(OfExperience, p.experiences) == []
        && Trusted(OfEducation, p.education) == [] && Trusted(OfProject, p.projects) == []
        && Trusted(OfLanguage, p.languages) == [])
    || (vacancy.unstored != [] && w == UnstoredSkills(vacancy.unstored))
  }

  lemma {:induction false} RequirementWarningsMeaning(all: seq<Requirement>, w: Warning)
    ensures w in RequirementWarnings(all) <==>
      exists q :: q in all && q.importance == REQUIRED
        && ((q.status == MISSING && w == MissingRequired(q.kind, q.text))
            || (q.status == UNKNOWN && w == UnknownRequired(q.kind, q.text)))
  {
    if all != [] {
      var n := |all| - 1;
      assert all == all[..n] + [all[n]];
      RequirementWarningsMeaning(all[..n], w);
    }
  }

  lemma WarningsOf(v: Vocabulary, vacancy: Vacancy, p: Profile, asOf: int)
    ensures ComputeMatch(v, vacancy, p, asOf).warnings ==
      RequirementWarnings(AllRequirements(v, vacancy, UsableFacts(p), asOf))
      + (if UsableFacts(p) == Facts([], [], [], [], []) then [NoConfirmedFacts] else [])
      + (if vacancy.unstored == [] then [] else [UnstoredSkills(vacancy.unstored)])
  {
    hide AllRequirements, UsableFacts, RelevantExperiences, RelevantProjects, Filter, SupportScore, OverallScore,
      CoverageScore, RequiredScore, PreferredScore, WithStatus, AddAll, RequirementClaims, RowClaims, RequirementWarnings;
  }

  /** The warnings of a computed match. */
  lemma WarningsMeaning(v: Vocabulary, vacancy: Vacancy, p: Profile, asOf: int, w: Warning)
    ensures w in ComputeMatch(v, vacancy, p, asOf).warnings <==> Warns(vacancy, p, ComputeMatch(v, vacancy, p, asOf), w)
  {
    var m, all := ComputeMatch(v, vacancy, p, asOf), AllRequirements(v, vacancy, UsableFacts(p), asOf);
    WarningsOf(v, vacancy, p, asOf);
    ListsOf(v, vacancy, p, asOf);
    RequirementWarningsMeaning(all, w);
    hide ComputeMatch, AllRequirements, Trusted, WithStatus, RequirementWarnings;
    forall q
      ensures q in m.missing <==> q in all && q.status == MISSING
      ensures q in m.unknown <==> q in all && q.status == UNKNOWN
    {
      WithStatusMember(all, MISSING, q);
      WithStatusMember(all, UNKNOWN, q);
    }
  }
}
