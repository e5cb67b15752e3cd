/** The CV draft of `app/agents/cv_adapter.py`: what a pinned match and the
    profile put into a CV for one vacancy. */
module CvAdapter {
  import opened CandidateMatcher
  import opened CandidateProfile
  import opened CandidateTrust
  import opened MatchModel
  import opened PythonText
  import opened Sequences
  import opened Sorting
  import opened Wrappers

  datatype CvFact = CvFact(value: string, sourceId: int, field: TopField, version: int)

  datatype CvSkill = CvSkill(
    text: string, category: string, proficiency: string, years: Option<real>, sourceId: int, requirement: string,
    importance: Importance)

  datatype CvExperience = CvExperience(
    sourceId: int, company: string, jobTitle: string, startDate: Option<int>, endDate: Option<int>, isCurrent: bool,
    location: string, description: string, responsibilities: seq<string>, achievements: seq<string>,
    technologies: seq<string>, matchedSkills: seq<string>, highlighted: bool)

  datatype CvProject = CvProject(
    sourceId: int, name: string, description: string, role: string, technologies: seq<string>,
    repositoryUrl: Option<string>, demoUrl: Option<string>, startDate: Option<int>, endDate: Option<int>,
    highlights: seq<string>, matchedSkills: seq<string>)

  datatype CvLanguage = CvLanguage(
    sourceId: int, language: string, level: Level, certificate: string, requirement: Option<string>,
    status: Option<Status>)

  datatype CvWarning =
    | NoTrustedName | NoTrustedTitle | NoRelevantSkills | NoRelevantExperience | NoMatchRelevantExperience
    | NoRelevantProjects | NoTrustedEducation | NoTrustedLanguages | ContactDataNotModeled

  datatype Draft = Draft(
    jobId: int, version: int, header: map<TopField, CvFact>, summary: Option<CvFact>, projectsFirst: bool,
    skills: seq<CvSkill>, experience: seq<CvExperience>, projects: seq<CvProject>, education: seq<Education>,
    certifications: seq<Certification>, languages: seq<CvLanguage>, warnings: seq<CvWarning>)

  // ---------------------------------------------------------------- header

  /** `_top_level_fact`: usable, and not blank once stripped. */
  function TopLevelFact(p: Profile, field: TopField): Option<CvFact> {
    if field !in p.facts || !UsableFact(p.facts[field]) || Strip(p.facts[field].value) == "" then None
    else Some(CvFact(Strip(p.facts[field].value), p.id, field, p.version))
  }

  function Header(p: Profile): map<TopField, CvFact> {
    map field: TopField | field != ProfessionalSummary && TopLevelFact(p, field).Some? :: TopLevelFact(p, field).value
  }

  // ---------------------------------------------------------------- skills

  function OrderOf(importance: Importance): nat {
    match importance
    case REQUIRED => 0
    case PREFERRED => 1
    case UNSTATED => 2
  }

  function ImportanceRank(r: Requirement): int {
    OrderOf(r.importance)
  }

  function MatchedSkills(m: Match): seq<Requirement> {
    Filter((r: Requirement) => r.kind == SKILL && r.status == MATCH, m.matched)
  }

  /** The line of one matched requirement; a row that cannot be found gives none. */
  function SkillLine(p: Profile, r: Requirement): seq<CvSkill> {
    if r.evidence == [] then []
    else
      var row := RowWithId(SkillId, p.skills, r.evidence[0].id);
      if row.None? then []
      else [CvSkill(row.value.name, row.value.category, row.value.proficiency, row.value.years, row.value.id, r.text,
                    r.importance)]
  }

  function SkillLines(p: Profile, requirements: seq<Requirement>): seq<CvSkill> {
    if requirements == [] then []
    else
      var n := |requirements| - 1;
      SkillLines(p, requirements[..n]) + SkillLine(p, requirements[n])
  }

  function SelectedSkills(p: Profile, m: Match): seq<CvSkill> {
    SkillLines(p, SortBy(ImportanceRank, MatchedSkills(m)))
  }

  /** `_select_skills`, as the loop the source runs. */
  method SelectSkills(p: Profile, m: Match) returns (items: seq<CvSkill>)
    ensures items == SelectedSkills(p, m)
  {
    var ordered := SortBy(ImportanceRank, MatchedSkills(m));
    items := [];
    for k := 0 to |ordered|
      invariant items == SkillLines(p, ordered[..k])
    {
      assert ordered[..k + 1][..k] == ordered[..k];
      var r := ordered[k];
      if r.evidence == [] {
        continue;
      }
      var row := RowWithId(SkillId, p.skills, r.evidence[0].id);
      if row.None? {
        continue;
      }
      items := items + [CvSkill(row.value.name, row.value.category, row.value.proficiency, row.value.years,
                                row.value.id, r.text, r.importance)];
    }
    assert ordered[..|ordered|] == ordered;
  }

  /** Required skills come first, then preferred ones, then the others. */
  predicate RequiredFirst(items: seq<CvSkill>) {
    forall i, j :: 0 <= i < j < |items| ==> OrderOf(items[i].importance) <= OrderOf(items[j].importance)
  }

  lemma {:induction false} LineHasRequirement(p: Profile, requirements: seq<Requirement>, k: nat)
    requires k < |SkillLines(p, requirements)|
    ensures exists j :: 0 <= j < |requirements| && requirements[j].importance == SkillLines(p, requirements)[k].importance
  {
    var n := |requirements| - 1;
    if k < |SkillLines(p, requirements[..n])| {
      LineHasRequirement(p, requirements[..n], k);
      var j :| 0 <= j < n && requirements[..n][j].importance == SkillLines(p, requirements[..n])[k].importance;
      assert requirements[j].importance == SkillLines(p, requirements)[k].importance;
    } else {
      assert requirements[n].importance == SkillLines(p, requirements)[k].importance;
    }
  }

  lemma {:induction false} LinesInOrder(p: Profile, requirements: seq<Requirement>)
    requires Ordered(ImportanceRank, requirements)
    ensures RequiredFirst(SkillLines(p, requirements))
  {
    if requirements != [] {
      var n := |requirements| - 1;
      LinesInOrder(p, requirements[..n]);
      var before := SkillLines(p, requirements[..n]);
      forall k | 0 <= k < |before|
        ensures OrderOf(before[k].importance) <= OrderOf(requirements[n].importance)
      {
        LineHasRequirement(p, requirements[..n], k);
        var j :| 0 <= j < n && requirements[..n][j].importance == before[k].importance;
        assert ImportanceRank(requirements[j]) <= ImportanceRank(requirements[n]);
      }
    }
  }

  lemma SkillsRequiredFirst(p: Profile, m: Match)
    ensures RequiredFirst(SelectedSkills(p, m))
  {
    SortFacts(ImportanceRank, MatchedSkills(m));
    LinesInOrder(p, SortBy(ImportanceRank, MatchedSkills(m)));
  }

  // ---------------------------------------------------------------- projects

  predicate MoreMatched(a: RelevantRow, b: RelevantRow) {
    |a.matchedSkills| > |b.matchedSkills|
  }

  function ProjectLine(p: Profile, relevant: RelevantRow): seq<CvProject> {
    var row := RowWithId(ProjectId, p.projects, relevant.id);
    if row.None? then []
    else
      var x := row.value;
      [CvProject(x.id, x.name, x.description, x.role, x.technologies, x.repositoryUrl, x.demoUrl, x.startDate, x.endDate,
                 x.highlights, relevant.matchedSkills)]
  }

  function ProjectLines(p: Profile, relevant: seq<RelevantRow>): seq<CvProject> {
    if relevant == [] then []
    else
      var n := |relevant| - 1;
      ProjectLines(p, relevant[..n]) + ProjectLine(p, relevant[n])
  }

  function SelectedProjects(p: Profile, m: Match): seq<CvProject> {
    ProjectLines(p, SortWith(MoreMatched, m.projects))
  }

  /** `_select_projects`, as the loop the source runs. */
  method SelectProjects(p: Profile, m: Match) returns (items: seq<CvProject>)
    ensures items == SelectedProjects(p, m)
  {
    var ranked := SortWith(MoreMatched, m.projects);
    items := [];
    for k := 0 to |ranked|
      invariant items == ProjectLines(p, ranked[..k])
    {
      assert ranked[..k + 1][..k] == ranked[..k];
      var row := RowWithId(ProjectId, p.projects, ranked[k].id);
      if row.Some? {
        var x := row.value;
        items := items + [CvProject(x.id, x.name, x.description, x.role, x.technologies, x.repositoryUrl, x.demoUrl,
                                    x.startDate, x.endDate, x.highlights, ranked[k].matchedSkills)];
      }
    }
    assert ranked[..|ranked|] == ranked;
  }

  /** Projects with more matched skills come first. */
  predicate MostMatchedFirst(items: seq<CvProject>) {
    forall i, j :: 0 <= i < j < |items| ==> |items[i].matchedSkills| >= |items[j].matchedSkills|
  }

  lemma {:induction false} LineHasProject(p: Profile, relevant: seq<RelevantRow>, k: nat)
    requires k < |ProjectLines(p, relevant)|
    ensures exists j :: 0 <= j < |relevant| && relevant[j].matchedSkills == ProjectLines(p, relevant)[k].matchedSkills
  {
    var n := |relevant| - 1;
    if k < |ProjectLines(p, relevant[..n])| {
      LineHasProject(p, relevant[..n], k);
      var j :| 0 <= j < n && relevant[..n][j].matchedSkills == ProjectLines(p, relevant[..n])[k].matchedSkills;
      assert relevant[j].matchedSkills == ProjectLines(p, relevant)[k].matchedSkills;
    } else {
      assert relevant[n].matchedSkills == ProjectLines(p, relevant)[k].matchedSkills;
    }
  }

  lemma {:induction false} ProjectsInOrder(p: Profile, relevant: seq<RelevantRow>)
    requires OrderedWith(MoreMatched, relevant)
    ensures MostMatchedFirst(ProjectLines(p, relevant))
  {
    if relevant != [] {
      var n := |relevant| - 1;
      ProjectsInOrder(p, relevant[..n]);
      var before := ProjectLines(p, relevant[..n]);
      forall k | 0 <= k < |before|
        ensures |before[k].matchedSkills| >= |relevant[n].matchedSkills|
      {
        LineHasProject(p, relevant[..n], k);
        var j :| 0 <= j < n && relevant[..n][j].matchedSkills == before[k].matchedSkills;
        assert !MoreMatched(relevant[n], relevant[j]);
      }
    }
  }

  lemma ProjectsMostMatchedFirst(p: Profile, m: Match)
    ensures MostMatchedFirst(SelectedProjects(p, m))
  {
    assert WeakOrder(MoreMatched);
    SortWithFacts(MoreMatched, m.projects);
    ProjectsInOrder(p, SortWith(MoreMatched, m.projects));
  }

  // ---------------------------------------------------------------- experience, education, certifications

  /** Current roles first, then the later start; no start date comes last. */
  predicate EarlierInCv(a: Experience, b: Experience) {
    if a.isCurrent != b.isCurrent then a.isCurrent
    else if a.startDate.Some? != b.startDate.Some? then a.startDate.Some?
    else a.startDate.Some? && a.startDate.value > b.startDate.value
  }

  /** `dict(...).get(id, [])`: the last entry for the id. */
  function MatchedFor(rows: seq<RelevantRow>, id: int): seq<string> {
    if rows == [] then []
    else if rows[|rows| - 1].id == id then rows[|rows| - 1].matchedSkills
    else MatchedFor(rows[..|rows| - 1], id)
  }

  function ExperienceLine(m: Match, x: Experience): CvExperience {
    var matched := MatchedFor(m.experiences, x.id);
    CvExperience(x.id, x.company, x.jobTitle, x.startDate, x.endDate, x.isCurrent, x.location, x.description,
                 x.responsibilities, x.achievements, x.technologies, matched, matched != [])
  }

  function SelectedExperience(p: Profile, m: Match): seq<CvExperience> {
    var ordered := SortWith(EarlierInCv, Trusted(OfExperience, p.experiences));
    seq(|ordered|, k requires 0 <= k < |ordered| => ExperienceLine(m, ordered[k]))
  }

  /** The key day of an education, latest first; undated rows last. */
  function EducationDay(x: Education): Option<int> {
    if x.endDate.Some? then x.endDate else x.startDate
  }

  predicate LaterEducation(a: Education, b: Education) {
    if EducationDay(a).Some? != EducationDay(b).Some? then EducationDay(a).Some?
    else EducationDay(a).Some? && EducationDay(a).value > EducationDay(b).value
  }

  function SelectedEducation(p: Profile): seq<Education> {
    SortWith(LaterEducation, Trusted(OfEducation, p.education))
  }

  // ---------------------------------------------------------------- languages

  predicate RefersTo(r: Requirement, id: int) {
    r.kind == LANGUAGE && exists k :: 0 <= k < |r.evidence| && r.evidence[k].kind == LANGUAGE && r.evidence[k].id == id
  }

  /** The first LANGUAGE requirement whose evidence names the row. */
  function LanguageRequirement(requirements: seq<Requirement>, id: int): Option<Requirement> {
    if requirements == [] then None
    else if RefersTo(requirements[0], id) then Some(requirements[0])
    else LanguageRequirement(requirements[1..], id)
  }

  function LanguageLine(m: Match, x: Language): CvLanguage {
    var r := LanguageRequirement(m.matched + m.partials + m.unknown, x.id);
    CvLanguage(x.id, x.language, x.level, x.certificate, if r.None? then None else Some(r.value.text),
               if r.None? then None else Some(r.value.status))
  }

  function LanguageLines(m: Match, rows: seq<Language>): seq<CvLanguage> {
    if rows == [] then []
    else LanguageLines(m, rows[..|rows| - 1]) + [LanguageLine(m, rows[|rows| - 1])]
  }

  function SelectedLanguages(p: Profile, m: Match): seq<CvLanguage> {
    LanguageLines(m, Trusted(OfLanguage, p.languages))
  }

  /** `_select_languages`, as the loop the source runs. */
  method SelectLanguages(p: Profile, m: Match) returns (items: seq<CvLanguage>)
    ensures items == SelectedLanguages(p, m)
  {
    var trusted := Trusted(OfLanguage, p.languages);
    items := [];
    for k := 0 to |trusted|
      invariant items == LanguageLines(m, trusted[..k])
    {
      assert trusted[..k + 1][..k] == trusted[..k];
      var r := LanguageRequirement(m.matched + m.partials + m.unknown, trusted[k].id);
      items := items + [CvLanguage(trusted[k].id, trusted[k].language, trusted[k].level, trusted[k].certificate,
                                   if r.None? then None else Some(r.value.text),
                                   if r.None? then None else Some(r.value.status))];
    }
    assert trusted[..|trusted|] == trusted;
  }

  // ---------------------------------------------------------------- the draft

  function Warn(on: bool, warning: CvWarning): seq<CvWarning> {
    if on then [warning] else []
  }

  function Warnings(header: map<TopField, CvFact>, skills: seq<CvSkill>, experience: seq<CvExperience>,
                    projects: seq<CvProject>, education: seq<Education>, languages: seq<CvLanguage>): seq<CvWarning> {
    Warn(FirstName !in header && LastName !in header, NoTrustedName)
    + Warn(ProfessionalTitle !in header, NoTrustedTitle)
    + Warn(skills == [], NoRelevantSkills)
    + Warn(experience == [], NoRelevantExperience)
    + Warn(experience != [] && forall k :: 0 <= k < |experience| ==> experience[k].matchedSkills == [],
           NoMatchRelevantExperience)
    + Warn(projects == [], NoRelevantProjects)
    + Warn(education == [], NoTrustedEducation)
    + Warn(languages == [], NoTrustedLanguages)
    + [ContactDataNotModeled]
  }

  /** `compute_cv_draft` */
  function ComputeDraft(p: Profile, m: Match): Draft {
    var header, skills, experience := Header(p), SelectedSkills(p, m), SelectedExperience(p, m);
    var projects, education, languages := SelectedProjects(p, m), SelectedEducation(p), SelectedLanguages(p, m);
    Draft(m.jobId, m.version, header, TopLevelFact(p, ProfessionalSummary), experience == [] && projects != [], skills,
          experience, projects, education, Trusted(OfCertification, p.certifications), languages,
          Warnings(header, skills, experience, projects, education, languages))
  }

  // ---------------------------------------------------------------- trust

  lemma SameHeader(p: Profile)
    ensures Header(WithoutUntrusted(p)) == Header(p)
    ensures TopLevelFact(WithoutUntrusted(p), ProfessionalSummary) == TopLevelFact(p, ProfessionalSummary)
  {
    hide Strip, IsUsable;
    forall field: TopField ensures TopLevelFact(WithoutUntrusted(p), field) == TopLevelFact(p, field) {
    }
  }

  lemma SameSkillLine(p: Profile, r: Requirement)
    requires UniqueIds(SkillId, p.skills) && SupportedBy(r, Trusted(OfSkill, p.skills))
    ensures SkillLine(WithoutUntrusted(p), r) == SkillLine(p, r) && |SkillLine(p, r)| == 1
  {
    hide Trusted;
    var kept := Trusted(OfSkill, p.skills);
    var k :| 0 <= k < |kept| && r.evidence[0] == SkillRef(kept[k]);
    TrustedLookup(OfSkill, SkillId, p.skills, kept[k]);
  }

  ghost predicate AllSupported(requirements: seq<Requirement>, skills: seq<Skill>) {
    forall k :: 0 <= k < |requirements| ==> SupportedBy(requirements[k], skills)
  }

  lemma {:induction false} SameSkillLines(p: Profile, requirements: seq<Requirement>)
    requires UniqueIds(SkillId, p.skills)
    requires AllSupported(requirements, Trusted(OfSkill, p.skills))
    ensures SkillLines(WithoutUntrusted(p), requirements) == SkillLines(p, requirements)
    ensures |SkillLines(p, requirements)| == |requirements|
  {
    hide SkillLine, SupportedBy, WithoutUntrusted, Trusted;
    if requirements != [] {
      SameSkillLines(p, requirements[..|requirements| - 1]);
      SameSkillLine(p, requirements[|requirements| - 1]);
    }
  }

  /** The matched SKILL requirements of the profile's own match are supported by trusted skills. */
  lemma SortedSkillsSupported(v: Vocabulary, vacancy: Vacancy, p: Profile, asOf: int)
    ensures AllSupported(SortBy(ImportanceRank, MatchedSkills(ComputeMatch(v, vacancy, p, asOf))),
                         Trusted(OfSkill, p.skills))
  {
    var m := ComputeMatch(v, vacancy, p, asOf);
    var all := AllRequirements(v, vacancy, UsableFacts(p), asOf);
    var chosen := MatchedSkills(m);
    var ordered := SortBy(ImportanceRank, chosen);
    MatchedAre(v, vacancy, p, asOf);
    SortFacts(ImportanceRank, chosen);
    hide MatchFacts, AllRequirements, SupportedBy, SortBy, ComputeMatch;
    forall k | 0 <= k < |ordered| ensures SupportedBy(ordered[k], Trusted(OfSkill, p.skills)) {
      var r := ordered[k];
      assert r in multiset(ordered) && r in multiset(chosen);
      FilterMember((r: Requirement) => r.kind == SKILL && r.status == MATCH, m.matched, r);
      FilterMember((r: Requirement) => r.status == MATCH, all, r);
      MatchedSkillIsSupported(v, vacancy, UsableFacts(p), asOf, r);
    }
  }

  lemma MatchedAre(v: Vocabulary, vacancy: Vacancy, p: Profile, asOf: int)
    ensures ComputeMatch(v, vacancy, p, asOf).matched
         == Filter((r: Requirement) => r.status == MATCH, AllRequirements(v, vacancy, UsableFacts(p), asOf))
    ensures ComputeMatch(v, vacancy, p, asOf).projects
         == RelevantProjects(v, Trusted(OfProject, p.projects), NamedSkills(v, vacancy))
  {
    hide AllRequirements, RelevantExperiences, RelevantProjects, AddAll, RequirementWarnings, RequirementClaims, RowClaims,
      NamedSkills, Backed, Filter, Trusted;
  }

  ghost predicate NamesProject(row: RelevantRow, projects: seq<Project>) {
    exists k :: 0 <= k < |projects| && projects[k].id == row.id
  }

  ghost predicate AllNamed(rows: seq<RelevantRow>, projects: seq<Project>) {
    forall k :: 0 <= k < |rows| ==> NamesProject(rows[k], projects)
  }

  lemma SameProjectLine(p: Profile, row: RelevantRow)
    requires UniqueIds(ProjectId, p.projects) && NamesProject(row, Trusted(OfProject, p.projects))
    ensures ProjectLine(WithoutUntrusted(p), row) == ProjectLine(p, row) && |ProjectLine(p, row)| == 1
  {
    hide Trusted;
    var kept := Trusted(OfProject, p.projects);
    var k :| 0 <= k < |kept| && kept[k].id == row.id;
    TrustedLookup(OfProject, ProjectId, p.projects, kept[k]);
  }

  lemma {:induction false} SameProjectLines(p: Profile, rows: seq<RelevantRow>)
    requires UniqueIds(ProjectId, p.projects)
    requires AllNamed(rows, Trusted(OfProject, p.projects))
    ensures ProjectLines(WithoutUntrusted(p), rows) == ProjectLines(p, rows)
    ensures |ProjectLines(p, rows)| == |rows|
  {
    hide ProjectLine, NamesProject, WithoutUntrusted, Trusted;
    if rows != [] {
      SameProjectLines(p, rows[..|rows| - 1]);
      SameProjectLine(p, rows[|rows| - 1]);
    }
  }

  lemma MoreMatchedIsOrder()
    ensures WeakOrder(MoreMatched)
  {
  }

  lemma SortedProjectsNamed(v: Vocabulary, vacancy: Vacancy, p: Profile, asOf: int)
    ensures AllNamed(SortWith(MoreMatched, ComputeMatch(v, vacancy, p, asOf).projects), Trusted(OfProject, p.projects))
  {
    var rows := ComputeMatch(v, vacancy, p, asOf).projects;
    var ranked := SortWith(MoreMatched, rows);
    MatchedAre(v, vacancy, p, asOf);
    MoreMatchedIsOrder();
    SortWithFacts(MoreMatched, rows);
    hide MatchFacts, ComputeMatch, SortWith, Trusted, WeakOrder;
    forall k | 0 <= k < |ranked| ensures NamesProject(ranked[k], Trusted(OfProject, p.projects)) {
      assert ranked[k] in multiset(ranked) && ranked[k] in multiset(rows);
      RelevantProjectIsRow(v, Trusted(OfProject, p.projects), NamedSkills(v, vacancy), ranked[k]);
    }
  }

  lemma SameSelectedSkills(v: Vocabulary, vacancy: Vacancy, p: Profile, asOf: int)
    requires UniqueIds(SkillId, p.skills)
    ensures var m := ComputeMatch(v, vacancy, p, asOf);
      && SelectedSkills(WithoutUntrusted(p), m) == SelectedSkills(p, m)
      && |SelectedSkills(p, m)| == |MatchedSkills(m)|
  {
    hide ComputeMatch, SkillLines, SortBy, MatchedSkills, WithoutUntrusted, Trusted, AllSupported, UniqueIds;
    var chosen := MatchedSkills(ComputeMatch(v, vacancy, p, asOf));
    SortedSkillsSupported(v, vacancy, p, asOf);
    SameSkillLines(p, SortBy(ImportanceRank, chosen));
    SortFacts(ImportanceRank, chosen);
    SameSize(SortBy(ImportanceRank, chosen), chosen);
  }

  lemma SameSelectedProjects(v: Vocabulary, vacancy: Vacancy, p: Profile, asOf: int)
    requires UniqueIds(ProjectId, p.projects)
    ensures var m := ComputeMatch(v, vacancy, p, asOf);
      && SelectedProjects(WithoutUntrusted(p), m) == SelectedProjects(p, m)
      && |SelectedProjects(p, m)| == |m.projects|
  {
    hide ComputeMatch, ProjectLines, SortWith, WithoutUntrusted, Trusted, AllNamed, UniqueIds, WeakOrder;
    var rows := ComputeMatch(v, vacancy, p, asOf).projects;
    SortedProjectsNamed(v, vacancy, p, asOf);
    SameProjectLines(p, SortWith(MoreMatched, rows));
    MoreMatchedIsOrder();
    SortWithFacts(MoreMatched, rows);
    SameSize(SortWith(MoreMatched, rows), rows);
  }

  lemma SameTrustedSections(p: Profile, m: Match)
    ensures SelectedExperience(WithoutUntrusted(p), m) == SelectedExperience(p, m)
    ensures SelectedEducation(WithoutUntrusted(p)) == SelectedEducation(p)
    ensures Trusted(OfCertification, WithoutUntrusted(p).certifications) == Trusted(OfCertification, p.certifications)
    ensures SelectedLanguages(WithoutUntrusted(p), m) == SelectedLanguages(p, m)
  {
    hide SortWith, LanguageLines, Trusted, ExperienceLine;
    TrustedTwice(OfExperience, p.experiences);
    TrustedTwice(OfEducation, p.education);
    TrustedTwice(OfCertification, p.certifications);
    TrustedTwice(OfLanguage, p.languages);
  }

  /** Untrusted facts have no influence on the draft made from the profile's own
      match, although rows are looked up by id in the unfiltered profile. */
  lemma DraftIgnoresUntrusted(v: Vocabulary, vacancy: Vacancy, p: Profile, asOf: int)
    requires UniqueIds(SkillId, p.skills) && UniqueIds(ProjectId, p.projects)
    ensures ComputeDraft(WithoutUntrusted(p), ComputeMatch(v, vacancy, p, asOf))
         == ComputeDraft(p, ComputeMatch(v, vacancy, p, asOf))
  {
    hide ComputeMatch, Header, TopLevelFact, SelectedSkills, SelectedProjects, SelectedExperience, SelectedEducation,
      SelectedLanguages, WithoutUntrusted, Trusted, Warnings, UniqueIds;
    SameHeader(p);
    SameSelectedSkills(v, vacancy, p, asOf);
    SameSelectedProjects(v, vacancy, p, asOf);
    SameTrustedSections(p, ComputeMatch(v, vacancy, p, asOf));
  }

  /** Every matched skill and every relevant project gets its line in the draft. */
  lemma NothingSelectedIsSkipped(v: Vocabulary, vacancy: Vacancy, p: Profile, asOf: int)
    requires UniqueIds(SkillId, p.skills) && UniqueIds(ProjectId, p.projects)
    ensures var m := ComputeMatch(v, vacancy, p, asOf);
      && |ComputeDraft(p, m).skills| == |MatchedSkills(m)| && |ComputeDraft(p, m).projects| == |m.projects|
  {
    hide ComputeMatch, Header, TopLevelFact, SelectedSkills, SelectedProjects, SelectedExperience, SelectedEducation,
      SelectedLanguages, Trusted, Warnings, UniqueIds, MatchedSkills;
    SameSelectedSkills(v, vacancy, p, asOf);
    SameSelectedProjects(v, vacancy, p, asOf);
  }

  lemma SameSize<T>(a: seq<T>, b: seq<T>)
    requires multiset(a) == multiset(b)
    ensures |a| == |b|
  {
    assert |multiset(a)| == |a| && |multiset(b)| == |b|;
  }

  /** A trusted row, and an untrusted one entered later under the same id. */
  const PythonRow := Skill(7, "Python", "", "", None, Trust(MANUAL_ENTRY, CONFIRMED))
  const CobolRow := Skill(7, "Cobol", "", "", None, Trust(IMPORTED, CONFIRMED))

  function DuplicateIds(): Profile {
    Profile(1, 1, map[], [PythonRow, CobolRow], [], [], [], [], [])
  }

  function PythonVacancy(): Vacancy {
    Vacancy(1, "", "", "", [SkillNeed("Python", REQUIRED)], [], [], None, None, [], [])
  }

  lemma PythonMatched(v: Vocabulary, asOf: int) returns (r: Requirement)
    ensures MatchedSkills(ComputeMatch(v, PythonVacancy(), DuplicateIds(), asOf)) == [r]
    ensures r.evidence == [SkillRef(PythonRow)]
  {
    var vacancy, p := PythonVacancy(), DuplicateIds();
    LaterRowFound(PythonRow, CobolRow);
    var facts := UsableFacts(p);
    r := MatchSkill(v, vacancy.skills[0], facts.skills);
    assert [PythonRow][..0] == [];
    assert FirstNamed(v, [PythonRow], v.normalize("Python")) == Some(PythonRow);
    assert AllRequirements(v, vacancy, facts, asOf) == [r];
    FilterOne((q: Requirement) => q.status == MATCH, r);
    assert WithStatus([r], MATCH) == [r];
    assert ComputeMatch(v, vacancy, p, asOf).matched == WithStatus(AllRequirements(v, vacancy, facts, asOf), MATCH) by {
      hide AllRequirements, WithStatus, UsableFacts;
    }
    hide ComputeMatch;
    FilterOne((q: Requirement) => q.kind == SKILL && q.status == MATCH, r);
  }

  lemma LineByLookup(p: Profile, m: Match, r: Requirement, row: Skill)
    requires MatchedSkills(m) == [r] && r.evidence == [SkillRef(PythonRow)]
    requires RowWithId(SkillId, p.skills, PythonRow.id) == Some(row)
    ensures |SelectedSkills(p, m)| == 1 && SelectedSkills(p, m)[0].text == row.name
  {
    hide MatchedSkills;
    assert [r][..0] == [];
    assert SortBy(ImportanceRank, [r]) == [r];
    assert SkillLines(p, [r]) == SkillLine(p, r);
  }

  /** The untrusted of two rows under one id is found in the whole list, the trusted
      one among the trusted rows. */
  lemma LaterRowFound(row: Skill, later: Skill)
    requires row.id == later.id && IsUsable(row.trust) && !IsUsable(later.trust)
    ensures Trusted(OfSkill, [row, later]) == [row]
    ensures RowWithId(SkillId, [row, later], row.id) == Some(later) && RowWithId(SkillId, [row], row.id) == Some(row)
  {
    hide IsUsable;
    assert [row, later][..1] == [row] && [row][..0] == [];
    assert Trusted(OfSkill, [row]) == [row];
  }

  /** Two rows may not share an id: with every vocabulary, the untrusted duplicate of a
      matched skill takes the trusted row's place in the draft. */
  lemma DuplicateIdsBreakTrust(v: Vocabulary, asOf: int)
    ensures var p, m := DuplicateIds(), ComputeMatch(v, PythonVacancy(), DuplicateIds(), asOf);
      && |SelectedSkills(p, m)| == |SelectedSkills(WithoutUntrusted(p), m)| == 1
      && SelectedSkills(p, m)[0].text == "Cobol" && SelectedSkills(WithoutUntrusted(p), m)[0].text == "Python"
  {
    hide ComputeMatch, MatchedSkills, SelectedSkills, PythonVacancy, RowWithId, Trusted;
    var p, m := DuplicateIds(), ComputeMatch(v, PythonVacancy(), DuplicateIds(), asOf);
    var r := PythonMatched(v, asOf);
    assert p.skills == [PythonRow, CobolRow] && WithoutUntrusted(p).skills == Trusted(OfSkill, p.skills);
    LaterRowFound(PythonRow, CobolRow);
    LineByLookup(p, m, r, CobolRow);
    LineByLookup(WithoutUntrusted(p), m, r, PythonRow);
  }
}
