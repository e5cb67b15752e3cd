/** `compute_match` of `app/agents/candidate_job_matcher.py`: which requirements of a
    vacancy the trusted facts of a profile support. Reason texts are left out. */
module CandidateMatcher {
  import opened CandidateProfile
  import opened CandidateTrust
  import opened ExperienceDuration
  import opened MatchModel
  import opened MatchScores
  import opened Sequences
  import opened Wrappers

  // ---------------------------------------------------------------- skills

  /** The index built with `setdefault`: the first skill of each normalized name. */
  function FirstNamed(v: Vocabulary, skills: seq<Skill>, key: string): Option<Skill> {
    if skills == [] then None
    else
      var n := |skills| - 1;
      var earlier := FirstNamed(v, skills[..n], key);
      if earlier.Some? then earlier
      else if v.normalize(skills[n].name) == key then Some(skills[n]) else None
  }

  /** The indexed skills a generic requirement may relate to, in index order. */
  function RelatedSkills(v: Vocabulary, skills: seq<Skill>, key: string): seq<Skill> {
    if skills == [] then []
    else
      var n := |skills| - 1;
      var name := v.normalize(skills[n].name);
      RelatedSkills(v, skills[..n], key)
      + (if FirstNamed(v, skills[..n], name).None? && name in v.related(key) then [skills[n]] else [])
  }

  function SkillRef(row: Skill): EvidenceRef {
    EvidenceRef(SKILL, row.id, row.name)
  }

  function SkillRefs(rows: seq<Skill>): (refs: seq<EvidenceRef>)
    ensures |refs| == |rows| && forall k :: 0 <= k < |rows| ==> refs[k] == SkillRef(rows[k])
  {
    seq(|rows|, k requires 0 <= k < |rows| => SkillRef(rows[k]))
  }

  function MatchSkill(v: Vocabulary, need: SkillNeed, skills: seq<Skill>): Requirement {
    var key := v.normalize(need.text);
    var own, related := FirstNamed(v, skills, key), RelatedSkills(v, skills, key);
    var (status, evidence) :=
      if own.None? && related != [] then (UNKNOWN, SkillRefs(related))
      else if own.Some? then (MATCH, [SkillRef(own.value)])
      else (MISSING, []);
    Requirement(need.text, key, SKILL, need.importance, status, evidence, [need.text])
  }

  function MatchSkills(v: Vocabulary, needs: seq<SkillNeed>, skills: seq<Skill>): (found: seq<Requirement>)
    ensures |found| == |needs| && forall k :: 0 <= k < |needs| ==> found[k] == MatchSkill(v, needs[k], skills)
  {
    seq(|needs|, k requires 0 <= k < |needs| => MatchSkill(v, needs[k], skills))
  }

  /** The trusted skills that are one of the vacancy's own examples. */
  function Hits(v: Vocabulary, examples: seq<string>, skills: seq<Skill>): seq<Skill> {
    if examples == [] then []
    else
      var n := |examples| - 1;
      var found := FirstNamed(v, skills, v.normalize(examples[n]));
      Hits(v, examples[..n], skills) + (if found.Some? then [found.value] else [])
  }

  function MatchCategory(v: Vocabulary, need: CategoryNeed, skills: seq<Skill>): Requirement {
    var hits := Hits(v, need.examples, skills);
    Requirement(need.text, need.key, SKILL, need.importance, if hits != [] then MATCH else UNKNOWN, SkillRefs(hits),
                need.evidence)
  }

  function MatchCategories(v: Vocabulary, needs: seq<CategoryNeed>, skills: seq<Skill>): (found: seq<Requirement>)
    ensures |found| == |needs| && forall k :: 0 <= k < |needs| ==> found[k] == MatchCategory(v, needs[k], skills)
  {
    seq(|needs|, k requires 0 <= k < |needs| => MatchCategory(v, needs[k], skills))
  }

  // ---------------------------------------------------------------- languages, education, experience

  /** `_CEFR_ORDER` */
  function Rank(level: Level): nat {
    match level
    case UNKNOWN_LEVEL => 0
    case A1 => 1
    case A2 => 2
    case B1 => 3
    case B2 => 4
    case C1 => 5
    case C2 => 6
    case NATIVE => 7
  }

  function FirstLanguage(v: Vocabulary, languages: seq<Language>, name: string): Option<Language> {
    if languages == [] then None
    else
      var n := |languages| - 1;
      var earlier := FirstLanguage(v, languages[..n], name);
      if earlier.Some? then earlier
      else if v.canonicalLanguage(languages[n].language) == Some(name) then Some(languages[n]) else None
  }

  function MatchLanguage(v: Vocabulary, need: LanguageNeed, languages: seq<Language>): Requirement {
    var own := FirstLanguage(v, languages, need.language);
    var status :=
      if own.None? then MISSING
      else if own.value.level == UNKNOWN_LEVEL then UNKNOWN
      else if Rank(own.value.level) >= Rank(need.level) then MATCH else PARTIAL;
    Requirement(need.text, need.normalized, LANGUAGE, need.importance, status,
                if own.None? then [] else [EvidenceRef(LANGUAGE, own.value.id, own.value.language)], [need.evidence])
  }

  function MatchLanguages(v: Vocabulary, needs: seq<LanguageNeed>, languages: seq<Language>): (found: seq<Requirement>)
    ensures |found| == |needs| && forall k :: 0 <= k < |needs| ==> found[k] == MatchLanguage(v, needs[k], languages)
  {
    seq(|needs|, k requires 0 <= k < |needs| => MatchLanguage(v, needs[k], languages))
  }

  function EducationRefs(rows: seq<Education>): seq<EvidenceRef> {
    seq(|rows|, k requires 0 <= k < |rows| => EvidenceRef(EDUCATION, rows[k].id, rows[k].institution))
  }

  /** Only a completed education literally naming a required field matches it. */
  function MatchEducation(v: Vocabulary, need: EducationNeed, education: seq<Education>): Requirement {
    var completed := Filter((row: Education) => row.completed, education);
    var naming := Filter(
      (row: Education) => v.degreeFields(row.fieldOfStudy, row.program, row.degree) * need.fields != {}, completed);
    var (status, evidence) :=
      if completed == [] then (MISSING, [])
      else if need.fields == {} then (MATCH, completed)
      else if naming != [] then (MATCH, naming)
      else (UNKNOWN, completed);
    Requirement(need.text, "completed-degree", EDUCATION, need.importance, status, EducationRefs(evidence),
                [need.evidence])
  }

  function Norms(v: Vocabulary, names: seq<string>): set<string> {
    set k | 0 <= k < |names| :: v.normalize(names[k])
  }

  function ExperienceRefs(rows: seq<Experience>): seq<EvidenceRef> {
    seq(|rows|, k requires 0 <= k < |rows| => EvidenceRef(EXPERIENCE, rows[k].id, rows[k].jobTitle))
  }

  function RowsUsing(v: Vocabulary, rows: seq<Experience>, names: seq<string>): seq<seq<Experience>> {
    seq(|names|, k requires 0 <= k < |names| =>
      Filter((row: Experience) => names[k] in Norms(v, row.technologies), rows))
  }

  /** The groups of rows one of which must reach the years on its own: the rows
      using every subject, or, for "A or B", the rows of each subject. */
  function Alternatives(v: Vocabulary, need: ExperienceNeed, rows: seq<Experience>): seq<seq<Experience>> {
    if need.subjects == [] then []
    else if need.mode == ALL
    then [Filter((row: Experience) => Norms(v, need.subjects) <= Norms(v, row.technologies), rows)]
    else RowsUsing(v, rows, v.sorted(Norms(v, need.subjects)))
  }

  function Distinct(rows: seq<Experience>): seq<Experience> {
    if rows == [] then []
    else
      var n := |rows| - 1;
      Distinct(rows[..n]) + (if rows[n] in rows[..n] then [] else [rows[n]])
  }

  function Flatten(groups: seq<seq<Experience>>): seq<Experience> {
    if groups == [] then [] else Flatten(groups[..|groups| - 1]) + groups[|groups| - 1]
  }

  function Using(v: Vocabulary, need: ExperienceNeed, experiences: seq<Experience>): seq<Experience> {
    Filter((row: Experience) => Norms(v, need.subjects) * Norms(v, row.technologies) != {}, experiences)
  }

  function MatchExperience(v: Vocabulary, need: ExperienceNeed, experiences: seq<Experience>, asOf: int): Requirement {
    var norms := Norms(v, need.subjects);
    var using := Using(v, need, experiences);
    var alternatives := Alternatives(v, need, using);
    var relevant := Distinct(Flatten(alternatives));
    var covered := set k, t | 0 <= k < |using| && t in Norms(v, using[k].technologies) :: t;
    var (status, evidence) :=
      if need.subjects != [] && need.mode == AMBIGUOUS && using != [] then (UNKNOWN, relevant)
      else if need.subjects != [] && need.mode == ALL && relevant == [] && norms <= covered then (UNKNOWN, using)
      else if need.subjects == [] && experiences != [] then (UNKNOWN, relevant)
      else if relevant == [] then (MISSING, relevant)
      else (DurationStatus(alternatives, need.years, asOf), relevant);
    Requirement(need.text, need.normalized, EXPERIENCE, need.importance, status, ExperienceRefs(evidence),
                [need.evidence])
  }

  function Unevaluated(need: OtherNeed): Requirement {
    Requirement(need.text, need.identity, OTHER, REQUIRED, UNKNOWN, [], need.evidence)
  }

  function UnevaluatedAll(needs: seq<OtherNeed>): (found: seq<Requirement>)
    ensures |found| == |needs| && forall k :: 0 <= k < |needs| ==> found[k] == Unevaluated(needs[k])
  {
    seq(|needs|, k requires 0 <= k < |needs| => Unevaluated(needs[k]))
  }

  // ---------------------------------------------------------------- relevant rows

  datatype RelevantRow = RelevantRow(id: int, title: string, place: string, matchedSkills: seq<string>)

  function MatchedTechnologies(v: Vocabulary, technologies: seq<string>, required: set<string>): seq<string> {
    v.sorted(set k | 0 <= k < |technologies| && v.normalize(technologies[k]) in required :: technologies[k])
  }

  function RelevantExperiences(v: Vocabulary, rows: seq<Experience>, required: set<string>): seq<RelevantRow> {
    if rows == [] then []
    else
      var n := |rows| - 1;
      var matched := MatchedTechnologies(v, rows[n].technologies, required);
      RelevantExperiences(v, rows[..n], required)
      + (if matched == [] then [] else [RelevantRow(rows[n].id, rows[n].jobTitle, rows[n].company, matched)])
  }

  function RelevantProjects(v: Vocabulary, rows: seq<Project>, required: set<string>): seq<RelevantRow> {
    if rows == [] then []
    else
      var n := |rows| - 1;
      var matched := MatchedTechnologies(v, rows[n].technologies, required);
      RelevantProjects(v, rows[..n], required)
      + (if matched == [] then [] else [RelevantRow(rows[n].id, rows[n].name, "", matched)])
  }

  // ---------------------------------------------------------------- claims and warnings

  datatype Claim = Claim(kind: Kind, text: string, id: int, version: int)

  /** `_add`: the first claim of each kind and source id. */
  function Add(claims: seq<Claim>, claim: Claim): seq<Claim> {
    if exists k :: 0 <= k < |claims| && claims[k].kind == claim.kind && claims[k].id == claim.id then claims
    else claims + [claim]
  }

  function AddAll(claims: seq<Claim>, more: seq<Claim>): seq<Claim>
    decreases more
  {
    if more == [] then claims else AddAll(Add(claims, more[0]), more[1..])
  }

  function RefClaims(refs: seq<EvidenceRef>, version: int): seq<Claim> {
    if refs == [] then []
    else
      var n := |refs| - 1;
      RefClaims(refs[..n], version)
      + (if refs[n].kind == SKILL || refs[n].kind == LANGUAGE || refs[n].kind == EDUCATION
         then [Claim(refs[n].kind, refs[n].value, refs[n].id, version)] else [])
  }

  function RequirementClaims(requirements: seq<Requirement>, version: int): seq<Claim> {
    if requirements == [] then []
    else
      var n := |requirements| - 1;
      RequirementClaims(requirements[..n], version) + RefClaims(requirements[n].evidence, version)
  }

  function RowClaims(kind: Kind, rows: seq<RelevantRow>, version: int): seq<Claim> {
    seq(|rows|, k requires 0 <= k < |rows| =>
      Claim(kind, if kind == EXPERIENCE then rows[k].title + " at " + rows[k].place else rows[k].title, rows[k].id,
            version))
  }

  function EducationClaims(rows: seq<Education>, version: int): seq<Claim> {
    seq(|rows|, k requires 0 <= k < |rows| => Claim(EDUCATION, rows[k].institution, rows[k].id, version))
  }

  function LanguageClaims(rows: seq<Language>, version: int): seq<Claim> {
    seq(|rows|, k requires 0 <= k < |rows| =>
      Claim(LANGUAGE, rows[k].language + " (" + LevelText(rows[k].level) + ")", rows[k].id, version))
  }

  datatype Warning =
    | MissingRequired(kind: Kind, text: string)
    | UnknownRequired(kind: Kind, text: string)
    | NoConfirmedFacts
    | UnstoredSkills(names: seq<string>)

  function RequirementWarnings(requirements: seq<Requirement>): seq<Warning> {
    if requirements == [] then []
    else
      var n, r := |requirements| - 1, requirements[|requirements| - 1];
      RequirementWarnings(requirements[..n])
      + (if r.importance != REQUIRED then []
         else if r.status == MISSING then [MissingRequired(r.kind, r.text)]
         else if r.status == UNKNOWN then [UnknownRequired(r.kind, r.text)]
         else [])
  }

  // ---------------------------------------------------------------- the match

  datatype Match = Match(
    jobId: int, version: int, overall: nat, coverage: nat, required: nat, preferred: nat, support: nat,
    matched: seq<Requirement>, partials: seq<Requirement>, missing: seq<Requirement>, unknown: seq<Requirement>,
    experiences: seq<RelevantRow>, projects: seq<RelevantRow>, education: seq<Education>, languages: seq<Language>,
    claims: seq<Claim>, warnings: seq<Warning>)

  /** The usable part of a profile. */
  datatype Facts = Facts(
    skills: seq<Skill>, experiences: seq<Experience>, education: seq<Education>, projects: seq<Project>,
    languages: seq<Language>)

  function UsableFacts(p: Profile): Facts {
    Facts(Trusted(OfSkill, p.skills), Trusted(OfExperience, p.experiences), Trusted(OfEducation, p.education),
          Trusted(OfProject, p.projects), Trusted(OfLanguage, p.languages))
  }

  function ExperienceMatch(v: Vocabulary, vacancy: Vacancy, facts: Facts, asOf: int): seq<Requirement> {
    if vacancy.experience.None? then []
    else [MatchExperience(v, vacancy.experience.value, facts.experiences, asOf)]
  }

  /** Every requirement of the vacancy with its status, in the source's order. */
  function AllRequirements(v: Vocabulary, vacancy: Vacancy, facts: Facts, asOf: int): seq<Requirement> {
    MatchSkills(v, vacancy.skills, facts.skills)
    + MatchCategories(v, vacancy.categories, facts.skills)
    + MatchLanguages(v, vacancy.languages, facts.languages)
    + (if vacancy.education.None? then [] else [MatchEducation(v, vacancy.education.value, facts.education)])
    + ExperienceMatch(v, vacancy, facts, asOf)
    + UnevaluatedAll(vacancy.unevaluated)
  }

  function WithStatus(requirements: seq<Requirement>, status: Status): seq<Requirement> {
    Filter((r: Requirement) => r.status == status, requirements)
  }

  /** The names of the vacancy's skills, and of those required as single skills. */
  function NamedSkills(v: Vocabulary, vacancy: Vacancy): set<string> {
    set k | 0 <= k < |vacancy.skills| :: v.normalize(vacancy.skills[k].text)
  }

  function RequiredSkills(requirements: seq<Requirement>): set<string> {
    set k | 0 <= k < |requirements| && requirements[k].kind == SKILL && requirements[k].importance == REQUIRED
            && !("group:" <= requirements[k].normalized) :: requirements[k].normalized
  }

  function Backed(v: Vocabulary, rows: seq<RelevantRow>): set<string> {
    set k, t | 0 <= k < |rows| && t in Norms(v, rows[k].matchedSkills) :: t
  }

  function Statuses(requirements: seq<Requirement>): seq<Status> {
    seq(|requirements|, k requires 0 <= k < |requirements| => requirements[k].status)
  }

  function MatchFacts(v: Vocabulary, vacancy: Vacancy, facts: Facts, version: int, asOf: int): Match {
    var all := AllRequirements(v, vacancy, facts, asOf);
    var named := NamedSkills(v, vacancy);
    var experiences := RelevantExperiences(v, facts.experiences, named);
    var projects := RelevantProjects(v, facts.projects, named);
    var education :=
      if vacancy.education.None? then [] else Filter((row: Education) => row.completed, facts.education);
    var wanted := set k | 0 <= k < |vacancy.languages| :: vacancy.languages[k].language;
    var languages := Filter(
      (row: Language) =>
        v.canonicalLanguage(row.language).Some? && v.canonicalLanguage(row.language).value in wanted, facts.languages);
    var required, preferred := RequiredScore(all), PreferredScore(all);
    var support := SupportScore(RequiredSkills(all), Backed(v, experiences + projects),
                                Statuses(ExperienceMatch(v, vacancy, facts, asOf)));
    var evidenced := WithStatus(all, MATCH) + WithStatus(all, PARTIAL) + WithStatus(all, UNKNOWN);
    var claims := AddAll([],
      RequirementClaims(evidenced, version) + RowClaims(EXPERIENCE, experiences, version)
      + RowClaims(PROJECT, projects, version) + EducationClaims(education, version) + LanguageClaims(languages, version));
    var warnings :=
      RequirementWarnings(all)
      + (if facts == Facts([], [], [], [], []) then [NoConfirmedFacts] else [])
      + (if vacancy.unstored == [] then [] else [UnstoredSkills(vacancy.unstored)]);
    Match(vacancy.jobId, version, OverallScore(required, preferred, support), CoverageScore(all), required, preferred,
          support, WithStatus(all, MATCH), WithStatus(all, PARTIAL), WithStatus(all, MISSING), WithStatus(all, UNKNOWN),
          experiences, projects, education, languages, claims, warnings)
  }

  function ComputeMatch(v: Vocabulary, vacancy: Vacancy, p: Profile, asOf: int): Match {
    MatchFacts(v, vacancy, UsableFacts(p), p.version, asOf)
  }

  // ---------------------------------------------------------------- trust

  /** Untrusted facts have no influence on the match. */
  lemma MatchIgnoresUntrusted(v: Vocabulary, vacancy: Vacancy, p: Profile, asOf: int)
    ensures ComputeMatch(v, vacancy, WithoutUntrusted(p), asOf) == ComputeMatch(v, vacancy, p, asOf)
  {
    hide MatchFacts;
    TrustedTwice(OfSkill, p.skills);
    TrustedTwice(OfExperience, p.experiences);
    TrustedTwice(OfEducation, p.education);
    TrustedTwice(OfProject, p.projects);
    TrustedTwice(OfLanguage, p.languages);
  }

  lemma {:induction false} FirstNamedIsRow(v: Vocabulary, skills: seq<Skill>, key: string)
    ensures FirstNamed(v, skills, key).Some? ==>
      FirstNamed(v, skills, key).value in skills && v.normalize(FirstNamed(v, skills, key).value.name) == key
    ensures FirstNamed(v, skills, key).None? ==> forall k :: 0 <= k < |skills| ==> v.normalize(skills[k].name) != key
  {
    if skills != [] {
      FirstNamedIsRow(v, skills[..|skills| - 1], key);
    }
  }

  lemma {:induction false} HitsAreRows(v: Vocabulary, examples: seq<string>, skills: seq<Skill>)
    ensures forall k :: 0 <= k < |Hits(v, examples, skills)| ==> Hits(v, examples, skills)[k] in skills
  {
    if examples != [] {
      var n := |examples| - 1;
      HitsAreRows(v, examples[..n], skills);
      FirstNamedIsRow(v, skills, v.normalize(examples[n]));
    }
  }

  /** The requirement points at a row of `skills` with its own name. */
  ghost predicate SupportedBy(r: Requirement, skills: seq<Skill>) {
    r.evidence != [] && exists k :: 0 <= k < |skills| && r.evidence[0] == SkillRef(skills[k])
  }

  /** A matched SKILL requirement is supported by a trusted skill. */
  lemma MatchedSkillIsSupported(v: Vocabulary, vacancy: Vacancy, facts: Facts, asOf: int, r: Requirement)
    requires r in AllRequirements(v, vacancy, facts, asOf) && r.kind == SKILL && r.status == MATCH
    ensures SupportedBy(r, facts.skills)
  {
    var a, b := MatchSkills(v, vacancy.skills, facts.skills), MatchCategories(v, vacancy.categories, facts.skills);
    if r in a {
      var k :| 0 <= k < |a| && a[k] == r;
      FirstNamedIsRow(v, facts.skills, v.normalize(vacancy.skills[k].text));
    } else if r in b {
      var k :| 0 <= k < |b| && b[k] == r;
      var hits := Hits(v, vacancy.categories[k].examples, facts.skills);
      HitsAreRows(v, vacancy.categories[k].examples, facts.skills);
      assert hits[0] in facts.skills;
    } else {
      NotSkill(v, vacancy, facts, asOf, r);
    }
  }

  lemma NotSkill(v: Vocabulary, vacancy: Vacancy, facts: Facts, asOf: int, r: Requirement)
    requires r in AllRequirements(v, vacancy, facts, asOf)
    requires r !in MatchSkills(v, vacancy.skills, facts.skills)
    requires r !in MatchCategories(v, vacancy.categories, facts.skills)
    ensures r.kind != SKILL
  {
    hide MatchSkills, MatchCategories;
    var c, f := MatchLanguages(v, vacancy.languages, facts.languages), UnevaluatedAll(vacancy.unevaluated);
    assert forall k :: 0 <= k < |c| ==> c[k].kind == LANGUAGE;
    assert forall k :: 0 <= k < |f| ==> f[k].kind == OTHER;
  }

  /** A relevant project is a trusted one. */
  lemma {:induction false} RelevantProjectIsRow(v: Vocabulary, rows: seq<Project>, required: set<string>, row: RelevantRow)
    requires row in RelevantProjects(v, rows, required)
    ensures exists k :: 0 <= k < |rows| && rows[k].id == row.id
  {
    var n := |rows| - 1;
    if row in RelevantProjects(v, rows[..n], required) {
      RelevantProjectIsRow(v, rows[..n], required, row);
      var k :| 0 <= k < n && rows[..n][k].id == row.id;
      assert rows[k].id == row.id;
    } else {
      assert rows[n].id == row.id;
    }
  }

  // ---------------------------------------------------------------- more skills never hurt

  function Names(v: Vocabulary, skills: seq<Skill>): set<string> {
    set k | 0 <= k < |skills| :: v.normalize(skills[k].name)
  }

  lemma NamedMeaning(v: Vocabulary, skills: seq<Skill>, key: string)
    ensures FirstNamed(v, skills, key).Some? <==> key in Names(v, skills)
  {
    FirstNamedIsRow(v, skills, key);
  }

  lemma {:induction false} RelatedMeaning(v: Vocabulary, skills: seq<Skill>, key: string)
    ensures RelatedSkills(v, skills, key) != [] <==> Names(v, skills) * v.related(key) != {}
  {
    if skills != [] {
      var n := |skills| - 1;
      var name := v.normalize(skills[n].name);
      RelatedMeaning(v, skills[..n], key);
      NamedMeaning(v, skills[..n], name);
      assert Names(v, skills) == Names(v, skills[..n]) + {name};
      if name in v.related(key) && FirstNamed(v, skills[..n], name).Some? {
        assert name in Names(v, skills[..n]) * v.related(key);
      }
      if name in v.related(key) {
        assert name in Names(v, skills) * v.related(key);
      } else {
        assert Names(v, skills) * v.related(key) == Names(v, skills[..n]) * v.related(key);
      }
    }
  }

  lemma {:induction false} HitsMeaning(v: Vocabulary, examples: seq<string>, skills: seq<Skill>)
    ensures Hits(v, examples, skills) != [] <==>
      exists k :: 0 <= k < |examples| && v.normalize(examples[k]) in Names(v, skills)
  {
    if examples != [] {
      var n := |examples| - 1;
      HitsMeaning(v, examples[..n], skills);
      NamedMeaning(v, skills, v.normalize(examples[n]));
      if exists k :: 0 <= k < n && v.normalize(examples[..n][k]) in Names(v, skills) {
        var k :| 0 <= k < n && v.normalize(examples[..n][k]) in Names(v, skills);
        assert v.normalize(examples[k]) in Names(v, skills);
      }
    }
  }

  /** A skill requirement is a MATCH when a skill has its name, UNKNOWN when one is
      only related to it, and MISSING otherwise. */
  lemma SkillStatusMeaning(v: Vocabulary, need: SkillNeed, skills: seq<Skill>)
    ensures var key, status := v.normalize(need.text), MatchSkill(v, need, skills).status;
      && status in {MATCH, UNKNOWN, MISSING}
      && (status == MATCH <==> key in Names(v, skills))
      && (status == UNKNOWN <==> key !in Names(v, skills) && Names(v, skills) * v.related(key) != {})
  {
    hide Names, FirstNamed, RelatedSkills;
    NamedMeaning(v, skills, v.normalize(need.text));
    RelatedMeaning(v, skills, v.normalize(need.text));
  }

  /** A category is a MATCH when a skill is one of its own examples, else UNKNOWN. */
  lemma CategoryStatusMeaning(v: Vocabulary, need: CategoryNeed, skills: seq<Skill>)
    ensures MatchCategory(v, need, skills).status in {MATCH, UNKNOWN}
    ensures MatchCategory(v, need, skills).status == MATCH <==>
      exists k :: 0 <= k < |need.examples| && v.normalize(need.examples[k]) in Names(v, skills)
  {
    hide Names, Hits;
    HitsMeaning(v, need.examples, skills);
  }

  lemma SkillStatusImproves(v: Vocabulary, need: SkillNeed, before: seq<Skill>, after: seq<Skill>)
    requires Names(v, before) <= Names(v, after)
    ensures AtLeast(MatchSkill(v, need, after).status, MatchSkill(v, need, before).status)
  {
    hide Names, MatchSkill;
    SkillStatusMeaning(v, need, before);
    SkillStatusMeaning(v, need, after);
  }

  lemma CategoryStatusImproves(v: Vocabulary, need: CategoryNeed, before: seq<Skill>, after: seq<Skill>)
    requires Names(v, before) <= Names(v, after)
    ensures AtLeast(MatchCategory(v, need, after).status, MatchCategory(v, need, before).status)
  {
    hide Names, MatchCategory;
    CategoryStatusMeaning(v, need, before);
    CategoryStatusMeaning(v, need, after);
  }

  lemma RequirementsImprove(v: Vocabulary, vacancy: Vacancy, before: Facts, after: Facts, asOf: int)
    requires after == before.(skills := after.skills) && Names(v, before.skills) <= Names(v, after.skills)
    ensures Improved(AllRequirements(v, vacancy, before, asOf), AllRequirements(v, vacancy, after, asOf))
    ensures RequiredSkills(AllRequirements(v, vacancy, before, asOf))
         == RequiredSkills(AllRequirements(v, vacancy, after, asOf))
  {
    hide MatchSkills, MatchCategories, MatchLanguages, MatchEducation, ExperienceMatch, UnevaluatedAll, Names, Pointwise,
      Improved, RequiredSkills;
    var a, b := MatchSkills(v, vacancy.skills, before.skills), MatchSkills(v, vacancy.skills, after.skills);
    var c, d := MatchCategories(v, vacancy.categories, before.skills), MatchCategories(v, vacancy.categories, after.skills);
    SkillsImprove(v, vacancy, before.skills, after.skills);
    SameExperience(v, vacancy, before, after, asOf);
    var rest := MatchLanguages(v, vacancy.languages, before.languages)
      + (if vacancy.education.None? then [] else [MatchEducation(v, vacancy.education.value, before.education)])
      + ExperienceMatch(v, vacancy, before, asOf) + UnevaluatedAll(vacancy.unevaluated);
    assert AllRequirements(v, vacancy, before, asOf) == a + c + rest;
    assert AllRequirements(v, vacancy, after, asOf) == b + d + rest;
    ImprovedParts(a, b, c, d, rest);
  }

  lemma SkillsImprove(v: Vocabulary, vacancy: Vacancy, before: seq<Skill>, after: seq<Skill>)
    requires Names(v, before) <= Names(v, after)
    ensures Pointwise(MatchSkills(v, vacancy.skills, before), MatchSkills(v, vacancy.skills, after))
    ensures Pointwise(MatchCategories(v, vacancy.categories, before), MatchCategories(v, vacancy.categories, after))
  {
    hide Names;
    var a, b := MatchSkills(v, vacancy.skills, before), MatchSkills(v, vacancy.skills, after);
    var c, d := MatchCategories(v, vacancy.categories, before), MatchCategories(v, vacancy.categories, after);
    forall k | 0 <= k < |a| ensures AtLeast(b[k].status, a[k].status) && SameNeed(a[k], b[k]) {
      SkillStatusImproves(v, vacancy.skills[k], before, after);
    }
    forall k | 0 <= k < |c| ensures AtLeast(d[k].status, c[k].status) && SameNeed(c[k], d[k]) {
      CategoryStatusImproves(v, vacancy.categories[k], before, after);
    }
  }

  predicate SameNeed(a: Requirement, b: Requirement) {
    a.kind == b.kind && a.importance == b.importance && a.normalized == b.normalized
  }

  /** Pointwise the same needs with at least the same points. */
  ghost predicate Pointwise(a: seq<Requirement>, b: seq<Requirement>) {
    |a| == |b| && forall k :: 0 <= k < |a| ==> SameNeed(a[k], b[k]) && AtLeast(b[k].status, a[k].status)
  }

  lemma ImprovedParts(a: seq<Requirement>, b: seq<Requirement>, c: seq<Requirement>, d: seq<Requirement>,
                      rest: seq<Requirement>)
    requires Pointwise(a, b) && Pointwise(c, d)
    ensures Improved(a + c + rest, b + d + rest)
    ensures RequiredSkills(a + c + rest) == RequiredSkills(b + d + rest)
  {
    var x, y := a + c + rest, b + d + rest;
    forall k | 0 <= k < |x| ensures SameNeed(x[k], y[k]) && AtLeast(y[k].status, x[k].status) {
      if k < |a| {
        assert x[k] == a[k] && y[k] == b[k];
      } else if k < |a| + |c| {
        assert x[k] == c[k - |a|] && y[k] == d[k - |a|];
      }
    }
    assert forall k :: 0 <= k < |x| ==> SameNeed(x[k], y[k]);
  }

  /** Adding trusted skills never lowers any of the five scores. */
  lemma MoreSkillsNeverHurt(v: Vocabulary, vacancy: Vacancy, before: Facts, after: Facts, version: int, asOf: int)
    requires after == before.(skills := after.skills) && Names(v, before.skills) <= Names(v, after.skills)
    ensures var x, y := MatchFacts(v, vacancy, before, version, asOf), MatchFacts(v, vacancy, after, version, asOf);
      && x.required <= y.required && x.preferred <= y.preferred && x.coverage <= y.coverage
      && x.support == y.support && x.overall <= y.overall
  {
    hide AllRequirements, RelevantExperiences, RelevantProjects, SupportScore, OverallScore, RequiredScore, PreferredScore,
      CoverageScore, RequiredSkills, WithStatus, AddAll, RequirementWarnings, Names, Filter, RequirementClaims, RowClaims,
      NamedSkills, Backed, Improved;
    var a, b := AllRequirements(v, vacancy, before, asOf), AllRequirements(v, vacancy, after, asOf);
    RequirementsImprove(v, vacancy, before, after, asOf);
    var experiences := RelevantExperiences(v, before.experiences, NamedSkills(v, vacancy));
    var projects := RelevantProjects(v, before.projects, NamedSkills(v, vacancy));
    SameExperience(v, vacancy, before, after, asOf);
    ScoresMonotone(a, b, RequiredSkills(a), Backed(v, experiences + projects),
                   Statuses(ExperienceMatch(v, vacancy, before, asOf)));
  }

  lemma SameExperience(v: Vocabulary, vacancy: Vacancy, before: Facts, after: Facts, asOf: int)
    requires after == before.(skills := after.skills)
    ensures ExperienceMatch(v, vacancy, after, asOf) == ExperienceMatch(v, vacancy, before, asOf)
  {
  }

  /** All five scores of every match lie between 0 and 100. */
  lemma MatchScoresBounded(v: Vocabulary, vacancy: Vacancy, facts: Facts, version: int, asOf: int)
    ensures var m := MatchFacts(v, vacancy, facts, version, asOf);
      && m.required <= 100 && m.preferred <= 100 && m.coverage <= 100 && m.support <= 100 && m.overall <= 100
  {
    hide AllRequirements, RelevantExperiences, RelevantProjects, SupportScore, OverallScore, RequiredScore, PreferredScore,
      CoverageScore, RequiredSkills, WithStatus, AddAll, RequirementWarnings, Filter, RequirementClaims, RowClaims,
      NamedSkills, Backed;
    var all := AllRequirements(v, vacancy, facts, asOf);
    var experiences := RelevantExperiences(v, facts.experiences, NamedSkills(v, vacancy));
    var projects := RelevantProjects(v, facts.projects, NamedSkills(v, vacancy));
    ScoresBounded(all, RequiredSkills(all), Backed(v, experiences + projects),
                  Statuses(ExperienceMatch(v, vacancy, facts, asOf)));
  }

  // ---------------------------------------------------------------- experience requirements

  /** The rows an alternative of the requirement is made of: those using all
      subjects, or those using one of them. */
  ghost predicate UsesSubjects(v: Vocabulary, need: ExperienceNeed, row: Experience, subjects: set<string>) {
    && subjects != {} && subjects <= Norms(v, need.subjects) && subjects <= Norms(v, row.technologies)
    && (need.mode == ALL ==> subjects == Norms(v, need.subjects))
    && (need.mode != ALL ==> |subjects| == 1)
  }

  lemma {:induction false} FlattenEmpty(groups: seq<seq<Experience>>)
    requires forall k :: 0 <= k < |groups| ==> groups[k] == []
    ensures Flatten(groups) == []
  {
    if groups != [] {
      FlattenEmpty(groups[..|groups| - 1]);
    }
  }

  /** Without a technology subject, or with an ambiguous combination, never MATCH. */
  lemma NeverMatchUnclear(v: Vocabulary, need: ExperienceNeed, experiences: seq<Experience>, asOf: int)
    requires need.subjects == [] || need.mode == AMBIGUOUS
    ensures MatchExperience(v, need, experiences, asOf).status != MATCH
  {
    hide DurationStatus;
    var using := Using(v, need, experiences);
    if need.subjects == [] {
      assert Flatten(Alternatives(v, need, using)) == [];
    } else if using == [] {
      FlattenEmpty(Alternatives(v, need, using));
    }
  }

  lemma AlternativeRows(v: Vocabulary, need: ExperienceNeed, experiences: seq<Experience>, a: nat)
    requires forall texts :: (set t | t in v.sorted(texts)) == texts
    requires need.subjects != [] && need.mode != AMBIGUOUS
    requires a < |Alternatives(v, need, Using(v, need, experiences))|
    ensures exists subjects :: ExactlyUsing(v, need, experiences, Alternatives(v, need, Using(v, need, experiences))[a], subjects)
  {
    var norms := Norms(v, need.subjects);
    var using := Using(v, need, experiences);
    var rows := Alternatives(v, need, using)[a];
    assert v.normalize(need.subjects[0]) in norms;
    var names := v.sorted(norms);
    var subjects: set<string>;
    if need.mode == ALL {
      subjects := norms;
    } else {
      subjects := {names[a]};
      assert names[a] in (set t | t in names);
    }
    forall row ensures row in rows <==> row in experiences && UsesSubjects(v, need, row, subjects) {
      if need.mode == ALL {
        FilterMember((r: Experience) => norms <= Norms(v, r.technologies), using, row);
      } else {
        FilterMember((r: Experience) => names[a] in Norms(v, r.technologies), using, row);
      }
      FilterMember((r: Experience) => Norms(v, need.subjects) * Norms(v, r.technologies) != {}, experiences, row);
      if row in experiences && UsesSubjects(v, need, row, subjects) {
        var t :| t in subjects;
        assert t in Norms(v, need.subjects) * Norms(v, row.technologies);
      }
    }
    assert ExactlyUsing(v, need, experiences, rows, subjects);
  }

  /** The rows are all the experiences that use the subjects, and no others. */
  ghost predicate ExactlyUsing(v: Vocabulary, need: ExperienceNeed, experiences: seq<Experience>, rows: seq<Experience>,
                               subjects: set<string>)
  {
    forall row :: row in rows <==> row in experiences && UsesSubjects(v, need, row, subjects)
  }

  /** The rows of one alternative: exactly those using its subjects, covering the years. */
  ghost predicate AlternativeCovers(v: Vocabulary, need: ExperienceNeed, experiences: seq<Experience>, asOf: int, a: nat,
                                    subjects: set<string>)
  {
    var alternatives := Alternatives(v, need, Using(v, need, experiences));
    && a < |alternatives| && CoversYears(alternatives[a], need.years, asOf)
    && ExactlyUsing(v, need, experiences, alternatives[a], subjects)
  }

  /** An EXPERIENCE requirement is MATCH only when the trusted rows using its
      subjects (all of them, or one alternative's) cover the years on their own;
      days of different alternatives are never summed. */
  lemma ExperienceMatchMeaning(v: Vocabulary, need: ExperienceNeed, experiences: seq<Experience>, asOf: int)
    requires forall texts :: (set t | t in v.sorted(texts)) == texts
    requires MatchExperience(v, need, experiences, asOf).status == MATCH
    ensures need.subjects != [] && need.mode != AMBIGUOUS
    ensures exists a, subjects :: AlternativeCovers(v, need, experiences, asOf, a, subjects)
  {
    hide DurationStatus, CoversYears, ExactlyUsing;
    if need.subjects == [] || need.mode == AMBIGUOUS {
      NeverMatchUnclear(v, need, experiences, asOf);
    }
    var alternatives := Alternatives(v, need, Using(v, need, experiences));
    MatchIsCovered(alternatives, need.years, asOf);
    var a: nat :| a < |alternatives| && CoversYears(alternatives[a], need.years, asOf);
    AlternativeRows(v, need, experiences, a);
    var subjects :| ExactlyUsing(v, need, experiences, alternatives[a], subjects);
    assert AlternativeCovers(v, need, experiences, asOf, a, subjects);
  }

  lemma {:induction false} FlattenHas(groups: seq<seq<Experience>>, a: nat)
    requires a < |groups| && groups[a] != []
    ensures Flatten(groups) != []
  {
    if a < |groups| - 1 {
      FlattenHas(groups[..|groups| - 1], a);
    }
  }

  lemma {:induction false} DistinctHas(rows: seq<Experience>)
    requires rows != []
    ensures Distinct(rows) != []
  {
    if |rows| > 1 {
      DistinctHas(rows[..|rows| - 1]);
    }
  }

  lemma AlternativesAreReal(v: Vocabulary, need: ExperienceNeed, experiences: seq<Experience>, asOf: int, a: nat)
    requires forall texts :: (set t | t in v.sorted(texts)) == texts
    requires RealPeriods(experiences, asOf) && need.subjects != [] && need.mode != AMBIGUOUS
    requires a < |Alternatives(v, need, Using(v, need, experiences))|
    ensures RealPeriods(Alternatives(v, need, Using(v, need, experiences))[a], asOf)
  {
    hide Alternatives, Using;
    var rows := Alternatives(v, need, Using(v, need, experiences))[a];
    AlternativeRows(v, need, experiences, a);
    var subjects :| ExactlyUsing(v, need, experiences, rows, subjects);
    forall k | 0 <= k < |rows| ensures rows[k] in experiences {
      assert rows[k] in rows;
    }
  }

  /** When no current job starts after the reference day, an EXPERIENCE requirement
      is MATCH exactly when it is clear and one alternative covers the years. */
  lemma ExperienceMatchIff(v: Vocabulary, need: ExperienceNeed, experiences: seq<Experience>, asOf: int)
    requires forall texts :: (set t | t in v.sorted(texts)) == texts
    requires RealPeriods(experiences, asOf)
    ensures MatchExperience(v, need, experiences, asOf).status == MATCH <==>
      && need.subjects != [] && need.mode != AMBIGUOUS
      && exists a, subjects :: AlternativeCovers(v, need, experiences, asOf, a, subjects)
  {
    hide DurationStatus, CoversYears, ExactlyUsing, RealPeriods, Flatten, Distinct;
    if MatchExperience(v, need, experiences, asOf).status == MATCH {
      ExperienceMatchMeaning(v, need, experiences, asOf);
    } else if need.subjects != [] && need.mode != AMBIGUOUS {
      var alternatives := Alternatives(v, need, Using(v, need, experiences));
      if a: nat, subjects: set<string> :| AlternativeCovers(v, need, experiences, asOf, a, subjects) {
        CoveredHasRows(alternatives[a], need.years, asOf);
        FlattenHas(alternatives, a);
        DistinctHas(Flatten(alternatives));
        forall k | 0 <= k < |alternatives| ensures RealPeriods(alternatives[k], asOf) {
          AlternativesAreReal(v, need, experiences, asOf, k);
        }
        MatchIffCovered(alternatives, need.years, asOf);
      }
    }
  }

  lemma CoveredHasRows(rows: seq<Experience>, years: int, asOf: int)
    requires CoversYears(rows, years, asOf)
    ensures rows != []
  {
  }
}
