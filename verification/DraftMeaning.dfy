/** What the CV draft of `app/agents/cv_adapter.py` shows, in terms of the trusted
    rows of the profile and of the match it is made from. */
module DraftMeaning {
  import opened CandidateMatcher
  import opened CandidateProfile
  import opened CandidateTrust
  import opened CvAdapter
  import opened MatchModel
  import opened PythonText
  import opened Sequences
  import opened Sorting
  import opened Wrappers

  // ---------------------------------------------------------------- header

  /** `core` is `text` without the white space around it. */
  ghost predicate TrimsTo(text: string, core: string) {
    exists a: nat, b: nat :: TrimsAt(text, core, a, b)
  }

  ghost predicate TrimsAt(text: string, core: string, a: nat, b: nat) {
    && a < b <= |text| && core == text[a..b]
    && IsBlankText(text[..a]) && !IsSpace(text[a])
    && IsBlankText(text[b..]) && !IsSpace(text[b - 1])
  }

  /** The fact states a usable, non-blank top-level value of the profile. */
  ghost predicate StatesFact(p: Profile, field: TopField, fact: CvFact) {
    && field in p.facts && p.facts[field].trust.Some? && IsUsable(p.facts[field].trust.value)
    && TrimsTo(p.facts[field].value, fact.value)
    && fact.sourceId == p.id && fact.field == field && fact.version == p.version
  }

  /** The header holds exactly the usable values, the summary apart. */
  ghost predicate HeaderIsTrusted(p: Profile, d: Draft) {
    && ProfessionalSummary !in d.header
    && (forall field, fact :: field != ProfessionalSummary ==>
          (field in d.header && d.header[field] == fact <==> StatesFact(p, field, fact)))
    && (forall fact :: d.summary == Some(fact) <==> StatesFact(p, ProfessionalSummary, fact))
  }

  lemma StripTrims(text: string)
    requires Strip(text) != ""
    ensures TrimsTo(text, Strip(text))
  {
    hide IsSpace;
    var r := RStrip(text);
    var core := LStrip(r);
    var a, b := |r| - |core|, |r|;
    assert text[..a] == r[..a];
    assert text[a] == core[0];
    assert TrimsAt(text, core, a, b);
  }

  lemma {:induction false} RStripAt(text: string, b: nat)
    requires b <= |text| && IsBlankText(text[b..]) && (b > 0 ==> !IsSpace(text[b - 1]))
    ensures RStrip(text) == text[..b]
  {
    hide IsSpace;
    if b < |text| {
      var n := |text| - 1;
      assert IsSpace(text[b..][n - b]);
      assert text[..n][b..] == text[b..][..n - b];
      RStripAt(text[..n], b);
      assert text[..n][..b] == text[..b];
    } else {
      assert text[..b] == text;
    }
  }

  lemma {:induction false} LStripAt(text: string, a: nat)
    requires a <= |text| && IsBlankText(text[..a]) && (a < |text| ==> !IsSpace(text[a]))
    ensures LStrip(text) == text[a..]
  {
    hide IsSpace;
    if a > 0 {
      assert IsSpace(text[..a][0]);
      assert text[1..][..a - 1] == text[..a][1..];
      LStripAt(text[1..], a - 1);
    }
  }

  lemma TrimIsStrip(text: string, core: string)
    requires TrimsTo(text, core)
    ensures core == Strip(text)
  {
    hide IsSpace;
    var a: nat, b: nat :| TrimsAt(text, core, a, b);
    RStripAt(text, b);
    assert text[..b][..a] == text[..a];
    LStripAt(text[..b], a);
  }

  lemma FactMeaning(p: Profile, field: TopField, fact: CvFact)
    ensures TopLevelFact(p, field) == Some(fact) <==> StatesFact(p, field, fact)
  {
    hide Strip, TrimsTo, IsUsable;
    if field in p.facts {
      var text := p.facts[field].value;
      if Strip(text) != "" {
        StripTrims(text);
      }
      if TrimsTo(text, fact.value) {
        TrimIsStrip(text, fact.value);
        NonBlank(text, fact.value);
      }
    }
  }

  lemma NonBlank(text: string, core: string)
    requires TrimsTo(text, core)
    ensures core != ""
  {
  }

  lemma HeaderMeaning(p: Profile, m: Match)
    ensures HeaderIsTrusted(p, ComputeDraft(p, m))
  {
    hide TopLevelFact, StatesFact;
    forall field, fact
      ensures TopLevelFact(p, field) == Some(fact) <==> StatesFact(p, field, fact)
    {
      FactMeaning(p, field, fact);
    }
  }

  // ---------------------------------------------------------------- skills

  /** Required before preferred before the rest. */
  predicate SoonerNeeded(a: Requirement, b: Requirement) {
    || (a.importance == REQUIRED && b.importance != REQUIRED)
    || (a.importance == PREFERRED && b.importance == UNSTATED)
  }

  ghost predicate IsSkillLine(p: Profile, r: Requirement, line: CvSkill) {
    exists row :: row in p.skills && IsUsable(row.trust) && r.evidence != [] && r.evidence[0].id == row.id
      && line == CvSkill(row.name, row.category, row.proficiency, row.years, row.id, r.text, r.importance)
  }

  /** One line for each matched single or grouped skill, by importance and then as matched. */
  ghost predicate SkillsAreShown(p: Profile, m: Match, d: Draft) {
    exists picked, ordered :: SkillsShownAs(p, m, d, picked, ordered)
  }

  ghost predicate SkillsShownAs(p: Profile, m: Match, d: Draft, picked: seq<Requirement>, ordered: seq<Requirement>) {
    && Selects(picked, m.matched, (r: Requirement) => r.kind == SKILL && r.status == MATCH)
    && SortsStably(SoonerNeeded, ordered, picked)
    && |d.skills| == |ordered|
    && forall k :: 0 <= k < |ordered| ==> IsSkillLine(p, ordered[k], d.skills[k])
  }

  lemma SortsSame<T>(less: (T, T) -> bool, other: (T, T) -> bool, sorted: seq<T>, items: seq<T>)
    requires SortsStably(less, sorted, items)
    requires forall i, j :: 0 <= i < |items| && 0 <= j < |items| ==> less(items[i], items[j]) == other(items[i], items[j])
    ensures SortsStably(other, sorted, items)
  {
    var at :| SortsAt(less, sorted, items, at);
    forall i, j | 0 <= i < j < |at|
      ensures ComesBefore(other, sorted[i], sorted[j], at[i], at[j])
    {
      assert ComesBefore(less, sorted[i], sorted[j], at[i], at[j]);
    }
    assert SortsAt(other, sorted, items, at);
  }

  lemma SkillLineMeaning(p: Profile, r: Requirement)
    requires UniqueIds(SkillId, p.skills) && SupportedBy(r, Trusted(OfSkill, p.skills))
    ensures |SkillLine(p, r)| == 1 && IsSkillLine(p, r, SkillLine(p, r)[0])
  {
    hide Trusted, IsUsable;
    var kept := Trusted(OfSkill, p.skills);
    var k :| 0 <= k < |kept| && r.evidence[0] == SkillRef(kept[k]);
    assert kept[k] in kept;
    TrustedLookup(OfSkill, SkillId, p.skills, kept[k]);
    TrustedRow(OfSkill, p.skills, kept[k]);
  }

  lemma {:induction false} SkillLinesMeaning(p: Profile, requirements: seq<Requirement>)
    requires UniqueIds(SkillId, p.skills) && AllSupported(requirements, Trusted(OfSkill, p.skills))
    ensures |SkillLines(p, requirements)| == |requirements|
    ensures forall k :: 0 <= k < |requirements| ==> IsSkillLine(p, requirements[k], SkillLines(p, requirements)[k])
  {
    hide SkillLine, SupportedBy, Trusted, IsSkillLine, UniqueIds;
    if requirements != [] {
      SkillLinesMeaning(p, requirements[..|requirements| - 1]);
      SkillLineMeaning(p, requirements[|requirements| - 1]);
    }
  }

  lemma SoonerIsRank(a: Requirement, b: Requirement)
    ensures KeyLess(ImportanceRank)(a, b) == SoonerNeeded(a, b)
  {
    assert KeyLess(ImportanceRank)(a, b) == (ImportanceRank(a) < ImportanceRank(b));
  }

  lemma SkillOrder(picked: seq<Requirement>)
    ensures SortsStably(SoonerNeeded, SortBy(ImportanceRank, picked), picked)
  {
    SortByIsStable(ImportanceRank, picked);
    forall a, b ensures KeyLess(ImportanceRank)(a, b) == SoonerNeeded(a, b) {
      SoonerIsRank(a, b);
    }
    hide SoonerNeeded, SortsStably, SortBy;
    SortsSame(KeyLess(ImportanceRank), SoonerNeeded, SortBy(ImportanceRank, picked), picked);
  }

  lemma SkillsMeaning(v: Vocabulary, vacancy: Vacancy, p: Profile, asOf: int)
    requires UniqueIds(SkillId, p.skills)
    ensures SkillsAreShown(p, ComputeMatch(v, vacancy, p, asOf), ComputeDraft(p, ComputeMatch(v, vacancy, p, asOf)))
  {
    hide ComputeMatch, UniqueIds, AllSupported, Trusted;
    var m := ComputeMatch(v, vacancy, p, asOf);
    var d := ComputeDraft(p, m);
    var picked := MatchedSkills(m);
    var ordered := SortBy(ImportanceRank, picked);
    FilterSelects((r: Requirement) => r.kind == SKILL && r.status == MATCH, m.matched);
    assert Selects(picked, m.matched, (r: Requirement) => r.kind == SKILL && r.status == MATCH);
    SkillOrder(picked);
    SortedSkillsSupported(v, vacancy, p, asOf);
    assert d.skills == SkillLines(p, ordered);
    hide ComputeDraft, MatchedSkills, SortBy, Selects, SortsStably, IsSkillLine, SkillLines;
    SkillLinesMeaning(p, ordered);
    assert SkillsShownAs(p, m, d, picked, ordered);
  }

  // ---------------------------------------------------------------- projects

  /** The line shows a trusted project with the relevant row's id, and the technologies it was relevant for. */
  ghost predicate IsProjectLine(p: Profile, relevant: RelevantRow, line: CvProject) {
    exists x :: x in p.projects && IsUsable(x.trust) && x.id == relevant.id
      && line == CvProject(x.id, x.name, x.description, x.role, x.technologies, x.repositoryUrl, x.demoUrl, x.startDate,
                           x.endDate, x.highlights, relevant.matchedSkills)
  }

  /** One line for each relevant project, the one relevant for most technologies first. */
  ghost predicate ProjectsAreShown(p: Profile, m: Match, d: Draft) {
    exists ranked :: ProjectsShownAs(p, m, d, ranked)
  }

  ghost predicate ProjectsShownAs(p: Profile, m: Match, d: Draft, ranked: seq<RelevantRow>) {
    && SortsStably((a: RelevantRow, b: RelevantRow) => |a.matchedSkills| > |b.matchedSkills|, ranked, m.projects)
    && |d.projects| == |ranked|
    && forall k :: 0 <= k < |ranked| ==> IsProjectLine(p, ranked[k], d.projects[k])
  }

  lemma ProjectLineMeaning(p: Profile, row: RelevantRow)
    requires UniqueIds(ProjectId, p.projects) && NamesProject(row, Trusted(OfProject, p.projects))
    ensures |ProjectLine(p, row)| == 1 && IsProjectLine(p, row, ProjectLine(p, row)[0])
  {
    hide Trusted, IsUsable;
    var kept := Trusted(OfProject, p.projects);
    var k :| 0 <= k < |kept| && kept[k].id == row.id;
    assert kept[k] in kept;
    TrustedLookup(OfProject, ProjectId, p.projects, kept[k]);
    TrustedRow(OfProject, p.projects, kept[k]);
  }

  lemma {:induction false} ProjectLinesMeaning(p: Profile, rows: seq<RelevantRow>)
    requires UniqueIds(ProjectId, p.projects) && AllNamed(rows, Trusted(OfProject, p.projects))
    ensures |ProjectLines(p, rows)| == |rows|
    ensures forall k :: 0 <= k < |rows| ==> IsProjectLine(p, rows[k], ProjectLines(p, rows)[k])
  {
    hide ProjectLine, NamesProject, Trusted, IsProjectLine, UniqueIds;
    if rows != [] {
      ProjectLinesMeaning(p, rows[..|rows| - 1]);
      ProjectLineMeaning(p, rows[|rows| - 1]);
    }
  }

  lemma ProjectOrder(rows: seq<RelevantRow>)
    ensures SortsStably((a: RelevantRow, b: RelevantRow) => |a.matchedSkills| > |b.matchedSkills|,
                        SortWith(MoreMatched, rows), rows)
  {
    MoreMatchedIsOrder();
    SortWithIsStable(MoreMatched, rows);
    hide SortWith, SortsStably, WeakOrder;
    SortsSame(MoreMatched, (a: RelevantRow, b: RelevantRow) => |a.matchedSkills| > |b.matchedSkills|,
              SortWith(MoreMatched, rows), rows);
  }

  lemma ProjectsMeaning(v: Vocabulary, vacancy: Vacancy, p: Profile, asOf: int)
    requires UniqueIds(ProjectId, p.projects)
    ensures ProjectsAreShown(p, ComputeMatch(v, vacancy, p, asOf), ComputeDraft(p, ComputeMatch(v, vacancy, p, asOf)))
  {
    hide ComputeMatch, UniqueIds, AllNamed, Trusted;
    var m := ComputeMatch(v, vacancy, p, asOf);
    var d := ComputeDraft(p, m);
    var ranked := SortWith(MoreMatched, m.projects);
    assert d.projects == ProjectLines(p, ranked);
    hide ComputeDraft, SortWith, SortsStably, IsProjectLine, ProjectLines;
    ProjectOrder(m.projects);
    SortedProjectsNamed(v, vacancy, p, asOf);
    ProjectLinesMeaning(p, ranked);
    assert ProjectsShownAs(p, m, d, ranked);
  }

  // ---------------------------------------------------------------- experience, education, certifications

  /** Current before past; then dated before undated, and the later start first. */
  predicate SoonerShown(a: Experience, b: Experience) {
    || (a.isCurrent && !b.isCurrent)
    || (a.isCurrent == b.isCurrent && a.startDate.Some? && b.startDate.None?)
    || (a.isCurrent == b.isCurrent && a.startDate.Some? && b.startDate.Some? && a.startDate.value > b.startDate.value)
  }

  /** `matched` are the technologies of the last relevant row with this id, none if there is none. */
  ghost predicate MatchedWith(rows: seq<RelevantRow>, id: int, matched: seq<string>) {
    || (exists k :: 0 <= k < |rows| && rows[k].id == id && matched == rows[k].matchedSkills
          && forall j :: k < j < |rows| ==> rows[j].id != id)
    || (matched == [] && forall k :: 0 <= k < |rows| ==> rows[k].id != id)
  }

  ghost predicate IsExperienceLine(m: Match, x: Experience, line: CvExperience) {
    exists matched :: MatchedWith(m.experiences, x.id, matched)
      && line == CvExperience(x.id, x.company, x.jobTitle, x.startDate, x.endDate, x.isCurrent, x.location, x.description,
                              x.responsibilities, x.achievements, x.technologies, matched, matched != [])
  }

  /** One line for each trusted experience, in order. */
  ghost predicate ExperienceIsShown(p: Profile, m: Match, d: Draft) {
    exists ordered :: ExperienceShownAs(p, m, d, ordered)
  }

  ghost predicate ExperienceShownAs(p: Profile, m: Match, d: Draft, ordered: seq<Experience>) {
    && SortsStably(SoonerShown, ordered, Trusted(OfExperience, p.experiences))
    && |d.experience| == |ordered|
    && forall k :: 0 <= k < |ordered| ==> IsExperienceLine(m, ordered[k], d.experience[k])
  }

  /** The day an education ended, or began if no end is known. */
  ghost predicate OnDay(x: Education, day: int) {
    x.endDate == Some(day) || (x.endDate == None && x.startDate == Some(day))
  }

  /** Dated before undated, and the later day first. */
  ghost predicate SoonerListed(a: Education, b: Education) {
    exists day :: OnDay(a, day) && forall other :: OnDay(b, other) ==> day > other
  }

  /** The trusted education in order, and the trusted certifications as they stand. */
  ghost predicate EducationIsShown(p: Profile, d: Draft) {
    && SortsStably(SoonerListed, d.education, Trusted(OfEducation, p.education))
    && Selects(d.certifications, p.certifications, Usable(OfCertification))
  }

  lemma {:induction false} MatchedForMeaning(rows: seq<RelevantRow>, id: int)
    ensures MatchedWith(rows, id, MatchedFor(rows, id))
  {
    if rows != [] {
      var n := |rows| - 1;
      if rows[n].id != id {
        MatchedForMeaning(rows[..n], id);
        if k :| 0 <= k < n && rows[..n][k].id == id {
          var i :| 0 <= i < n && rows[..n][i].id == id && MatchedFor(rows, id) == rows[..n][i].matchedSkills
            && forall j :: i < j < n ==> rows[..n][j].id != id;
          assert forall j :: i < j < n ==> rows[j].id == rows[..n][j].id;
          assert rows[i].id == id;
        } else {
          assert forall j :: 0 <= j < n ==> rows[..n][j] == rows[j];
        }
      }
    }
  }

  lemma ExperienceOrder(rows: seq<Experience>)
    ensures SortsStably(SoonerShown, SortWith(EarlierInCv, rows), rows)
  {
    assert WeakOrder(EarlierInCv);
    SortWithIsStable(EarlierInCv, rows);
    forall a, b ensures EarlierInCv(a, b) == SoonerShown(a, b) {
    }
    hide SortWith, SortsStably, WeakOrder, EarlierInCv, SoonerShown;
    SortsSame(EarlierInCv, SoonerShown, SortWith(EarlierInCv, rows), rows);
  }

  lemma ExperienceMeaning(p: Profile, m: Match)
    ensures ExperienceIsShown(p, m, ComputeDraft(p, m))
  {
    hide SortWith, SortsStably, Trusted, MatchedFor, MatchedWith;
    var rows := Trusted(OfExperience, p.experiences);
    var ordered := SortWith(EarlierInCv, rows);
    var lines := ComputeDraft(p, m).experience;
    ExperienceOrder(rows);
    assert |lines| == |ordered| && forall k :: 0 <= k < |ordered| ==> lines[k] == ExperienceLine(m, ordered[k]);
    hide ComputeDraft;
    forall k | 0 <= k < |ordered| ensures IsExperienceLine(m, ordered[k], lines[k]) {
      MatchedForMeaning(m.experiences, ordered[k].id);
    }
    assert ExperienceShownAs(p, m, ComputeDraft(p, m), ordered);
  }

  lemma DayMeaning(a: Education, b: Education)
    ensures SoonerListed(a, b) == LaterEducation(a, b)
  {
    forall day ensures OnDay(a, day) <==> EducationDay(a) == Some(day) {
    }
    forall day ensures OnDay(b, day) <==> EducationDay(b) == Some(day) {
    }
    hide OnDay;
    if LaterEducation(a, b) {
      assert OnDay(a, EducationDay(a).value);
    }
    if SoonerListed(a, b) && EducationDay(b).Some? {
      assert OnDay(b, EducationDay(b).value);
    }
  }

  lemma EducationMeaning(p: Profile, m: Match)
    ensures EducationIsShown(p, ComputeDraft(p, m))
  {
    var rows := Trusted(OfEducation, p.education);
    assert ComputeDraft(p, m).education == SortWith(LaterEducation, rows);
    assert ComputeDraft(p, m).certifications == Trusted(OfCertification, p.certifications);
    assert WeakOrder(LaterEducation);
    SortWithIsStable(LaterEducation, rows);
    forall a, b ensures SoonerListed(a, b) == LaterEducation(a, b) {
      DayMeaning(a, b);
    }
    hide ComputeDraft, SortWith, SortsStably, WeakOrder, LaterEducation, SoonerListed, IsUsable, Trusted, Selects;
    SortsSame(LaterEducation, SoonerListed, ComputeDraft(p, m).education, rows);
    TrustedInOrder(OfCertification, p.certifications);
  }

  // ---------------------------------------------------------------- languages

  /** A language requirement of the match cites this row. */
  ghost predicate CitesLanguage(r: Requirement, id: int) {
    r.kind == LANGUAGE && exists value :: EvidenceRef(LANGUAGE, id, value) in r.evidence
  }

  /** `r` is the first of the requirements that cites the row. */
  ghost predicate FirstCiting(requirements: seq<Requirement>, id: int, r: Requirement) {
    exists k :: 0 <= k < |requirements| && requirements[k] == r && CitesLanguage(r, id)
      && forall j :: 0 <= j < k ==> !CitesLanguage(requirements[j], id)
  }

  ghost predicate NoneCites(requirements: seq<Requirement>, id: int) {
    forall k :: 0 <= k < |requirements| ==> !CitesLanguage(requirements[k], id)
  }

  /** The line shows the language, and what the first requirement citing it says. */
  ghost predicate IsLanguageLine(m: Match, x: Language, line: CvLanguage) {
    var requirements := m.matched + m.partials + m.unknown;
    || (NoneCites(requirements, x.id) && line == CvLanguage(x.id, x.language, x.level, x.certificate, None, None))
    || (exists r :: FirstCiting(requirements, x.id, r)
          && line == CvLanguage(x.id, x.language, x.level, x.certificate, Some(r.text), Some(r.status)))
  }

  ghost predicate LanguagesAreShown(p: Profile, m: Match, d: Draft) {
    var rows := Trusted(OfLanguage, p.languages);
    |d.languages| == |rows| && forall k :: 0 <= k < |rows| ==> IsLanguageLine(m, rows[k], d.languages[k])
  }

  lemma RefersMeaning(r: Requirement, id: int)
    ensures RefersTo(r, id) <==> CitesLanguage(r, id)
  {
    if RefersTo(r, id) {
      var k :| 0 <= k < |r.evidence| && r.evidence[k].kind == LANGUAGE && r.evidence[k].id == id;
      assert r.evidence[k] == EvidenceRef(LANGUAGE, id, r.evidence[k].value);
    }
  }

  lemma {:induction false} FirstCitingMeaning(requirements: seq<Requirement>, id: int)
    ensures LanguageRequirement(requirements, id).None? ==> NoneCites(requirements, id)
    ensures LanguageRequirement(requirements, id).Some? ==>
      FirstCiting(requirements, id, LanguageRequirement(requirements, id).value)
  {
    hide RefersTo, CitesLanguage;
    if requirements != [] {
      RefersMeaning(requirements[0], id);
      if !RefersTo(requirements[0], id) {
        var rest := requirements[1..];
        FirstCitingMeaning(rest, id);
        assert forall k :: 1 <= k < |requirements| ==> rest[k - 1] == requirements[k];
        if LanguageRequirement(rest, id).Some? {
          var r := LanguageRequirement(rest, id).value;
          var k :| 0 <= k < |rest| && rest[k] == r && CitesLanguage(r, id)
            && forall j :: 0 <= j < k ==> !CitesLanguage(rest[j], id);
          assert requirements[k + 1] == r;
        }
      }
    }
  }

  lemma {:induction false} LanguageLinesAt(m: Match, rows: seq<Language>)
    ensures |LanguageLines(m, rows)| == |rows|
    ensures forall k :: 0 <= k < |rows| ==> LanguageLines(m, rows)[k] == LanguageLine(m, rows[k])
  {
    hide LanguageLine;
    if rows != [] {
      LanguageLinesAt(m, rows[..|rows| - 1]);
    }
  }

  lemma LanguagesMeaning(p: Profile, m: Match)
    ensures LanguagesAreShown(p, m, ComputeDraft(p, m))
  {
    var rows := Trusted(OfLanguage, p.languages);
    LanguageLinesAt(m, rows);
    assert ComputeDraft(p, m).languages == LanguageLines(m, rows);
    hide ComputeDraft, Trusted, LanguageLines, FirstCiting, NoneCites, LanguageRequirement;
    forall k | 0 <= k < |rows| ensures IsLanguageLine(m, rows[k], LanguageLine(m, rows[k])) {
      FirstCitingMeaning(m.matched + m.partials + m.unknown, rows[k].id);
    }
  }

  // ---------------------------------------------------------------- warnings

  const ALL_WARNINGS := [
    NoTrustedName, NoTrustedTitle, NoRelevantSkills, NoRelevantExperience, NoMatchRelevantExperience, NoRelevantProjects,
    NoTrustedEducation, NoTrustedLanguages, ContactDataNotModeled]

  /** What each warning says of the draft. */
  predicate Applies(d: Draft, w: CvWarning) {
    match w
    case NoTrustedName => FirstName !in d.header && LastName !in d.header
    case NoTrustedTitle => ProfessionalTitle !in d.header
    case NoRelevantSkills => d.skills == []
    case NoRelevantExperience => d.experience == []
    case NoMatchRelevantExperience =>
      d.experience != [] && forall k :: 0 <= k < |d.experience| ==> !d.experience[k].highlighted
    case NoRelevantProjects => d.projects == []
    case NoTrustedEducation => d.education == []
    case NoTrustedLanguages => d.languages == []
    case ContactDataNotModeled => true
  }

  function Says(d: Draft, w: CvWarning): seq<CvWarning> {
    Warn(Applies(d, w), w)
  }

  lemma SaysNext(d: Draft, said: seq<CvWarning>, before: seq<CvWarning>, w: CvWarning)
    requires Selects(said, before, (x: CvWarning) => Applies(d, x))
    ensures Selects(said + Says(d, w), before + [w], (x: CvWarning) => Applies(d, x))
  {
    hide Selects, Applies;
    SelectsNext(said, before, (x: CvWarning) => Applies(d, x), w);
  }

  function AllSaid(d: Draft): seq<CvWarning> {
    Says(d, NoTrustedName) + Says(d, NoTrustedTitle) + Says(d, NoRelevantSkills) + Says(d, NoRelevantExperience)
    + Says(d, NoMatchRelevantExperience) + Says(d, NoRelevantProjects) + Says(d, NoTrustedEducation)
    + Says(d, NoTrustedLanguages) + Says(d, ContactDataNotModeled)
  }

  lemma AllSaidMeaning(d: Draft)
    ensures Selects(AllSaid(d), ALL_WARNINGS, (x: CvWarning) => Applies(d, x))
  {
    hide Selects, Says, Applies;
    SelectsNothing((x: CvWarning) => Applies(d, x));
    var said, before: seq<CvWarning> := [], [];
    SaysNext(d, said, before, NoTrustedName);
    said, before := said + Says(d, NoTrustedName), before + [NoTrustedName];
    SaysNext(d, said, before, NoTrustedTitle);
    said, before := said + Says(d, NoTrustedTitle), before + [NoTrustedTitle];
    SaysNext(d, said, before, NoRelevantSkills);
    said, before := said + Says(d, NoRelevantSkills), before + [NoRelevantSkills];
    SaysNext(d, said, before, NoRelevantExperience);
    said, before := said + Says(d, NoRelevantExperience), before + [NoRelevantExperience];
    SaysNext(d, said, before, NoMatchRelevantExperience);
    said, before := said + Says(d, NoMatchRelevantExperience), before + [NoMatchRelevantExperience];
    SaysNext(d, said, before, NoRelevantProjects);
    said, before := said + Says(d, NoRelevantProjects), before + [NoRelevantProjects];
    SaysNext(d, said, before, NoTrustedEducation);
    said, before := said + Says(d, NoTrustedEducation), before + [NoTrustedEducation];
    SaysNext(d, said, before, NoTrustedLanguages);
    said, before := said + Says(d, NoTrustedLanguages), before + [NoTrustedLanguages];
    SaysNext(d, said, before, ContactDataNotModeled);
    said, before := said + Says(d, ContactDataNotModeled), before + [ContactDataNotModeled];
    assert before == ALL_WARNINGS;
    assert [] + Says(d, NoTrustedName) == Says(d, NoTrustedName);
  }

  /** Exactly the warnings that apply, in their fixed order; projects come first when
      there is no trusted experience to show before them. */
  lemma WarningsMeaning(p: Profile, m: Match)
    ensures var d := ComputeDraft(p, m);
      && d.jobId == m.jobId && d.version == m.version
      && Selects(d.warnings, ALL_WARNINGS, (w: CvWarning) => Applies(d, w))
      && (d.projectsFirst <==> d.experience == [] && d.projects != [])
  {
    var d := ComputeDraft(p, m);
    AllSaidMeaning(d);
    WarningsAre(p, m);
    hide Selects, Warnings, AllSaid, TopLevelFact, SelectedSkills, SelectedExperience, SelectedProjects, SelectedEducation,
      SelectedLanguages, Trusted, Header;
  }

  ghost predicate HighlightsMatched(lines: seq<CvExperience>) {
    forall k :: 0 <= k < |lines| ==> (lines[k].highlighted <==> lines[k].matchedSkills != [])
  }

  lemma WarningsAre(p: Profile, m: Match)
    ensures ComputeDraft(p, m).warnings == AllSaid(ComputeDraft(p, m))
  {
    hide Warnings, AllSaid, TopLevelFact, SelectedSkills, SelectedExperience, SelectedProjects, SelectedEducation,
      SelectedLanguages, Trusted, Header;
    HighlightedMeaning(p, m);
    WarningsOf(ComputeDraft(p, m));
  }

  lemma WarningsOf(d: Draft)
    requires HighlightsMatched(d.experience)
    ensures Warnings(d.header, d.skills, d.experience, d.projects, d.education, d.languages) == AllSaid(d)
  {
    var lines := d.experience;
    assert (forall k :: 0 <= k < |lines| ==> lines[k].matchedSkills == [])
      <==> forall k :: 0 <= k < |lines| ==> !lines[k].highlighted;
  }

  lemma HighlightedMeaning(p: Profile, m: Match)
    ensures HighlightsMatched(SelectedExperience(p, m))
  {
    hide SortWith, Trusted, MatchedFor;
  }
}
