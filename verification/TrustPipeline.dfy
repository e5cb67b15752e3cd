/** Matcher, CV draft and letter together: only trusted facts matter. */
module TrustPipeline {
  import opened CandidateMatcher
  import opened CandidateProfile
  import opened CandidateTrust
  import opened CvAdapter
  import opened LetterRenderer
  import opened MatchModel
  import opened Sequences
  import opened Sorting
  import opened Wrappers

  datatype Application = Application(fit: Match, draft: Draft, letter: Option<Letter>)

  /** All three documents for one vacancy. */
  function Apply(v: Vocabulary, ph: Phrases, provider: Provider, vacancy: Vacancy, p: Profile, asOf: int): Application {
    var m := ComputeMatch(v, vacancy, p, asOf);
    var d := ComputeDraft(p, m);
    Application(m, d, LetterFor(ph, provider, d, m, vacancy.title, vacancy.company, vacancy.description))
  }

  /** Row ids are primary keys where rows are looked up by id. */
  predicate KeyedRows(p: Profile) {
    UniqueIds(SkillId, p.skills) && UniqueIds(ProjectId, p.projects)
  }

  /** For every vacancy, profile and provider: deleting every untrusted fact
      leaves the match, the CV draft and the letter unchanged. */
  lemma UntrustedFactsHaveNoInfluence(v: Vocabulary, ph: Phrases, provider: Provider, vacancy: Vacancy, p: Profile, asOf: int)
    requires KeyedRows(p)
    ensures Apply(v, ph, provider, vacancy, WithoutUntrusted(p), asOf) == Apply(v, ph, provider, vacancy, p, asOf)
  {
    hide ComputeMatch, ComputeDraft, LetterFor, WithoutUntrusted, UniqueIds;
    MatchIgnoresUntrusted(v, vacancy, p, asOf);
    DraftIgnoresUntrusted(v, vacancy, p, asOf);
  }

  /** Two profiles that agree on the trusted facts get the same documents. */
  lemma OnlyTrustedFactsMatter(v: Vocabulary, ph: Phrases, provider: Provider, vacancy: Vacancy, p: Profile, q: Profile,
                               asOf: int)
    requires KeyedRows(p) && KeyedRows(q) && WithoutUntrusted(p) == WithoutUntrusted(q)
    ensures Apply(v, ph, provider, vacancy, p, asOf) == Apply(v, ph, provider, vacancy, q, asOf)
  {
    hide Apply, KeyedRows, WithoutUntrusted;
    UntrustedFactsHaveNoInfluence(v, ph, provider, vacancy, p, asOf);
    UntrustedFactsHaveNoInfluence(v, ph, provider, vacancy, q, asOf);
  }

  // ---------------------------------------------------------------- what a letter can state

  /** The record states one trusted row of the profile. */
  ghost predicate StatesTrusted(p: Profile, r: Record) {
    match r
    case SkillRecord(name) => exists row :: row in Trusted(OfSkill, p.skills) && row.name == name
    case ExperienceRecord(company, role, technologies) =>
      exists row :: row in Trusted(OfExperience, p.experiences)
        && row.company == company && row.jobTitle == role && row.technologies == technologies
    case ProjectRecord(name, technologies, highlights) =>
      exists row :: row in Trusted(OfProject, p.projects)
        && row.name == name && row.technologies == technologies && row.highlights == highlights
    case LanguageRecord(language, level) =>
      exists row :: row in Trusted(OfLanguage, p.languages) && row.language == language && row.level == level
  }

  lemma {:induction false} RegisteredIsEntry(entries: seq<Entry>, id: string)
    requires id in Register(entries)
    ensures exists k :: 0 <= k < |entries| && entries[k].claim.id == id && entries[k].record == Register(entries)[id]
  {
    var n := |entries| - 1;
    if entries[n].claim.id != id {
      RegisteredIsEntry(entries[..n], id);
      var k :| 0 <= k < n && entries[..n][k].claim.id == id && entries[..n][k].record == Register(entries[..n])[id];
      assert entries[k].claim.id == id && entries[k].record == Register(entries)[id];
    }
  }

  lemma SkillLineTrusted(p: Profile, r: Requirement, line: CvSkill)
    requires UniqueIds(SkillId, p.skills) && SupportedBy(r, Trusted(OfSkill, p.skills)) && line in SkillLine(p, r)
    ensures StatesTrusted(p, SkillRecord(line.text))
  {
    hide Trusted;
    var kept := Trusted(OfSkill, p.skills);
    var k :| 0 <= k < |kept| && r.evidence[0] == SkillRef(kept[k]);
    TrustedLookup(OfSkill, SkillId, p.skills, kept[k]);
    assert kept[k] in kept && kept[k].name == line.text;
  }

  lemma {:induction false} SkillLinesTrusted(p: Profile, requirements: seq<Requirement>, line: CvSkill)
    requires UniqueIds(SkillId, p.skills) && AllSupported(requirements, Trusted(OfSkill, p.skills))
    requires line in SkillLines(p, requirements)
    ensures StatesTrusted(p, SkillRecord(line.text))
  {
    hide SkillLine, SupportedBy, Trusted, StatesTrusted, UniqueIds;
    var n := |requirements| - 1;
    if line in SkillLines(p, requirements[..n]) {
      SkillLinesTrusted(p, requirements[..n], line);
    } else {
      SkillLineTrusted(p, requirements[n], line);
    }
  }

  lemma ProjectLineTrusted(p: Profile, row: RelevantRow, line: CvProject)
    requires UniqueIds(ProjectId, p.projects) && NamesProject(row, Trusted(OfProject, p.projects))
    requires line in ProjectLine(p, row)
    ensures StatesTrusted(p, ProjectRecord(line.name, line.technologies, line.highlights))
  {
    hide Trusted;
    var kept := Trusted(OfProject, p.projects);
    var k :| 0 <= k < |kept| && kept[k].id == row.id;
    TrustedLookup(OfProject, ProjectId, p.projects, kept[k]);
    assert kept[k] in kept && kept[k].name == line.name;
  }

  lemma {:induction false} ProjectLinesTrusted(p: Profile, rows: seq<RelevantRow>, line: CvProject)
    requires UniqueIds(ProjectId, p.projects) && AllNamed(rows, Trusted(OfProject, p.projects))
    requires line in ProjectLines(p, rows)
    ensures StatesTrusted(p, ProjectRecord(line.name, line.technologies, line.highlights))
  {
    hide ProjectLine, NamesProject, Trusted, StatesTrusted, UniqueIds;
    var n := |rows| - 1;
    if line in ProjectLines(p, rows[..n]) {
      ProjectLinesTrusted(p, rows[..n], line);
    } else {
      ProjectLineTrusted(p, rows[n], line);
    }
  }

  lemma {:induction false} SortWithMembers<T>(less: (T, T) -> bool, items: seq<T>)
    ensures multiset(SortWith(less, items)) == multiset(items)
  {
    if items != [] {
      var n := |items| - 1;
      assert items == items[..n] + [items[n]];
      SortWithMembers(less, items[..n]);
      InsertWithKeeps(less, items[n], SortWith(less, items[..n]));
    }
  }

  lemma ExperienceLineTrusted(p: Profile, m: Match, line: CvExperience)
    requires line in SelectedExperience(p, m)
    ensures StatesTrusted(p, ExperienceRecord(line.company, line.jobTitle, line.technologies))
  {
    hide Trusted, SortWith, MatchedFor;
    var kept := Trusted(OfExperience, p.experiences);
    var ordered := SortWith(EarlierInCv, kept);
    SortWithMembers(EarlierInCv, kept);
    var k :| 0 <= k < |ordered| && SelectedExperience(p, m)[k] == line;
    assert ordered[k] in multiset(ordered) && ordered[k] in kept;
    assert ordered[k].company == line.company;
  }

  lemma {:induction false} LanguageLineTrusted(m: Match, rows: seq<Language>, line: CvLanguage)
    requires line in LanguageLines(m, rows)
    ensures exists row :: row in rows && row.language == line.language && row.level == line.level
  {
    hide LanguageRequirement;
    var n := |rows| - 1;
    if line in LanguageLines(m, rows[..n]) {
      LanguageLineTrusted(m, rows[..n], line);
      var row :| row in rows[..n] && row.language == line.language && row.level == line.level;
      assert row in rows;
    } else {
      assert rows[n] in rows && rows[n].language == line.language;
    }
  }

  lemma {:induction false} RankedFromDraft(ph: Phrases, text: string, languages: seq<CvLanguage>, x: Ranked)
    requires x in RankedLanguages(ph, text, languages)
    ensures x.language in languages
  {
    hide LanguageReason;
    var n := |languages| - 1;
    if x in RankedLanguages(ph, text, languages[..n]) {
      RankedFromDraft(ph, text, languages[..n], x);
    }
  }

  lemma RelevantFromDraft(ph: Phrases, languages: seq<CvLanguage>, title: string, description: string, line: CvLanguage)
    requires line in RelevantLanguages(ph, languages, title, description)
    ensures line in languages
  {
    hide RankedLanguages, SortBy;
    var ranked := RankedLanguages(ph, ph.fold(title + "\n" + description), languages);
    var sorted := SortBy(RankOf, ranked);
    SortFacts(RankOf, ranked);
    var k :| 0 <= k < |sorted| && RelevantLanguages(ph, languages, title, description)[k] == line;
    assert sorted[k] in multiset(sorted) && sorted[k] in ranked;
    RankedFromDraft(ph, ph.fold(title + "\n" + description), languages, sorted[k]);
  }

  lemma FilteredFrom<T>(keep: T -> bool, items: seq<T>, item: T)
    requires item in Filter(keep, items)
    ensures item in items
  {
    FilterMember(keep, items, item);
  }

  lemma MappedFrom<T, U>(f: T -> U, items: seq<T>, image: U)
    requires image in Map(f, items)
    ensures exists k :: 0 <= k < |items| && f(items[k]) == image
  {
    var k :| 0 <= k < |items| && Map(f, items)[k] == image;
  }

  lemma UpToFrom<T>(items: seq<T>, limit: nat, k: nat)
    requires k < |UpTo(items, limit)|
    ensures UpTo(items, limit)[k] in items
  {
    assert UpTo(items, limit)[k] == items[k];
  }

  lemma SkillEntryTrusted(v: Vocabulary, vacancy: Vacancy, p: Profile, asOf: int, e: Entry)
    requires KeyedRows(p)
    requires e in Map(SkillEntry, ComputeDraft(p, ComputeMatch(v, vacancy, p, asOf)).skills)
    ensures StatesTrusted(p, e.record)
  {
    hide ComputeMatch, SkillLines, SortBy, MatchedSkills, UniqueIds, AllSupported, Header, TopLevelFact, Warnings, Trusted,
      StatesTrusted;
    var m := ComputeMatch(v, vacancy, p, asOf);
    var skills := ComputeDraft(p, m).skills;
    MappedFrom(SkillEntry, skills, e);
    var k :| 0 <= k < |skills| && SkillEntry(skills[k]) == e;
    SortedSkillsSupported(v, vacancy, p, asOf);
    assert skills[k] in skills;
    SkillLinesTrusted(p, SortBy(ImportanceRank, MatchedSkills(m)), skills[k]);
  }

  lemma ProjectEntryTrusted(v: Vocabulary, vacancy: Vacancy, p: Profile, asOf: int, e: Entry)
    requires KeyedRows(p)
    requires e in Map(ProjectEntry, UpTo(ComputeDraft(p, ComputeMatch(v, vacancy, p, asOf)).projects, MAX_PROJECT_CLAIMS))
    ensures StatesTrusted(p, e.record)
  {
    hide ComputeMatch, ProjectLines, SortWith, UniqueIds, AllNamed, Header, TopLevelFact, Warnings, Trusted, StatesTrusted,
      UpTo;
    var m := ComputeMatch(v, vacancy, p, asOf);
    var projects := ComputeDraft(p, m).projects;
    MappedFrom(ProjectEntry, UpTo(projects, MAX_PROJECT_CLAIMS), e);
    var k :| 0 <= k < |UpTo(projects, MAX_PROJECT_CLAIMS)| && ProjectEntry(UpTo(projects, MAX_PROJECT_CLAIMS)[k]) == e;
    UpToFrom(projects, MAX_PROJECT_CLAIMS, k);
    SortedProjectsNamed(v, vacancy, p, asOf);
    ProjectLinesTrusted(p, SortWith(MoreMatched, m.projects), UpTo(projects, MAX_PROJECT_CLAIMS)[k]);
  }

  lemma ExperienceEntryTrusted(p: Profile, m: Match, e: Entry)
    requires e in Map(ExperienceEntry,
                      UpTo(Filter((x: CvExperience) => x.matchedSkills != [], SelectedExperience(p, m)), MAX_EXPERIENCE_CLAIMS))
    ensures StatesTrusted(p, e.record)
  {
    hide SelectedExperience, StatesTrusted, UpTo, Filter;
    var chosen := Filter((x: CvExperience) => x.matchedSkills != [], SelectedExperience(p, m));
    var few := UpTo(chosen, MAX_EXPERIENCE_CLAIMS);
    MappedFrom(ExperienceEntry, few, e);
    var k :| 0 <= k < |few| && ExperienceEntry(few[k]) == e;
    UpToFrom(chosen, MAX_EXPERIENCE_CLAIMS, k);
    FilteredFrom((x: CvExperience) => x.matchedSkills != [], SelectedExperience(p, m), few[k]);
    ExperienceLineTrusted(p, m, few[k]);
  }

  lemma LanguageEntryTrusted(ph: Phrases, p: Profile, m: Match, title: string, description: string, e: Entry)
    requires e in Map(LanguageEntry,
                      UpTo(RelevantLanguages(ph, SelectedLanguages(p, m), title, description), MAX_LANGUAGE_CLAIMS))
    ensures StatesTrusted(p, e.record)
  {
    hide UpTo, RelevantLanguages, LanguageLines, Trusted;
    var chosen := RelevantLanguages(ph, SelectedLanguages(p, m), title, description);
    var few := UpTo(chosen, MAX_LANGUAGE_CLAIMS);
    MappedFrom(LanguageEntry, few, e);
    var k :| 0 <= k < |few| && LanguageEntry(few[k]) == e;
    UpToFrom(chosen, MAX_LANGUAGE_CLAIMS, k);
    RelevantFromDraft(ph, SelectedLanguages(p, m), title, description, few[k]);
    LanguageLineTrusted(m, Trusted(OfLanguage, p.languages), few[k]);
  }

  /** Whatever a provider answers, every record its claim ids can name states a
      trusted row of the profile: no sentence can assert anything else. */
  lemma LetterStatesTrustedRows(v: Vocabulary, ph: Phrases, vacancy: Vacancy, p: Profile, asOf: int, id: string)
    requires KeyedRows(p)
    requires id in Register(Entries(ph, ComputeDraft(p, ComputeMatch(v, vacancy, p, asOf)), vacancy.title, vacancy.description))
    ensures StatesTrusted(p, Register(
      Entries(ph, ComputeDraft(p, ComputeMatch(v, vacancy, p, asOf)), vacancy.title, vacancy.description))[id])
  {
    hide ComputeMatch, Header, TopLevelFact, SelectedSkills, SelectedProjects, SelectedExperience, SelectedEducation,
      SelectedLanguages, Trusted, Warnings, KeyedRows, StatesTrusted, UpTo, RelevantLanguages, Filter, Register, Map;
    var m := ComputeMatch(v, vacancy, p, asOf);
    var d := ComputeDraft(p, m);
    var entries := Entries(ph, d, vacancy.title, vacancy.description);
    RegisteredIsEntry(entries, id);
    var k :| 0 <= k < |entries| && entries[k].claim.id == id && entries[k].record == Register(entries)[id];
    var e := entries[k];
    assert e in entries;
    var skills, projects := Map(SkillEntry, d.skills), Map(ProjectEntry, UpTo(d.projects, MAX_PROJECT_CLAIMS));
    var experience := Map(ExperienceEntry,
      UpTo(Filter((x: CvExperience) => x.matchedSkills != [], d.experience), MAX_EXPERIENCE_CLAIMS));
    var languages := Map(LanguageEntry,
      UpTo(RelevantLanguages(ph, d.languages, vacancy.title, vacancy.description), MAX_LANGUAGE_CLAIMS));
    assert entries == skills + projects + experience + languages;
    if e in skills {
      SkillEntryTrusted(v, vacancy, p, asOf, e);
    } else if e in projects {
      ProjectEntryTrusted(v, vacancy, p, asOf, e);
    } else if e in experience {
      ExperienceEntryTrusted(p, m, e);
    } else {
      LanguageEntryTrusted(ph, p, m, vacancy.title, vacancy.description, e);
    }
  }

  /** The paragraph is the fixed general one, or its sentences are rendered from records
      that each state a trusted row, one for each claim: every sentence names such
      a record, and every one of them is named. */
  ghost predicate StatesOnlyTrusted(ph: Phrases, p: Profile, focus: seq<string>, paragraph: LetterParagraph) {
    || (paragraph.text == GENERIC_SENTENCE && paragraph.sources == [])
    || exists records :: RenderedFrom(ph, p, focus, paragraph, records)
  }

  ghost predicate RenderedFrom(ph: Phrases, p: Profile, focus: seq<string>, paragraph: LetterParagraph, records: seq<Record>) {
    && |records| == |paragraph.sources| && records != []
    && (forall k :: 0 <= k < |records| ==> StatesTrusted(p, records[k]))
    && paragraph.text == Join(" ", Sentences(ph, records, focus))
    && NameEachOther(records, Sentences(ph, records, focus))
  }

  lemma {:induction false} ParagraphIds(paragraphs: seq<Paragraph>, k: nat, i: nat)
    requires k < |paragraphs| && i < |paragraphs[k].claimIds|
    ensures paragraphs[k].claimIds[i] in AllIds(paragraphs)
  {
    var n := |paragraphs| - 1;
    if k < n {
      ParagraphIds(paragraphs[..n], k, i);
    }
  }

  /** Whatever a provider answers: every sentence of every paragraph of the letter's body
      names trusted rows only, or is the fixed general one. */
  lemma LetterSentencesAreTrusted(v: Vocabulary, ph: Phrases, provider: Provider, vacancy: Vacancy, p: Profile, asOf: int)
    requires KeyedRows(p) && Apply(v, ph, provider, vacancy, p, asOf).letter.Some?
    ensures var body := Apply(v, ph, provider, vacancy, p, asOf).letter.value.body;
      forall k :: 0 <= k < |body| ==> StatesOnlyTrusted(ph, p, ph.focus(vacancy.title, vacancy.description), body[k])
  {
    hide ComputeMatch, ComputeDraft, KeyedRows, StatesTrusted, Entries, Register, PacketFor, Sentences, Join, NameEachOther;
    var m := ComputeMatch(v, vacancy, p, asOf);
    var d := ComputeDraft(p, m);
    var registry := Register(Entries(ph, d, vacancy.title, vacancy.description));
    var plan := provider(PacketFor(d, m, vacancy.title, vacancy.company, vacancy.description,
                                   Map(ClaimOf, Entries(ph, d, vacancy.title, vacancy.description)))).value;
    var focus := ph.focus(vacancy.title, vacancy.description);
    var body := Apply(v, ph, provider, vacancy, p, asOf).letter.value.body;
    var resolved := ResolveAll(plan.paragraphs, registry);
    assert body == Body(ph, plan.paragraphs, resolved, focus);
    forall k | 0 <= k < |body| ensures StatesOnlyTrusted(ph, p, focus, body[k]) {
      var ids := plan.paragraphs[k].claimIds;
      forall i | 0 <= i < |ids| ensures ids[i] in registry && StatesTrusted(p, registry[ids[i]]) {
        ParagraphIds(plan.paragraphs, k, i);
        LetterStatesTrustedRows(v, ph, vacancy, p, asOf, ids[i]);
      }
      if plan.paragraphs[k].kind == EVIDENCE {
        SentencesNameRecords(ph, resolved[k], focus);
        assert RenderedFrom(ph, p, focus, body[k], resolved[k]);
      }
    }
  }
}
