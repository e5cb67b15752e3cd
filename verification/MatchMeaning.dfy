/** What a computed match of `app/agents/candidate_job_matcher.py` says about each
    requirement of the vacancy, in terms of the trusted facts of the profile. */
module MatchMeaning {
  import opened CandidateMatcher
  import opened CandidateProfile
  import opened ExperienceDuration
  import opened MatchModel
  import opened MatchScores
  import opened Sequences
  import opened Wrappers

  // ---------------------------------------------------------------- every requirement is listed once

  /** The requirement is in the list of its status, and in no other. */
  predicate Listed(m: Match, q: Requirement) {
    && (q in m.matched <==> q.status == MATCH) && (q in m.partials <==> q.status == PARTIAL)
    && (q in m.missing <==> q.status == MISSING) && (q in m.unknown <==> q.status == UNKNOWN)
  }

  lemma {:induction false} StatusesCover(all: seq<Requirement>)
    ensures |WithStatus(all, MATCH)| + |WithStatus(all, PARTIAL)| + |WithStatus(all, MISSING)|
      + |WithStatus(all, UNKNOWN)| == |all|
  {
    if all != [] {
      StatusesCover(all[..|all| - 1]);
    }
  }

  lemma ListsOf(v: Vocabulary, vacancy: Vacancy, p: Profile, asOf: int)
    ensures var m, all := ComputeMatch(v, vacancy, p, asOf), AllRequirements(v, vacancy, UsableFacts(p), asOf);
      && m.matched == WithStatus(all, MATCH) && m.partials == WithStatus(all, PARTIAL)
      && m.missing == WithStatus(all, MISSING) && m.unknown == WithStatus(all, UNKNOWN)
  {
    hide AllRequirements, WithStatus, UsableFacts;
  }

  lemma ListedByStatus(v: Vocabulary, vacancy: Vacancy, p: Profile, asOf: int, q: Requirement)
    requires q in AllRequirements(v, vacancy, UsableFacts(p), asOf)
    ensures Listed(ComputeMatch(v, vacancy, p, asOf), q)
  {
    hide AllRequirements, UsableFacts, ComputeMatch;
    ListsOf(v, vacancy, p, asOf);
    var all := AllRequirements(v, vacancy, UsableFacts(p), asOf);
    FilterMember((r: Requirement) => r.status == MATCH, all, q);
    FilterMember((r: Requirement) => r.status == PARTIAL, all, q);
    FilterMember((r: Requirement) => r.status == MISSING, all, q);
    FilterMember((r: Requirement) => r.status == UNKNOWN, all, q);
  }

  /** The four lists together hold exactly one requirement for each need of the vacancy. */
  lemma EveryNeedListed(v: Vocabulary, vacancy: Vacancy, p: Profile, asOf: int)
    ensures var m := ComputeMatch(v, vacancy, p, asOf);
      |m.matched| + |m.partials| + |m.missing| + |m.unknown|
        == |vacancy.skills| + |vacancy.categories| + |vacancy.languages| + (if vacancy.education.Some? then 1 else 0)
           + (if vacancy.experience.Some? then 1 else 0) + |vacancy.unevaluated|
  {
    ListsOf(v, vacancy, p, asOf);
    StatusesCover(AllRequirements(v, vacancy, UsableFacts(p), asOf));
    hide ComputeMatch, UsableFacts, WithStatus, MatchEducation, MatchExperience;
  }

  // ---------------------------------------------------------------- skills

  /** The first row with this normalized name. */
  ghost predicate FirstSkill(v: Vocabulary, skills: seq<Skill>, key: string, i: int) {
    && 0 <= i < |skills| && v.normalize(skills[i].name) == key
    && forall j :: 0 <= j < i ==> v.normalize(skills[j].name) != key
  }

  ghost predicate NoSkill(v: Vocabulary, skills: seq<Skill>, key: string) {
    forall i :: 0 <= i < |skills| ==> v.normalize(skills[i].name) != key
  }

  lemma {:induction false} FirstExists(v: Vocabulary, skills: seq<Skill>, key: string)
    requires !NoSkill(v, skills, key)
    ensures exists i :: FirstSkill(v, skills, key, i)
  {
    var n := |skills| - 1;
    if NoSkill(v, skills[..n], key) {
      assert forall j :: 0 <= j < n ==> skills[..n][j] == skills[j];
      assert FirstSkill(v, skills, key, n);
    } else {
      FirstExists(v, skills[..n], key);
      var i :| FirstSkill(v, skills[..n], key, i);
      assert forall j :: 0 <= j <= i ==> skills[..n][j] == skills[j];
      assert FirstSkill(v, skills, key, i);
    }
  }

  lemma {:induction false} FirstNamedAt(v: Vocabulary, skills: seq<Skill>, key: string, i: int)
    requires FirstSkill(v, skills, key, i)
    ensures FirstNamed(v, skills, key) == Some(skills[i])
  {
    var n := |skills| - 1;
    if i < n {
      assert forall j :: 0 <= j <= i ==> skills[..n][j] == skills[j];
      FirstNamedAt(v, skills[..n], key, i);
    } else {
      FirstNamedIsRow(v, skills[..n], key);
    }
  }

  lemma FirstNamedMeaning(v: Vocabulary, skills: seq<Skill>, key: string)
    ensures FirstNamed(v, skills, key).None? <==> NoSkill(v, skills, key)
    ensures forall i :: FirstSkill(v, skills, key, i) ==> FirstNamed(v, skills, key) == Some(skills[i])
    ensures FirstNamed(v, skills, key).Some? ==> exists i :: FirstSkill(v, skills, key, i)
  {
    hide FirstNamed;
    FirstNamedIsRow(v, skills, key);
    if !NoSkill(v, skills, key) {
      FirstExists(v, skills, key);
    }
    forall i | FirstSkill(v, skills, key, i) ensures FirstNamed(v, skills, key) == Some(skills[i]) {
      FirstNamedAt(v, skills, key, i);
    }
  }

  /** The row is the first of its name, and the name is related to the requirement. */
  ghost predicate RelatedRow(v: Vocabulary, skills: seq<Skill>, key: string, i: int) {
    0 <= i < |skills| && v.normalize(skills[i].name) in v.related(key)
    && FirstSkill(v, skills, v.normalize(skills[i].name), i)
  }

  /** This skill is such a row. */
  ghost predicate IsRelated(v: Vocabulary, skills: seq<Skill>, key: string, row: Skill) {
    exists i :: RelatedRow(v, skills, key, i) && skills[i] == row
  }

  lemma RelatedGrows(v: Vocabulary, skills: seq<Skill>, key: string, i: int)
    requires skills != [] && i < |skills| - 1
    ensures RelatedRow(v, skills, key, i) <==> RelatedRow(v, skills[..|skills| - 1], key, i)
  {
    var n := |skills| - 1;
    assert forall j :: 0 <= j < n ==> skills[..n][j] == skills[j];
  }

  lemma RelatedLast(v: Vocabulary, skills: seq<Skill>, key: string)
    requires skills != []
    ensures var n := |skills| - 1;
      RelatedRow(v, skills, key, n) <==>
        v.normalize(skills[n].name) in v.related(key) && FirstNamed(v, skills[..n], v.normalize(skills[n].name)).None?
  {
    var n := |skills| - 1;
    FirstNamedIsRow(v, skills[..n], v.normalize(skills[n].name));
    hide FirstNamed;
    assert forall j :: 0 <= j < n ==> skills[..n][j] == skills[j];
  }

  lemma {:induction false} RelatedRows(v: Vocabulary, skills: seq<Skill>, key: string, row: Skill)
    ensures row in RelatedSkills(v, skills, key) <==> IsRelated(v, skills, key, row)
  {
    if skills != [] {
      var n := |skills| - 1;
      RelatedRows(v, skills[..n], key, row);
      RelatedLast(v, skills, key);
      forall i | i < n ensures RelatedRow(v, skills, key, i) <==> RelatedRow(v, skills[..n], key, i) {
        RelatedGrows(v, skills, key, i);
      }
      RelatedRange(v, skills, key);
      RelatedRange(v, skills[..n], key);
      assert row in RelatedSkills(v, skills, key)
        <==> row in RelatedSkills(v, skills[..n], key) || (RelatedRow(v, skills, key, n) && row == skills[n]);
      hide RelatedRow, FirstNamed, RelatedSkills, FirstSkill;
      if IsRelated(v, skills[..n], key, row) {
        var i :| RelatedRow(v, skills[..n], key, i) && skills[..n][i] == row;
        assert RelatedRow(v, skills, key, i) && skills[i] == row;
      }
      if IsRelated(v, skills, key, row) {
        var i :| RelatedRow(v, skills, key, i) && skills[i] == row;
        if i < n {
          assert RelatedRow(v, skills[..n], key, i) && skills[..n][i] == row;
        }
      }
    }
  }

  lemma RelatedRange(v: Vocabulary, skills: seq<Skill>, key: string)
    ensures forall i :: RelatedRow(v, skills, key, i) ==> 0 <= i < |skills|
  {
  }

  ghost predicate SomeRelated(v: Vocabulary, skills: seq<Skill>, key: string) {
    exists i :: RelatedRow(v, skills, key, i)
  }

  /** MATCH with the first skill of the name; else UNKNOWN citing the related skills, if
      there are any; else MISSING. */
  ghost predicate SkillVerdict(v: Vocabulary, need: SkillNeed, skills: seq<Skill>, q: Requirement) {
    var key := v.normalize(need.text);
    && q.text == need.text && q.normalized == key && q.kind == SKILL && q.importance == need.importance
    && q.jobEvidence == [need.text]
    && (forall i :: FirstSkill(v, skills, key, i) ==>
          q.status == MATCH && q.evidence == [EvidenceRef(SKILL, skills[i].id, skills[i].name)])
    && (NoSkill(v, skills, key) && !SomeRelated(v, skills, key) ==> q.status == MISSING && q.evidence == [])
    && (NoSkill(v, skills, key) && SomeRelated(v, skills, key) ==>
          && q.status == UNKNOWN
          && forall e :: e in q.evidence <==> CitesRelated(v, skills, key, e))
  }

  ghost predicate CitesRelated(v: Vocabulary, skills: seq<Skill>, key: string, e: EvidenceRef) {
    exists i :: RelatedRow(v, skills, key, i) && e == EvidenceRef(SKILL, skills[i].id, skills[i].name)
  }

  lemma SkillMeaning(v: Vocabulary, need: SkillNeed, skills: seq<Skill>)
    ensures SkillVerdict(v, need, skills, MatchSkill(v, need, skills))
  {
    var key := v.normalize(need.text);
    RelatedRange(v, skills, key);
    hide FirstNamed, RelatedSkills, RelatedRow, IsRelated;
    FirstNamedMeaning(v, skills, key);
    var related := RelatedSkills(v, skills, key);
    RelatedEvidence(v, skills, key);
  }

  lemma RelatedEvidence(v: Vocabulary, skills: seq<Skill>, key: string)
    ensures RelatedSkills(v, skills, key) != [] <==> SomeRelated(v, skills, key)
    ensures forall e :: e in SkillRefs(RelatedSkills(v, skills, key)) <==> CitesRelated(v, skills, key, e)
  {
    var related := RelatedSkills(v, skills, key);
    forall row ensures row in related <==> IsRelated(v, skills, key, row) {
      RelatedRows(v, skills, key, row);
    }
    RelatedRange(v, skills, key);
    hide RelatedSkills, RelatedRow;
    if related != [] {
      assert related[0] in related;
      assert IsRelated(v, skills, key, related[0]);
    }
    if i :| RelatedRow(v, skills, key, i) {
      assert IsRelated(v, skills, key, skills[i]);
    }
    forall e ensures e in SkillRefs(related) <==> CitesRelated(v, skills, key, e) {
      if e in SkillRefs(related) {
        var k :| 0 <= k < |related| && SkillRefs(related)[k] == e;
        assert related[k] in related && IsRelated(v, skills, key, related[k]);
      }
      if CitesRelated(v, skills, key, e) {
        var i :| RelatedRow(v, skills, key, i) && e == EvidenceRef(SKILL, skills[i].id, skills[i].name);
        assert IsRelated(v, skills, key, skills[i]);
        var k :| 0 <= k < |related| && related[k] == skills[i];
        assert SkillRefs(related)[k] == e;
      }
    }
  }

  /** An example of the category is the name of a skill, whose first row is cited. */
  ghost predicate CitesExample(v: Vocabulary, need: CategoryNeed, skills: seq<Skill>, e: EvidenceRef) {
    exists k, i :: 0 <= k < |need.examples| && FirstSkill(v, skills, v.normalize(need.examples[k]), i)
      && e == EvidenceRef(SKILL, skills[i].id, skills[i].name)
  }

  /** MATCH when a skill is one of the examples, UNKNOWN otherwise; exactly these skills are cited. */
  ghost predicate CategoryVerdict(v: Vocabulary, need: CategoryNeed, skills: seq<Skill>, q: Requirement) {
    && q.text == need.text && q.normalized == need.key && q.kind == SKILL && q.importance == need.importance
    && q.jobEvidence == need.evidence
    && (forall e :: e in q.evidence <==> CitesExample(v, need, skills, e))
    && q.status == if q.evidence != [] then MATCH else UNKNOWN
  }

  lemma {:induction false} HitRows(v: Vocabulary, examples: seq<string>, skills: seq<Skill>, row: Skill)
    ensures row in Hits(v, examples, skills) <==>
      exists k :: 0 <= k < |examples| && FirstNamed(v, skills, v.normalize(examples[k])) == Some(row)
  {
    hide FirstNamed;
    if examples != [] {
      var n := |examples| - 1;
      HitRows(v, examples[..n], skills, row);
      if k :| 0 <= k < n && FirstNamed(v, skills, v.normalize(examples[..n][k])) == Some(row) {
        assert FirstNamed(v, skills, v.normalize(examples[k])) == Some(row);
      }
    }
  }

  lemma CategoryMeaning(v: Vocabulary, need: CategoryNeed, skills: seq<Skill>)
    ensures CategoryVerdict(v, need, skills, MatchCategory(v, need, skills))
  {
    hide FirstNamed, Hits;
    var hits := Hits(v, need.examples, skills);
    forall e ensures e in SkillRefs(hits) <==> CitesExample(v, need, skills, e) {
      if e in SkillRefs(hits) {
        var j :| 0 <= j < |hits| && SkillRefs(hits)[j] == e;
        HitRows(v, need.examples, skills, hits[j]);
        var k :| 0 <= k < |need.examples| && FirstNamed(v, skills, v.normalize(need.examples[k])) == Some(hits[j]);
        FirstNamedMeaning(v, skills, v.normalize(need.examples[k]));
        var i :| FirstSkill(v, skills, v.normalize(need.examples[k]), i);
        assert FirstSkill(v, skills, v.normalize(need.examples[k]), i) && skills[i] == hits[j];
      }
      if CitesExample(v, need, skills, e) {
        var k, i :| 0 <= k < |need.examples| && FirstSkill(v, skills, v.normalize(need.examples[k]), i)
          && e == EvidenceRef(SKILL, skills[i].id, skills[i].name);
        FirstNamedMeaning(v, skills, v.normalize(need.examples[k]));
        HitRows(v, need.examples, skills, skills[i]);
        var j :| 0 <= j < |hits| && hits[j] == skills[i];
        assert SkillRefs(hits)[j] == e;
      }
    }
  }

  ghost predicate SkillListed(v: Vocabulary, need: SkillNeed, skills: seq<Skill>, m: Match) {
    exists q :: SkillVerdict(v, need, skills, q) && Listed(m, q)
  }

  ghost predicate CategoryListed(v: Vocabulary, need: CategoryNeed, skills: seq<Skill>, m: Match) {
    exists q :: CategoryVerdict(v, need, skills, q) && Listed(m, q)
  }

  /** Each skill need of the vacancy is answered so in the computed match, by the trusted skills. */
  lemma SkillOutcome(v: Vocabulary, vacancy: Vacancy, p: Profile, asOf: int, k: nat)
    requires k < |vacancy.skills|
    ensures SkillListed(v, vacancy.skills[k], Trusted(OfSkill, p.skills), ComputeMatch(v, vacancy, p, asOf))
  {
    hide ComputeMatch, Trusted, SkillVerdict, MatchSkill, MatchCategories, MatchLanguages, MatchEducation,
      ExperienceMatch, UnevaluatedAll;
    var need, trusted := vacancy.skills[k], Trusted(OfSkill, p.skills);
    SkillMeaning(v, need, trusted);
    var found := MatchSkills(v, vacancy.skills, trusted);
    assert found[k] in found;
    ListedByStatus(v, vacancy, p, asOf, found[k]);
  }

  lemma CategoryOutcome(v: Vocabulary, vacancy: Vacancy, p: Profile, asOf: int, k: nat)
    requires k < |vacancy.categories|
    ensures CategoryListed(v, vacancy.categories[k], Trusted(OfSkill, p.skills), ComputeMatch(v, vacancy, p, asOf))
  {
    hide ComputeMatch, Trusted, CategoryVerdict, MatchCategory, MatchSkills, MatchLanguages, MatchEducation,
      ExperienceMatch, UnevaluatedAll;
    var need, trusted := vacancy.categories[k], Trusted(OfSkill, p.skills);
    CategoryMeaning(v, need, trusted);
    var found := MatchCategories(v, vacancy.categories, trusted);
    assert found[k] in found;
    ListedByStatus(v, vacancy, p, asOf, found[k]);
  }

  // ---------------------------------------------------------------- languages

  /** The levels in their order. */
  const LEVELS := [A1, A2, B1, B2, C1, C2, NATIVE]

  /** The level stands at the needed one or behind it. */
  predicate NotBelow(own: Level, needed: Level) {
    exists i, j :: 0 <= i <= j < |LEVELS| && LEVELS[i] == needed && LEVELS[j] == own
  }

  lemma RankMeaning(own: Level, needed: Level)
    requires own != UNKNOWN_LEVEL && needed != UNKNOWN_LEVEL
    ensures Rank(own) >= Rank(needed) <==> NotBelow(own, needed)
  {
    assert LEVELS[Rank(own) - 1] == own && LEVELS[Rank(needed) - 1] == needed;
  }

  /** The first record of the language, as the requirement names it. */
  ghost predicate FirstRecord(v: Vocabulary, languages: seq<Language>, name: string, i: int) {
    && 0 <= i < |languages| && v.canonicalLanguage(languages[i].language) == Some(name)
    && forall j :: 0 <= j < i ==> v.canonicalLanguage(languages[j].language) != Some(name)
  }

  ghost predicate NoRecord(v: Vocabulary, languages: seq<Language>, name: string) {
    forall i :: 0 <= i < |languages| ==> v.canonicalLanguage(languages[i].language) != Some(name)
  }

  lemma {:induction false} FirstLanguageMeaning(v: Vocabulary, languages: seq<Language>, name: string)
    ensures FirstLanguage(v, languages, name).None? <==> NoRecord(v, languages, name)
    ensures forall i :: FirstRecord(v, languages, name, i) ==> FirstLanguage(v, languages, name) == Some(languages[i])
  {
    if languages != [] {
      var n := |languages| - 1;
      FirstLanguageMeaning(v, languages[..n], name);
      forall i | FirstRecord(v, languages, name, i)
        ensures FirstLanguage(v, languages, name) == Some(languages[i])
      {
        if i < n {
          assert FirstRecord(v, languages[..n], name, i);
        } else {
          assert NoRecord(v, languages[..n], name);
        }
      }
      if !NoRecord(v, languages[..n], name) {
        var i :| 0 <= i < n && v.canonicalLanguage(languages[..n][i].language) == Some(name);
        assert v.canonicalLanguage(languages[i].language) == Some(name);
      }
    }
  }

  /** A requirement of the need, with this status and this evidence. */
  ghost predicate LanguageAnswered(need: LanguageNeed, q: Requirement, status: Status, evidence: seq<EvidenceRef>) {
    && q.text == need.text && q.normalized == need.normalized && q.kind == LANGUAGE && q.importance == need.importance
    && q.jobEvidence == [need.evidence] && q.status == status && q.evidence == evidence
  }

  /** What is said about a language, by the first record of it. */
  ghost predicate LanguageVerdict(v: Vocabulary, need: LanguageNeed, languages: seq<Language>, q: Requirement) {
    && (NoRecord(v, languages, need.language) ==> LanguageAnswered(need, q, MISSING, []))
    && forall i :: FirstRecord(v, languages, need.language, i) ==>
         var own := languages[i];
         var status :=
           if own.level == UNKNOWN_LEVEL then UNKNOWN else if NotBelow(own.level, need.level) then MATCH else PARTIAL;
         LanguageAnswered(need, q, status, [EvidenceRef(LANGUAGE, own.id, own.language)])
  }

  /** MISSING without a record, UNKNOWN when the first record has no level, MATCH when its
      level is not below the required one, PARTIAL otherwise. */
  lemma LanguageStatusMeaning(v: Vocabulary, need: LanguageNeed, languages: seq<Language>)
    requires need.level != UNKNOWN_LEVEL
    ensures LanguageVerdict(v, need, languages, MatchLanguage(v, need, languages))
  {
    FirstLanguageMeaning(v, languages, need.language);
    hide FirstLanguage, NoRecord, NotBelow;
    forall i | FirstRecord(v, languages, need.language, i)
      ensures languages[i].level != UNKNOWN_LEVEL ==>
        (Rank(languages[i].level) >= Rank(need.level) <==> NotBelow(languages[i].level, need.level))
    {
      if languages[i].level != UNKNOWN_LEVEL {
        RankMeaning(languages[i].level, need.level);
      }
    }
  }

  ghost predicate LanguageListed(v: Vocabulary, need: LanguageNeed, languages: seq<Language>, m: Match) {
    exists q :: LanguageVerdict(v, need, languages, q) && Listed(m, q)
  }

  lemma LanguageRequirementIn(v: Vocabulary, vacancy: Vacancy, facts: Facts, asOf: int, k: nat)
    requires k < |vacancy.languages|
    ensures MatchLanguage(v, vacancy.languages[k], facts.languages) in AllRequirements(v, vacancy, facts, asOf)
  {
    hide MatchLanguage, MatchSkills, MatchCategories, MatchEducation, ExperienceMatch, UnevaluatedAll;
    var found := MatchLanguages(v, vacancy.languages, facts.languages);
    assert found[k] in found;
  }

  /** Each language need of the vacancy is answered so in the computed match, by the
      trusted records of the profile. */
  lemma LanguageOutcome(v: Vocabulary, vacancy: Vacancy, p: Profile, asOf: int, k: nat)
    requires k < |vacancy.languages| && vacancy.languages[k].level != UNKNOWN_LEVEL
    ensures LanguageListed(v, vacancy.languages[k], Trusted(OfLanguage, p.languages), ComputeMatch(v, vacancy, p, asOf))
  {
    hide ComputeMatch, AllRequirements, Trusted, LanguageVerdict, MatchLanguage;
    var need, trusted := vacancy.languages[k], Trusted(OfLanguage, p.languages);
    var q := MatchLanguage(v, need, trusted);
    LanguageStatusMeaning(v, need, trusted);
    LanguageRequirementIn(v, vacancy, UsableFacts(p), asOf, k);
    ListedByStatus(v, vacancy, p, asOf, q);
  }

  // ---------------------------------------------------------------- education

  /** The row names a required field. */
  predicate NamesField(v: Vocabulary, need: EducationNeed, row: Education) {
    exists field :: field in need.fields && field in v.degreeFields(row.fieldOfStudy, row.program, row.degree)
  }

  ghost predicate HasCompleted(education: seq<Education>) {
    exists i :: 0 <= i < |education| && education[i].completed
  }

  ghost predicate HasNaming(v: Vocabulary, need: EducationNeed, education: seq<Education>) {
    exists i :: 0 <= i < |education| && education[i].completed && NamesField(v, need, education[i])
  }

  /** The education is among those cited. */
  ghost predicate Cited(v: Vocabulary, need: EducationNeed, education: seq<Education>, row: Education) {
    row in education && row.completed
    && (need.fields == {} || !HasNaming(v, need, education) || NamesField(v, need, row))
  }

  /** MISSING without a completed education; MATCH when one names a required field, or when
      no field is required; UNKNOWN otherwise. Exactly these educations are cited. */
  ghost predicate EducationVerdict(v: Vocabulary, need: EducationNeed, education: seq<Education>, q: Requirement) {
    && q.text == need.text && q.normalized == "completed-degree" && q.kind == EDUCATION
    && q.importance == need.importance && q.jobEvidence == [need.evidence]
    && (q.status == MISSING <==> !HasCompleted(education))
    && (q.status == MATCH <==> HasCompleted(education) && (need.fields == {} || HasNaming(v, need, education)))
    && (q.status == UNKNOWN <==> HasCompleted(education) && need.fields != {} && !HasNaming(v, need, education))
    && forall e :: e in q.evidence <==>
         exists row :: Cited(v, need, education, row) && e == EvidenceRef(EDUCATION, row.id, row.institution)
  }

  lemma RefsOf(rows: seq<Education>, e: EvidenceRef)
    ensures e in EducationRefs(rows) <==>
      exists row :: row in rows && e == EvidenceRef(EDUCATION, row.id, row.institution)
  {
    if e in EducationRefs(rows) {
      var k :| 0 <= k < |rows| && EducationRefs(rows)[k] == e;
      assert rows[k] in rows;
    }
    if row :| row in rows && e == EvidenceRef(EDUCATION, row.id, row.institution) {
      var k :| 0 <= k < |rows| && rows[k] == row;
      assert EducationRefs(rows)[k] == e;
    }
  }

  function Completed(education: seq<Education>): seq<Education> {
    Filter((row: Education) => row.completed, education)
  }

  function Naming(v: Vocabulary, need: EducationNeed, education: seq<Education>): seq<Education> {
    Filter((row: Education) => v.degreeFields(row.fieldOfStudy, row.program, row.degree) * need.fields != {},
           Completed(education))
  }

  lemma CompletedMeaning(v: Vocabulary, need: EducationNeed, education: seq<Education>)
    ensures forall row :: row in Completed(education) <==> row in education && row.completed
    ensures forall row :: row in Naming(v, need, education) <==>
      row in education && row.completed && NamesField(v, need, row)
    ensures Completed(education) == [] <==> !HasCompleted(education)
    ensures Naming(v, need, education) == [] <==> !HasNaming(v, need, education)
  {
    var completed, naming := Completed(education), Naming(v, need, education);
    forall row
      ensures row in completed <==> row in education && row.completed
      ensures row in naming <==> row in education && row.completed && NamesField(v, need, row)
    {
      FilterMember((row: Education) => row.completed, education, row);
      FilterMember((row: Education) => v.degreeFields(row.fieldOfStudy, row.program, row.degree) * need.fields != {},
                   completed, row);
      NamesMeaning(v, need, row);
    }
    hide NamesField, Completed, Naming;
    if completed != [] {
      assert completed[0] in completed;
    }
    if naming != [] {
      assert naming[0] in naming;
    }
    forall i | 0 <= i < |education| ensures education[i] in education {
    }
  }

  lemma NamesMeaning(v: Vocabulary, need: EducationNeed, row: Education)
    ensures v.degreeFields(row.fieldOfStudy, row.program, row.degree) * need.fields != {} <==> NamesField(v, need, row)
  {
    var both := v.degreeFields(row.fieldOfStudy, row.program, row.degree) * need.fields;
    if field :| field in both {
      assert field in need.fields;
    }
    if NamesField(v, need, row) {
      var field :| field in need.fields && field in v.degreeFields(row.fieldOfStudy, row.program, row.degree);
      assert field in both;
    }
  }

  lemma EducationStatusMeaning(v: Vocabulary, need: EducationNeed, education: seq<Education>)
    ensures EducationVerdict(v, need, education, MatchEducation(v, need, education))
  {
    CompletedMeaning(v, need, education);
    var completed, naming := Completed(education), Naming(v, need, education);
    var cited :=
      if completed == [] then []
      else if need.fields == {} then completed
      else if naming != [] then naming
      else completed;
    var q := MatchEducation(v, need, education);
    assert q.evidence == EducationRefs(cited);
    hide EducationRefs, Completed, Naming, NamesField;
    forall e
      ensures e in EducationRefs(cited) <==>
        exists row :: Cited(v, need, education, row) && e == EvidenceRef(EDUCATION, row.id, row.institution)
    {
      RefsOf(cited, e);
      assert forall row :: row in cited <==> Cited(v, need, education, row);
    }
  }

  ghost predicate EducationListed(v: Vocabulary, need: EducationNeed, education: seq<Education>, m: Match) {
    exists q :: EducationVerdict(v, need, education, q) && Listed(m, q)
  }

  /** The education need of the vacancy is answered so in the computed match. */
  lemma EducationOutcome(v: Vocabulary, vacancy: Vacancy, p: Profile, asOf: int)
    requires vacancy.education.Some?
    ensures EducationListed(v, vacancy.education.value, Trusted(OfEducation, p.education),
                            ComputeMatch(v, vacancy, p, asOf))
  {
    hide ComputeMatch, Trusted, EducationVerdict, MatchEducation, MatchSkills, MatchCategories, MatchLanguages,
      ExperienceMatch, UnevaluatedAll;
    var need, trusted := vacancy.education.value, Trusted(OfEducation, p.education);
    var q := MatchEducation(v, need, trusted);
    EducationStatusMeaning(v, need, trusted);
    assert q in [q];
    ListedByStatus(v, vacancy, p, asOf, q);
  }

  // ---------------------------------------------------------------- experience

  /** The row uses each of the technologies. */
  predicate UsesAll(v: Vocabulary, row: Experience, technologies: set<string>) {
    forall t :: t in technologies ==> UsesOne(v, row, t)
  }

  predicate UsesOne(v: Vocabulary, row: Experience, technology: string) {
    exists k :: 0 <= k < |row.technologies| && v.normalize(row.technologies[k]) == technology
  }

  /** The subjects of the requirement, normalized. */
  ghost predicate IsSubject(v: Vocabulary, need: ExperienceNeed, t: string) {
    exists k :: 0 <= k < |need.subjects| && v.normalize(need.subjects[k]) == t
  }

  /** What has to be reached on its own: all subjects together, or each one for "or". */
  ghost predicate IsGroup(v: Vocabulary, need: ExperienceNeed, group: set<string>) {
    if need.mode == ALL then forall t :: t in group <==> IsSubject(v, need, t)
    else exists t :: IsSubject(v, need, t) && group == {t}
  }

  /** The rows are exactly those that use the whole group. */
  ghost predicate RowsOf(v: Vocabulary, experiences: seq<Experience>, group: set<string>, rows: seq<Experience>) {
    forall row :: row in rows <==> row in experiences && UsesAll(v, row, group)
  }

  ghost predicate GroupCovers(v: Vocabulary, need: ExperienceNeed, experiences: seq<Experience>, group: set<string>,
                              asOf: int)
  {
    exists rows :: RowsOf(v, experiences, group, rows) && CoversYears(rows, need.years, asOf)
  }

  ghost predicate GroupUsed(v: Vocabulary, experiences: seq<Experience>, group: set<string>) {
    exists k :: 0 <= k < |experiences| && UsesAll(v, experiences[k], group)
  }

  ghost predicate GroupUndated(v: Vocabulary, experiences: seq<Experience>, group: set<string>) {
    exists k :: 0 <= k < |experiences| && UsesAll(v, experiences[k], group) && !EndsKnown(experiences[k])
  }

  /** `sorted` of a set of texts lists exactly its members. */
  ghost predicate SortsSets(v: Vocabulary) {
    forall texts, t :: t in v.sorted(texts) <==> t in texts
  }

  /** The status of an experience requirement. */
  ghost function ExperienceStatus(v: Vocabulary, need: ExperienceNeed, experiences: seq<Experience>, asOf: int): Status {
    if need.subjects == [] then if experiences == [] then MISSING else UNKNOWN
    else if need.mode == AMBIGUOUS then if SomeSubjectUsed(v, need, experiences) then UNKNOWN else MISSING
    else if SomeGroupCovers(v, need, experiences, asOf) then MATCH
    else if SomeGroupUndated(v, need, experiences) then UNKNOWN
    else if SomeGroupUsed(v, need, experiences) then PARTIAL
    else if need.mode == ALL && EverySubjectUsed(v, need, experiences) then UNKNOWN
    else MISSING
  }

  ghost predicate SomeSubjectUsed(v: Vocabulary, need: ExperienceNeed, experiences: seq<Experience>) {
    exists k, t :: 0 <= k < |experiences| && IsSubject(v, need, t) && UsesOne(v, experiences[k], t)
  }

  ghost predicate EverySubjectUsed(v: Vocabulary, need: ExperienceNeed, experiences: seq<Experience>) {
    forall t :: IsSubject(v, need, t) ==> exists k :: 0 <= k < |experiences| && UsesOne(v, experiences[k], t)
  }

  ghost predicate SomeGroupCovers(v: Vocabulary, need: ExperienceNeed, experiences: seq<Experience>, asOf: int) {
    exists group :: IsGroup(v, need, group) && GroupCovers(v, need, experiences, group, asOf)
  }

  ghost predicate SomeGroupUndated(v: Vocabulary, need: ExperienceNeed, experiences: seq<Experience>) {
    exists group :: IsGroup(v, need, group) && GroupUndated(v, experiences, group)
  }

  ghost predicate SomeGroupUsed(v: Vocabulary, need: ExperienceNeed, experiences: seq<Experience>) {
    exists group :: IsGroup(v, need, group) && GroupUsed(v, experiences, group)
  }

  lemma UsesNorm(v: Vocabulary, row: Experience, t: string)
    ensures UsesOne(v, row, t) <==> t in Norms(v, row.technologies)
  {
  }

  lemma UsesNorms(v: Vocabulary, row: Experience, group: set<string>)
    ensures UsesAll(v, row, group) <==> group <= Norms(v, row.technologies)
  {
    hide UsesOne, Norms;
    forall t ensures UsesOne(v, row, t) <==> t in Norms(v, row.technologies) {
      UsesNorm(v, row, t);
    }
  }

  lemma SubjectNorm(v: Vocabulary, need: ExperienceNeed, t: string)
    ensures IsSubject(v, need, t) <==> t in Norms(v, need.subjects)
  {
  }

  /** Rows that use a subject are among those considered at all. */
  lemma UsingMeaning(v: Vocabulary, need: ExperienceNeed, experiences: seq<Experience>, row: Experience)
    ensures row in Using(v, need, experiences) <==>
      row in experiences && exists t :: IsSubject(v, need, t) && UsesOne(v, row, t)
  {
    FilterMember((r: Experience) => Norms(v, need.subjects) * Norms(v, r.technologies) != {}, experiences, row);
    var both := Norms(v, need.subjects) * Norms(v, row.technologies);
    hide Norms, UsesOne, IsSubject;
    forall t ensures t in both <==> IsSubject(v, need, t) && UsesOne(v, row, t) {
      SubjectNorm(v, need, t);
      UsesNorm(v, row, t);
    }
    if t :| t in both {
      assert IsSubject(v, need, t);
    }
  }

  ghost function GroupAt(v: Vocabulary, need: ExperienceNeed, a: nat): set<string>
    requires need.mode != ALL ==> a < |v.sorted(Norms(v, need.subjects))|
  {
    if need.mode == ALL then Norms(v, need.subjects) else {v.sorted(Norms(v, need.subjects))[a]}
  }

  /** The alternatives are the rows of the groups, one for each. */
  lemma AlternativeIsGroup(v: Vocabulary, need: ExperienceNeed, experiences: seq<Experience>, a: nat)
    requires SortsSets(v) && need.subjects != []
    requires a < |Alternatives(v, need, Using(v, need, experiences))|
    ensures need.mode != ALL ==> a < |v.sorted(Norms(v, need.subjects))|
    ensures IsGroup(v, need, GroupAt(v, need, a))
    ensures RowsOf(v, experiences, GroupAt(v, need, a), Alternatives(v, need, Using(v, need, experiences))[a])
  {
    var norms, using := Norms(v, need.subjects), Using(v, need, experiences);
    var names, rows := v.sorted(norms), Alternatives(v, need, using)[a];
    var group := GroupAt(v, need, a);
    assert v.normalize(need.subjects[0]) in norms;
    forall t ensures t in norms <==> IsSubject(v, need, t) {
      SubjectNorm(v, need, t);
    }
    if need.mode != ALL {
      assert names[a] in names;
    }
    hide Norms, UsesAll, UsesOne, IsSubject;
    forall row ensures row in rows <==> row in experiences && UsesAll(v, row, group) {
      if need.mode == ALL {
        FilterMember((r: Experience) => norms <= Norms(v, r.technologies), using, row);
      } else {
        FilterMember((r: Experience) => names[a] in Norms(v, r.technologies), using, row);
      }
      UsesNorms(v, row, group);
      UsingMeaning(v, need, experiences, row);
      if row in experiences && UsesAll(v, row, group) {
        var t :| t in group;
        UsesNorm(v, row, t);
      }
    }
  }

  lemma GroupIsAlternative(v: Vocabulary, need: ExperienceNeed, experiences: seq<Experience>, group: set<string>)
    returns (a: nat)
    requires SortsSets(v) && need.subjects != [] && IsGroup(v, need, group)
    ensures a < |Alternatives(v, need, Using(v, need, experiences))|
    ensures need.mode != ALL ==> a < |v.sorted(Norms(v, need.subjects))|
    ensures group == GroupAt(v, need, a)
  {
    var norms := Norms(v, need.subjects);
    forall t ensures t in norms <==> IsSubject(v, need, t) {
      SubjectNorm(v, need, t);
    }
    hide Norms, IsSubject, Using;
    if need.mode == ALL {
      a := 0;
      assert group == norms;
    } else {
      var t :| IsSubject(v, need, t) && group == {t};
      assert t in v.sorted(norms);
      a :| 0 <= a < |v.sorted(norms)| && v.sorted(norms)[a] == t;
    }
  }

  /** What counts about a list of rows is which rows it has. */
  lemma CoversByMembers(a: seq<Experience>, b: seq<Experience>, years: int, asOf: int)
    requires forall row :: row in a <==> row in b
    requires CoversYears(a, years, asOf)
    ensures CoversYears(b, years, asOf)
  {
    hide WorkedOn, EndsKnown;
    assert a[0] in b;
    forall k | 0 <= k < |b| ensures EndsKnown(b[k]) {
      assert b[k] in a;
    }
    var days: set<int> :| |days| >= 365 * years && AllWorked(a, days, asOf);
    forall d | d in days ensures SomeWorked(b, d, asOf) {
      assert SomeWorked(a, d, asOf);
      var k :| 0 <= k < |a| && WorkedOn(a[k], d, asOf);
      assert a[k] in b;
      var j :| 0 <= j < |b| && b[j] == a[k];
      assert WorkedOn(b[j], d, asOf);
    }
    assert AllWorked(b, days, asOf);
  }

  lemma GroupRows(v: Vocabulary, need: ExperienceNeed, experiences: seq<Experience>, group: set<string>,
                  rows: seq<Experience>, asOf: int)
    requires RowsOf(v, experiences, group, rows)
    ensures rows != [] <==> GroupUsed(v, experiences, group)
    ensures SomeUndated(rows) <==> GroupUndated(v, experiences, group)
    ensures CoversYears(rows, need.years, asOf) <==> GroupCovers(v, need, experiences, group, asOf)
  {
    hide UsesAll, EndsKnown, CoversYears;
    if rows != [] {
      assert rows[0] in rows;
      var k :| 0 <= k < |experiences| && experiences[k] == rows[0];
    }
    if k :| 0 <= k < |experiences| && UsesAll(v, experiences[k], group) {
      assert experiences[k] in rows;
    }
    if SomeUndated(rows) {
      var j :| 0 <= j < |rows| && !EndsKnown(rows[j]);
      assert rows[j] in rows;
      var k :| 0 <= k < |experiences| && experiences[k] == rows[j];
    }
    if k :| 0 <= k < |experiences| && UsesAll(v, experiences[k], group) && !EndsKnown(experiences[k]) {
      assert experiences[k] in rows;
      var j :| 0 <= j < |rows| && rows[j] == experiences[k];
    }
    if GroupCovers(v, need, experiences, group, asOf) {
      var other :| RowsOf(v, experiences, group, other) && CoversYears(other, need.years, asOf);
      CoversByMembers(other, rows, need.years, asOf);
    }
  }

  /** Some alternative has rows, covers the years, or has a row without dates, exactly when some group does. */
  lemma AlternativesMeaning(v: Vocabulary, need: ExperienceNeed, experiences: seq<Experience>, asOf: int)
    requires SortsSets(v) && need.subjects != []
    ensures var alternatives := Alternatives(v, need, Using(v, need, experiences));
      && (SomeGroupUsed(v, need, experiences) <==> exists a :: 0 <= a < |alternatives| && alternatives[a] != [])
      && (SomeGroupUndated(v, need, experiences) <==> exists a :: 0 <= a < |alternatives| && SomeUndated(alternatives[a]))
      && (SomeGroupCovers(v, need, experiences, asOf)
          <==> exists a :: 0 <= a < |alternatives| && CoversYears(alternatives[a], need.years, asOf))
  {
    hide Alternatives, Using, IsGroup, RowsOf, GroupAt, GroupUsed, GroupUndated, GroupCovers, SomeUndated, CoversYears;
    var alternatives := Alternatives(v, need, Using(v, need, experiences));
    forall a: nat | a < |alternatives|
      ensures need.mode != ALL ==> a < |v.sorted(Norms(v, need.subjects))|
      ensures IsGroup(v, need, GroupAt(v, need, a))
      ensures alternatives[a] != [] <==> GroupUsed(v, experiences, GroupAt(v, need, a))
      ensures SomeUndated(alternatives[a]) <==> GroupUndated(v, experiences, GroupAt(v, need, a))
      ensures CoversYears(alternatives[a], need.years, asOf)
        <==> GroupCovers(v, need, experiences, GroupAt(v, need, a), asOf)
    {
      AlternativeIsGroup(v, need, experiences, a);
      GroupRows(v, need, experiences, GroupAt(v, need, a), alternatives[a], asOf);
    }
    if group :| IsGroup(v, need, group) && GroupUsed(v, experiences, group) {
      var a := GroupIsAlternative(v, need, experiences, group);
      assert alternatives[a] != [];
    }
    if group :| IsGroup(v, need, group) && GroupUndated(v, experiences, group) {
      var a := GroupIsAlternative(v, need, experiences, group);
      assert SomeUndated(alternatives[a]);
    }
    if group :| IsGroup(v, need, group) && GroupCovers(v, need, experiences, group, asOf) {
      var a := GroupIsAlternative(v, need, experiences, group);
      assert CoversYears(alternatives[a], need.years, asOf);
    }
  }

  lemma RelevantMeaning(groups: seq<seq<Experience>>)
    ensures Distinct(Flatten(groups)) == [] <==> forall a :: 0 <= a < |groups| ==> groups[a] == []
  {
    if forall a :: 0 <= a < |groups| ==> groups[a] == [] {
      FlattenEmpty(groups);
    } else {
      var a :| 0 <= a < |groups| && groups[a] != [];
      FlattenHas(groups, a);
      DistinctHas(Flatten(groups));
    }
  }

  lemma UsingNone(v: Vocabulary, need: ExperienceNeed, experiences: seq<Experience>)
    ensures Using(v, need, experiences) != [] <==> SomeSubjectUsed(v, need, experiences)
  {
    var using := Using(v, need, experiences);
    forall row ensures row in using <==> row in experiences && exists t :: IsSubject(v, need, t) && UsesOne(v, row, t) {
      UsingMeaning(v, need, experiences, row);
    }
    hide Using, IsSubject, UsesOne;
    if using != [] {
      assert using[0] in using;
      var t :| IsSubject(v, need, t) && UsesOne(v, using[0], t);
      var k :| 0 <= k < |experiences| && experiences[k] == using[0];
    }
    if SomeSubjectUsed(v, need, experiences) {
      var k, t :| 0 <= k < |experiences| && IsSubject(v, need, t) && UsesOne(v, experiences[k], t);
      assert experiences[k] in using;
    }
  }

  function AllUsed(v: Vocabulary, using: seq<Experience>): set<string> {
    set k, t | 0 <= k < |using| && t in Norms(v, using[k].technologies) :: t
  }

  lemma CoveredMeaningOfSubjects(v: Vocabulary, need: ExperienceNeed, experiences: seq<Experience>)
    ensures Norms(v, need.subjects) <= AllUsed(v, Using(v, need, experiences)) <==> EverySubjectUsed(v, need, experiences)
  {
    var using := Using(v, need, experiences);
    var norms := Norms(v, need.subjects);
    var covered := AllUsed(v, using);
    forall row ensures row in using <==> row in experiences && exists t :: IsSubject(v, need, t) && UsesOne(v, row, t) {
      UsingMeaning(v, need, experiences, row);
    }
    hide Using;
    forall t ensures t in norms <==> IsSubject(v, need, t) {
      SubjectNorm(v, need, t);
    }
    hide IsSubject;
    forall t | IsSubject(v, need, t)
      ensures t in covered <==> exists k :: 0 <= k < |experiences| && UsesOne(v, experiences[k], t)
    {
      if t in covered {
        var j :| 0 <= j < |using| && t in Norms(v, using[j].technologies);
        UsesNorm(v, using[j], t);
        assert using[j] in using;
        var k :| 0 <= k < |experiences| && experiences[k] == using[j];
        assert UsesOne(v, experiences[k], t);
      }
      if k :| 0 <= k < |experiences| && UsesOne(v, experiences[k], t) {
        UsesNorm(v, experiences[k], t);
        assert experiences[k] in using;
        var j :| 0 <= j < |using| && using[j] == experiences[k];
        assert t in Norms(v, using[j].technologies);
      }
    }
  }

  /** The status of every experience requirement, when no current job starts after the
      reference day. */
  lemma ExperienceStatusMeaning(v: Vocabulary, need: ExperienceNeed, experiences: seq<Experience>, asOf: int)
    requires SortsSets(v) && RealPeriods(experiences, asOf)
    ensures MatchExperience(v, need, experiences, asOf).status == ExperienceStatus(v, need, experiences, asOf)
  {
    var using := Using(v, need, experiences);
    var alternatives := Alternatives(v, need, using);
    RelevantMeaning(alternatives);
    if need.subjects != [] {
      AlternativesMeaning(v, need, experiences, asOf);
      UsingNone(v, need, experiences);
      CoveredMeaningOfSubjects(v, need, experiences);
      forall a | 0 <= a < |alternatives| ensures RealPeriods(alternatives[a], asOf) {
        GroupIsReal(v, need, experiences, asOf, a);
      }
      DurationMeaning(alternatives, need.years, asOf);
      NoUsingNoGroups(v, need, experiences);
    }
    hide Using, Distinct, Flatten, DurationStatus, SomeGroupCovers, SomeGroupUndated, SomeGroupUsed, EverySubjectUsed,
      SomeSubjectUsed, CoversYears, SomeUndated, RealPeriods;
    if need.subjects != [] {
      hide Alternatives;
    }
  }

  lemma GroupIsReal(v: Vocabulary, need: ExperienceNeed, experiences: seq<Experience>, asOf: int, a: nat)
    requires SortsSets(v) && RealPeriods(experiences, asOf) && need.subjects != []
    requires a < |Alternatives(v, need, Using(v, need, experiences))|
    ensures RealPeriods(Alternatives(v, need, Using(v, need, experiences))[a], asOf)
  {
    hide Alternatives, Using, UsesAll;
    AlternativeIsGroup(v, need, experiences, a);
    var rows := Alternatives(v, need, Using(v, need, experiences))[a];
    forall k | 0 <= k < |rows| ensures rows[k] in experiences {
      assert rows[k] in rows;
    }
  }

  lemma NoUsingNoGroups(v: Vocabulary, need: ExperienceNeed, experiences: seq<Experience>)
    ensures Using(v, need, experiences) == [] ==>
      forall a :: 0 <= a < |Alternatives(v, need, Using(v, need, experiences))| ==>
        Alternatives(v, need, Using(v, need, experiences))[a] == []
  {
  }

  /** The row is cited: it uses a whole group, or, when no row does but every subject is
      used by some row, it uses one of the subjects. */
  ghost predicate CitedExperience(v: Vocabulary, need: ExperienceNeed, experiences: seq<Experience>, row: Experience) {
    && row in experiences && need.subjects != []
    && if SomeGroupUsed(v, need, experiences) then exists group :: IsGroup(v, need, group) && UsesAll(v, row, group)
       else need.mode == ALL && EverySubjectUsed(v, need, experiences) && exists t :: IsSubject(v, need, t) && UsesOne(v, row, t)
  }

  ghost predicate ExperienceVerdict(v: Vocabulary, need: ExperienceNeed, experiences: seq<Experience>, asOf: int,
                                    q: Requirement)
  {
    && q.text == need.text && q.normalized == need.normalized && q.kind == EXPERIENCE
    && q.importance == need.importance && q.jobEvidence == [need.evidence]
    && q.status == ExperienceStatus(v, need, experiences, asOf)
    && forall e :: e in q.evidence <==>
         exists row :: CitedExperience(v, need, experiences, row) && e == EvidenceRef(EXPERIENCE, row.id, row.jobTitle)
  }

  lemma {:induction false} DistinctMember(rows: seq<Experience>, row: Experience)
    ensures row in Distinct(rows) <==> row in rows
  {
    if rows != [] {
      var n := |rows| - 1;
      assert rows == rows[..n] + [rows[n]];
      DistinctMember(rows[..n], row);
    }
  }

  lemma {:induction false} FlattenMember(groups: seq<seq<Experience>>, row: Experience)
    ensures row in Flatten(groups) <==> exists a :: 0 <= a < |groups| && row in groups[a]
  {
    if groups != [] {
      var n := |groups| - 1;
      FlattenMember(groups[..n], row);
      if a :| 0 <= a < n && row in groups[..n][a] {
        assert row in groups[a];
      }
    }
  }

  /** Relevant rows are those that use a whole group. */
  lemma RelevantRows(v: Vocabulary, need: ExperienceNeed, experiences: seq<Experience>, row: Experience)
    requires SortsSets(v) && need.subjects != []
    ensures row in Distinct(Flatten(Alternatives(v, need, Using(v, need, experiences)))) <==>
      row in experiences && exists group :: IsGroup(v, need, group) && UsesAll(v, row, group)
  {
    hide Alternatives, Using, IsGroup, GroupAt, UsesAll;
    var alternatives := Alternatives(v, need, Using(v, need, experiences));
    DistinctMember(Flatten(alternatives), row);
    FlattenMember(alternatives, row);
    forall a: nat | a < |alternatives|
      ensures need.mode != ALL ==> a < |v.sorted(Norms(v, need.subjects))|
      ensures IsGroup(v, need, GroupAt(v, need, a))
      ensures row in alternatives[a] <==> row in experiences && UsesAll(v, row, GroupAt(v, need, a))
    {
      AlternativeIsGroup(v, need, experiences, a);
    }
    if group :| IsGroup(v, need, group) && UsesAll(v, row, group) {
      var a := GroupIsAlternative(v, need, experiences, group);
      assert row in experiences ==> row in alternatives[a];
    }
  }

  lemma ExperienceRefsOf(rows: seq<Experience>, e: EvidenceRef)
    ensures e in ExperienceRefs(rows) <==> exists row :: row in rows && e == EvidenceRef(EXPERIENCE, row.id, row.jobTitle)
  {
    if e in ExperienceRefs(rows) {
      var k :| 0 <= k < |rows| && ExperienceRefs(rows)[k] == e;
      assert rows[k] in rows;
    }
    if row :| row in rows && e == EvidenceRef(EXPERIENCE, row.id, row.jobTitle) {
      var k :| 0 <= k < |rows| && rows[k] == row;
      assert ExperienceRefs(rows)[k] == e;
    }
  }

  function CitedRows(v: Vocabulary, need: ExperienceNeed, experiences: seq<Experience>): seq<Experience> {
    var using := Using(v, need, experiences);
    var relevant := Distinct(Flatten(Alternatives(v, need, using)));
    if need.subjects != [] && need.mode == ALL && relevant == [] && Norms(v, need.subjects) <= AllUsed(v, using)
    then using else relevant
  }

  lemma CitedRowsMeaning(v: Vocabulary, need: ExperienceNeed, experiences: seq<Experience>, row: Experience)
    requires SortsSets(v)
    ensures row in CitedRows(v, need, experiences) <==> CitedExperience(v, need, experiences, row)
  {
    if need.subjects == [] {
      RelevantMeaning(Alternatives(v, need, Using(v, need, experiences)));
    } else {
      AlternativesMeaning(v, need, experiences, 0);
      RelevantMeaning(Alternatives(v, need, Using(v, need, experiences)));
      CoveredMeaningOfSubjects(v, need, experiences);
      RelevantRows(v, need, experiences, row);
      UsingMeaning(v, need, experiences, row);
      hide Alternatives, Using, Distinct, Flatten, AllUsed, Norms, IsGroup, UsesAll, UsesOne, IsSubject, SomeGroupUsed,
        EverySubjectUsed;
    }
  }

  lemma ExperienceMeaning(v: Vocabulary, need: ExperienceNeed, experiences: seq<Experience>, asOf: int)
    requires SortsSets(v) && RealPeriods(experiences, asOf)
    ensures ExperienceVerdict(v, need, experiences, asOf, MatchExperience(v, need, experiences, asOf))
  {
    ExperienceStatusMeaning(v, need, experiences, asOf);
    var q, cited := MatchExperience(v, need, experiences, asOf), CitedRows(v, need, experiences);
    assert q.evidence == ExperienceRefs(cited) by {
      hide Using, Alternatives, Distinct, Flatten, DurationStatus, Norms;
    }
    hide CitedRows, CitedExperience, ExperienceRefs, ExperienceStatus;
    forall row ensures row in cited <==> CitedExperience(v, need, experiences, row) {
      CitedRowsMeaning(v, need, experiences, row);
    }
    forall e
      ensures e in q.evidence <==>
        exists row :: CitedExperience(v, need, experiences, row) && e == EvidenceRef(EXPERIENCE, row.id, row.jobTitle)
    {
      ExperienceRefsOf(cited, e);
    }
  }

  ghost predicate ExperienceListed(v: Vocabulary, need: ExperienceNeed, experiences: seq<Experience>, asOf: int, m: Match) {
    exists q :: ExperienceVerdict(v, need, experiences, asOf, q) && Listed(m, q)
  }

  /** The experience need of the vacancy is answered so in the computed match, by the
      trusted experiences. */
  lemma ExperienceOutcome(v: Vocabulary, vacancy: Vacancy, p: Profile, asOf: int)
    requires SortsSets(v) && vacancy.experience.Some? && RealPeriods(Trusted(OfExperience, p.experiences), asOf)
    ensures ExperienceListed(v, vacancy.experience.value, Trusted(OfExperience, p.experiences), asOf,
                             ComputeMatch(v, vacancy, p, asOf))
  {
    hide ComputeMatch, Trusted, ExperienceVerdict, MatchExperience, MatchSkills, MatchCategories, MatchLanguages,
      MatchEducation, UnevaluatedAll, RealPeriods;
    var need, trusted := vacancy.experience.value, Trusted(OfExperience, p.experiences);
    var q := MatchExperience(v, need, trusted, asOf);
    ExperienceMeaning(v, need, trusted, asOf);
    assert q in [q];
    ListedByStatus(v, vacancy, p, asOf, q);
  }
}
