/** What the matcher reads off a vacancy and what it says about each requirement. */
module MatchModel {
  import opened CandidateProfile
  import opened Wrappers

  datatype Status = MATCH | PARTIAL | MISSING | UNKNOWN

  datatype Importance = REQUIRED | PREFERRED | UNSTATED

  datatype Kind = SKILL | LANGUAGE | EDUCATION | EXPERIENCE | PROJECT | OTHER

  /** A reference to the profile row that supports a requirement. */
  datatype EvidenceRef = EvidenceRef(kind: Kind, id: int, value: string)

  datatype Requirement = Requirement(
    text: string, normalized: string, kind: Kind, importance: Importance, status: Status,
    evidence: seq<EvidenceRef>, jobEvidence: seq<string>)

  // What the extractors found in the vacancy; any values at all.

  datatype SkillNeed = SkillNeed(text: string, importance: Importance)

  datatype CategoryNeed = CategoryNeed(
    text: string, key: string, examples: seq<string>, importance: Importance, evidence: seq<string>)

  datatype LanguageNeed = LanguageNeed(
    text: string, normalized: string, language: string, level: Level, importance: Importance, evidence: string)

  datatype EducationNeed = EducationNeed(text: string, fields: set<string>, importance: Importance, evidence: string)

  datatype SubjectMode = ALL | ANY | AMBIGUOUS

  datatype ExperienceNeed = ExperienceNeed(
    text: string, normalized: string, years: int, subjects: seq<string>, mode: SubjectMode, importance: Importance,
    evidence: string)

  /** A required clause no typed requirement evaluated. */
  datatype OtherNeed = OtherNeed(text: string, identity: string, evidence: seq<string>)

  datatype Vacancy = Vacancy(
    jobId: int, title: string, company: string, description: string,
    skills: seq<SkillNeed>, categories: seq<CategoryNeed>, languages: seq<LanguageNeed>,
    education: Option<EducationNeed>, experience: Option<ExperienceNeed>, unevaluated: seq<OtherNeed>,
    unstored: seq<string>)

  /** The closed tables and text functions the matcher consults; `sorted` is
      Python's `sorted` of a set of strings. */
  datatype Vocabulary = Vocabulary(
    normalize: string -> string, related: string -> set<string>, canonicalLanguage: string -> Option<string>,
    degreeFields: (string, string, string) -> set<string>, sorted: set<string> -> seq<string>)
}
