/** The candidate profile of `app/models/candidate_profile.py`, and the same
    profile with every fact removed that may not be used. */
module CandidateProfile {
  import opened CandidateTrust
  import opened Sequences
  import opened Wrappers

  datatype Skill = Skill(
    id: int, name: string, category: string, proficiency: string, years: Option<real>, trust: Trust)

  datatype Experience = Experience(
    id: int, company: string, jobTitle: string, startDate: Option<int>, endDate: Option<int>, isCurrent: bool,
    location: string, description: string, responsibilities: seq<string>, achievements: seq<string>,
    technologies: seq<string>, trust: Trust)

  datatype Project = Project(
    id: int, name: string, description: string, role: string, technologies: seq<string>, repositoryUrl: Option<string>,
    demoUrl: Option<string>, startDate: Option<int>, endDate: Option<int>, highlights: seq<string>, trust: Trust)

  datatype Education = Education(
    id: int, institution: string, program: string, degree: string, fieldOfStudy: string, startDate: Option<int>,
    endDate: Option<int>, completed: bool, location: string, trust: Trust)

  datatype Certification = Certification(
    id: int, name: string, issuer: string, issuedDate: Option<int>, expiresDate: Option<int>, status: string,
    trust: Trust)

  datatype Level = A1 | A2 | B1 | B2 | C1 | C2 | NATIVE | UNKNOWN_LEVEL

  function LevelText(level: Level): string {
    match level
    case A1 => "A1"
    case A2 => "A2"
    case B1 => "B1"
    case B2 => "B2"
    case C1 => "C1"
    case C2 => "C2"
    case NATIVE => "NATIVE"
    case UNKNOWN_LEVEL => "UNKNOWN"
  }

  datatype Language = Language(id: int, language: string, level: Level, certificate: string, trust: Trust)

  /** The top-level fields a CV or a letter may use. */
  datatype TopField = FirstName | LastName | ProfessionalTitle | LocationCity | LocationCountry | ProfessionalSummary

  /** A top-level value; without a recorded trust entry it is never usable. */
  datatype TopFact = TopFact(value: string, trust: Option<Trust>)

  datatype Profile = Profile(
    id: int, version: int, facts: map<TopField, TopFact>, skills: seq<Skill>, experiences: seq<Experience>,
    projects: seq<Project>, education: seq<Education>, certifications: seq<Certification>, languages: seq<Language>)

  /** `_trusted`: the usable rows, in order. */
  function Trusted<T>(trustOf: T -> Trust, items: seq<T>): seq<T> {
    if items == [] then []
    else
      var n := |items| - 1;
      Trusted(trustOf, items[..n]) + (if IsUsable(trustOf(items[n])) then [items[n]] else [])
  }

  function OfSkill(row: Skill): Trust { row.trust }
  function OfExperience(row: Experience): Trust { row.trust }
  function OfProject(row: Project): Trust { row.trust }
  function OfEducation(row: Education): Trust { row.trust }
  function OfCertification(row: Certification): Trust { row.trust }
  function OfLanguage(row: Language): Trust { row.trust }

  predicate UsableFact(fact: TopFact) {
    fact.trust.Some? && IsUsable(fact.trust.value)
  }

  /** The profile as if no untrusted fact had ever been entered. */
  function WithoutUntrusted(p: Profile): Profile {
    Profile(p.id, p.version,
            map field | field in p.facts && UsableFact(p.facts[field]) :: p.facts[field],
            Trusted(OfSkill, p.skills), Trusted(OfExperience, p.experiences), Trusted(OfProject, p.projects),
            Trusted(OfEducation, p.education), Trusted(OfCertification, p.certifications),
            Trusted(OfLanguage, p.languages))
  }

  lemma {:induction false} TrustedRow<T>(trustOf: T -> Trust, items: seq<T>, row: T)
    ensures row in Trusted(trustOf, items) <==> row in items && IsUsable(trustOf(row))
  {
    if items != [] {
      var n := |items| - 1;
      assert items == items[..n] + [items[n]];
      TrustedRow(trustOf, items[..n], row);
    }
  }

  function Usable<T>(trustOf: T -> Trust): T -> bool {
    row => IsUsable(trustOf(row))
  }

  /** The usable rows are all there, once each and in order. */
  lemma {:induction false} TrustedInOrder<T>(trustOf: T -> Trust, items: seq<T>)
    ensures Selects(Trusted(trustOf, items), items, Usable(trustOf))
  {
    hide Selects, IsUsable;
    if items == [] {
      SelectsNothing(Usable(trustOf));
    } else {
      var n := |items| - 1;
      assert items == items[..n] + [items[n]];
      TrustedInOrder(trustOf, items[..n]);
      SelectsNext(Trusted(trustOf, items[..n]), items[..n], Usable(trustOf), items[n]);
    }
  }

  /** Filtering twice changes nothing. */
  lemma {:induction false} TrustedTwice<T>(trustOf: T -> Trust, items: seq<T>)
    ensures Trusted(trustOf, Trusted(trustOf, items)) == Trusted(trustOf, items)
  {
    if items != [] {
      var n := |items| - 1;
      TrustedTwice(trustOf, items[..n]);
      if IsUsable(trustOf(items[n])) {
        var kept := Trusted(trustOf, items);
        assert kept[..|kept| - 1] == Trusted(trustOf, items[..n]);
      } else {
        assert Trusted(trustOf, items) == Trusted(trustOf, items[..n]);
      }
    }
  }

  /** Ids in an entity list are primary keys. */
  predicate UniqueIds<T>(idOf: T -> int, items: seq<T>) {
    forall i, j :: 0 <= i < j < |items| ==> idOf(items[i]) != idOf(items[j])
  }

  function SkillId(row: Skill): int { row.id }
  function ProjectId(row: Project): int { row.id }

  /** `{row.id: row for row in items}.get(id)`: the last row with the id. */
  function RowWithId<T>(idOf: T -> int, items: seq<T>, id: int): Option<T> {
    if items == [] then None
    else if idOf(items[|items| - 1]) == id then Some(items[|items| - 1])
    else RowWithId(idOf, items[..|items| - 1], id)
  }

  lemma {:induction false} RowWithIdFinds<T>(idOf: T -> int, items: seq<T>, row: T)
    requires UniqueIds(idOf, items) && row in items
    ensures RowWithId(idOf, items, idOf(row)) == Some(row)
  {
    var n := |items| - 1;
    assert items == items[..n] + [items[n]];
    if row != items[n] {
      var i :| 0 <= i < n && items[i] == row;
      assert idOf(items[i]) != idOf(items[n]);
      RowWithIdFinds(idOf, items[..n], row);
    }
  }

  lemma {:induction false} TrustedKeepsUnique<T>(trustOf: T -> Trust, idOf: T -> int, items: seq<T>)
    requires UniqueIds(idOf, items)
    ensures UniqueIds(idOf, Trusted(trustOf, items))
  {
    if items != [] {
      var n := |items| - 1;
      TrustedKeepsUnique(trustOf, idOf, items[..n]);
      var kept := Trusted(trustOf, items[..n]);
      forall k | 0 <= k < |kept| ensures idOf(kept[k]) != idOf(items[n]) {
        TrustedRow(trustOf, items[..n], kept[k]);
        var i :| 0 <= i < n && items[i] == kept[k];
      }
    }
  }

  /** A trusted row is found under its id in the unfiltered list as in the filtered one. */
  lemma TrustedLookup<T>(trustOf: T -> Trust, idOf: T -> int, items: seq<T>, row: T)
    requires UniqueIds(idOf, items) && row in Trusted(trustOf, items)
    ensures RowWithId(idOf, items, idOf(row)) == Some(row)
    ensures RowWithId(idOf, Trusted(trustOf, items), idOf(row)) == Some(row)
  {
    TrustedRow(trustOf, items, row);
    TrustedKeepsUnique(trustOf, idOf, items);
    RowWithIdFinds(idOf, items, row);
    RowWithIdFinds(idOf, Trusted(trustOf, items), row);
  }
}
