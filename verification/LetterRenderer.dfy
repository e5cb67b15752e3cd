/** The cover letter of `app/agents/bewerbung_renderer.py`: evidence built from a
    CV draft, a provider's plan resolved against it, and fixed sentences. */
module LetterRenderer {
  import opened CandidateMatcher
  import opened CandidateProfile
  import opened CvAdapter
  import opened Decimal
  import opened MatchModel
  import opened Permutations
  import PythonText
  import opened Sequences
  import opened Sorting
  import opened Wrappers

  /** What one claim id stands for when a sentence is rendered. */
  datatype Record =
    | SkillRecord(name: string)
    | ExperienceRecord(company: string, role: string, technologies: seq<string>)
    | ProjectRecord(name: string, technologies: seq<string>, highlights: seq<string>)
    | LanguageRecord(language: string, level: Level)

  datatype AllowedClaim = AllowedClaim(id: string, claim: string, entity: string, sourceId: int)

  /** All a provider is given. */
  datatype Packet = Packet(
    title: Option<string>, summary: Option<string>, firstName: Option<string>, lastName: Option<string>,
    jobTitle: string, company: string, description: string, matched: seq<string>, partials: seq<string>,
    allowed: seq<AllowedClaim>, forbidden: seq<string>)

  /** Word lists and patterns over text: any functions. */
  datatype Phrases = Phrases(
    fold: string -> string, languageKey: string -> Option<string>, namedIn: (string, string) -> bool,
    writtenIn: string -> Option<string>, focus: (string, string) -> seq<string>,
    publicPhrase: string -> string, focusRelevant: string -> bool, english: string -> bool)

  const MAX_PROJECT_CLAIMS := 3
  const MAX_EXPERIENCE_CLAIMS := 3
  const MAX_LANGUAGE_CLAIMS := 5

  // ---------------------------------------------------------------- evidence

  function ClaimId(entity: string, id: int): string {
    entity + ":" + IntText(id)
  }

  datatype Entry = Entry(claim: AllowedClaim, record: Record)

  function EntryOf(entity: string, id: int, claim: string, record: Record): Entry {
    Entry(AllowedClaim(ClaimId(entity, id), claim, entity, id), record)
  }

  function SkillEntry(x: CvSkill): Entry {
    EntryOf("candidate_skill", x.sourceId, x.text, SkillRecord(x.text))
  }

  function ProjectEntry(x: CvProject): Entry {
    EntryOf("candidate_project", x.sourceId, x.name, ProjectRecord(x.name, x.technologies, x.highlights))
  }

  function ExperienceEntry(x: CvExperience): Entry {
    EntryOf("candidate_experience", x.sourceId, x.jobTitle + " bei " + x.company,
            ExperienceRecord(x.company, x.jobTitle, x.technologies))
  }

  function LanguageEntry(x: CvLanguage): Entry {
    EntryOf("candidate_language", x.sourceId, x.language + " (" + LevelText(x.level) + ")",
            LanguageRecord(x.language, x.level))
  }

  function Map<T, U>(f: T -> U, items: seq<T>): (mapped: seq<U>)
    ensures |mapped| == |items| && forall k :: 0 <= k < |items| ==> mapped[k] == f(items[k])
  {
    seq(|items|, k requires 0 <= k < |items| => f(items[k]))
  }

  function UpTo<T>(items: seq<T>, limit: nat): seq<T> {
    if |items| <= limit then items else items[..limit]
  }

  /** Why a language is relevant: required, named in the advertisement, or its language. */
  function LanguageReason(ph: Phrases, text: string, x: CvLanguage): Option<int> {
    if x.level == UNKNOWN_LEVEL then None
    else if x.requirement.Some? then Some(0)
    else if ph.languageKey(x.language).None? then None
    else if ph.namedIn(text, ph.languageKey(x.language).value) then Some(1)
    else if ph.writtenIn(text) == ph.languageKey(x.language) then Some(2)
    else None
  }

  datatype Ranked = Ranked(rank: int, language: CvLanguage)

  function RankOf(x: Ranked): int { x.rank }

  function LanguageOf(x: Ranked): CvLanguage { x.language }

  function RankedLanguages(ph: Phrases, text: string, languages: seq<CvLanguage>): seq<Ranked> {
    if languages == [] then []
    else
      var n := |languages| - 1;
      var reason := LanguageReason(ph, text, languages[n]);
      RankedLanguages(ph, text, languages[..n]) + (if reason.None? then [] else [Ranked(reason.value, languages[n])])
  }

  /** `relevant_languages`: best reason first, otherwise in the draft's order. */
  function RelevantLanguages(ph: Phrases, languages: seq<CvLanguage>, title: string, description: string): seq<CvLanguage> {
    Map(LanguageOf, SortBy(RankOf, RankedLanguages(ph, ph.fold(title + "\n" + description), languages)))
  }

  function Entries(ph: Phrases, d: Draft, title: string, description: string): seq<Entry> {
    Map(SkillEntry, d.skills)
    + Map(ProjectEntry, UpTo(d.projects, MAX_PROJECT_CLAIMS))
    + Map(ExperienceEntry, UpTo(Filter((x: CvExperience) => x.matchedSkills != [], d.experience), MAX_EXPERIENCE_CLAIMS))
    + Map(LanguageEntry, UpTo(RelevantLanguages(ph, d.languages, title, description), MAX_LANGUAGE_CLAIMS))
  }

  function Register(entries: seq<Entry>): map<string, Record> {
    if entries == [] then map[]
    else Register(entries[..|entries| - 1])[entries[|entries| - 1].claim.id := entries[|entries| - 1].record]
  }

  function ClaimOf(x: Entry): AllowedClaim { x.claim }

  function RequirementText(x: Requirement): string { x.text }

  function FactText(d: Draft, field: TopField): Option<string> {
    if field in d.header then Some(d.header[field].value) else None
  }

  function PacketFor(d: Draft, m: Match, title: string, company: string, description: string,
                     allowed: seq<AllowedClaim>): Packet {
    Packet(FactText(d, ProfessionalTitle), if d.summary.None? then None else Some(d.summary.value.value),
           FactText(d, FirstName), FactText(d, LastName), title, company, description,
           Map(RequirementText, m.matched), Map(RequirementText, m.partials), allowed,
           Map(RequirementText, m.missing + m.unknown))
  }

  lemma MapAppend<T, U>(f: T -> U, items: seq<T>, item: T)
    ensures Map(f, items + [item]) == Map(f, items) + [f(item)]
  {
  }

  /** Files entries under their claim ids, in order; a repeated id keeps the later record. */
  method File(allowed: seq<AllowedClaim>, registry: map<string, Record>, done: seq<Entry>, more: seq<Entry>)
    returns (claims: seq<AllowedClaim>, records: map<string, Record>)
    requires allowed == Map(ClaimOf, done) && registry == Register(done)
    ensures claims == Map(ClaimOf, done + more) && records == Register(done + more)
  {
    claims, records := allowed, registry;
    assert done + more[..0] == done;
    for k := 0 to |more|
      invariant claims == Map(ClaimOf, done + more[..k]) && records == Register(done + more[..k])
    {
      assert done + more[..k + 1] == (done + more[..k]) + [more[k]];
      MapAppend(ClaimOf, done + more[..k], more[k]);
      claims := claims + [more[k].claim];
      records := records[more[k].claim.id := more[k].record];
    }
    assert more[..|more|] == more;
  }

  /** `build_evidence`: the packet and the registry, filled in one pass. */
  method BuildEvidence(ph: Phrases, d: Draft, m: Match, title: string, company: string, description: string)
    returns (packet: Packet, registry: map<string, Record>)
    ensures packet == PacketFor(d, m, title, company, description, Map(ClaimOf, Entries(ph, d, title, description)))
    ensures registry == Register(Entries(ph, d, title, description))
  {
    var skills, projects := Map(SkillEntry, d.skills), Map(ProjectEntry, UpTo(d.projects, MAX_PROJECT_CLAIMS));
    var relevant := Filter((x: CvExperience) => x.matchedSkills != [], d.experience);
    var experience := Map(ExperienceEntry, UpTo(relevant, MAX_EXPERIENCE_CLAIMS));
    var chosen := RelevantLanguages(ph, d.languages, title, description);
    var languages := Map(LanguageEntry, UpTo(chosen, MAX_LANGUAGE_CLAIMS));
    var allowed: seq<AllowedClaim>;
    allowed, registry := File([], map[], [], skills);
    assert [] + skills == skills;
    allowed, registry := File(allowed, registry, skills, projects);
    allowed, registry := File(allowed, registry, skills + projects, experience);
    allowed, registry := File(allowed, registry, skills + projects + experience, languages);
    packet := PacketFor(d, m, title, company, description, allowed);
  }

  // ---------------------------------------------------------------- plans

  datatype OpeningStyle = ROLE_INTEREST | MATCH_FOCUS
  datatype ClosingStyle = INTERVIEW_INTEREST | SHORT_PROFESSIONAL
  datatype ParagraphKind = EVIDENCE | GENERIC

  datatype Paragraph = Paragraph(kind: ParagraphKind, claimIds: seq<string>)

  datatype Plan = Plan(opening: OpeningStyle, paragraphs: seq<Paragraph>, closing: ClosingStyle)

  datatype Rejection = SCHEMA_INVALID | UNKNOWN_CLAIM_ID(paragraph: nat) | DUPLICATE_CLAIM_ID(paragraph: nat)

  const MAX_PARAGRAPHS := 4
  const MAX_IDS_PER_PARAGRAPH := 4
  const MAX_TOTAL_IDS := 10
  const MAX_ID_LENGTH := 100

  function AllIds(paragraphs: seq<Paragraph>): seq<string> {
    if paragraphs == [] then []
    else AllIds(paragraphs[..|paragraphs| - 1]) + paragraphs[|paragraphs| - 1].claimIds
  }

  predicate ValidPlan(plan: Plan) {
    && 1 <= |plan.paragraphs| <= MAX_PARAGRAPHS
    && |AllIds(plan.paragraphs)| <= MAX_TOTAL_IDS
    && forall k :: 0 <= k < |plan.paragraphs| ==>
         var p := plan.paragraphs[k];
         && |p.claimIds| <= MAX_IDS_PER_PARAGRAPH && (p.kind == EVIDENCE <==> p.claimIds != [])
         && forall i :: 0 <= i < |p.claimIds| ==> 1 <= |p.claimIds[i]| <= MAX_ID_LENGTH
  }

  function Records(registry: map<string, Record>, ids: seq<string>): (records: seq<Record>)
    requires forall k :: 0 <= k < |ids| ==> ids[k] in registry
    ensures |records| == |ids| && forall k :: 0 <= k < |ids| ==> records[k] == registry[ids[k]]
  {
    seq(|ids|, k requires 0 <= k < |ids| => registry[ids[k]])
  }

  /** Every id is known and none is used twice, in one paragraph or in two. */
  predicate GoodIds(ids: seq<string>, registry: map<string, Record>) {
    NoRepeats(ids) && forall k :: 0 <= k < |ids| ==> ids[k] in registry
  }

  /** The first id that cannot be used is `id` in paragraph `index`, after the usable ids `before`. */
  ghost predicate Fault(before: seq<string>, id: string, registry: map<string, Record>, index: nat, error: Rejection) {
    && GoodIds(before, registry)
    && if id !in registry then error == UNKNOWN_CLAIM_ID(index) else id in before && error == DUPLICATE_CLAIM_ID(index)
  }

  ghost predicate ResolvedTo(paragraphs: seq<Paragraph>, registry: map<string, Record>, resolved: seq<seq<Record>>) {
    && |resolved| == |paragraphs|
    && forall k :: 0 <= k < |paragraphs| ==>
         && (forall i :: 0 <= i < |paragraphs[k].claimIds| ==> paragraphs[k].claimIds[i] in registry)
         && resolved[k] == Records(registry, paragraphs[k].claimIds)
  }

  lemma {:induction false} IdsGrow(paragraphs: seq<Paragraph>, k: nat)
    requires k <= |paragraphs|
    ensures AllIds(paragraphs[..k]) <= AllIds(paragraphs)
    decreases |paragraphs|
  {
    if k < |paragraphs| {
      var init := paragraphs[..|paragraphs| - 1];
      IdsGrow(init, k);
      assert init[..k] == paragraphs[..k];
    } else {
      assert paragraphs[..k] == paragraphs;
    }
  }

  lemma GoodPrefix(prefix: seq<string>, ids: seq<string>, registry: map<string, Record>)
    requires prefix <= ids && GoodIds(ids, registry)
    ensures GoodIds(prefix, registry)
  {
    assert forall k :: 0 <= k < |prefix| ==> prefix[k] == ids[k];
  }

  /** One paragraph of a plan, after the ids `before` of the earlier ones. */
  method ResolveParagraph(ids: seq<string>, registry: map<string, Record>, seen: set<string>, index: nat,
                          ghost before: seq<string>)
    returns (r: Result<seq<Record>, Rejection>, after: set<string>)
    requires Seen(seen, before, registry)
    ensures r.Ok? <==> GoodIds(before + ids, registry)
    ensures r.Ok? ==> Seen(after, before + ids, registry) && forall k :: 0 <= k < |ids| ==> ids[k] in registry
    ensures r.Ok? ==> r.value == Records(registry, ids)
    ensures r.Err? ==> exists i :: 0 <= i < |ids| && Fault(before + ids[..i], ids[i], registry, index, r.error)
  {
    after := seen;
    var records: seq<Record> := [];
    assert before + ids[..0] == before;
    for i := 0 to |ids|
      invariant Seen(after, before + ids[..i], registry)
      invariant |records| == i && forall j :: 0 <= j < i ==> ids[j] in registry && records[j] == registry[ids[j]]
    {
      ghost var sofar := before + ids[..i];
      assert before + ids[..i + 1] == sofar + [ids[i]];
      assert sofar + [ids[i]] <= before + ids;
      if ids[i] !in registry || ids[i] in after {
        BadNext(after, sofar, registry, ids[i]);
        SeenIsGood(after, sofar, registry);
        if GoodIds(before + ids, registry) {
          GoodPrefix(sofar + [ids[i]], before + ids, registry);
        }
        r := Err(if ids[i] !in registry then UNKNOWN_CLAIM_ID(index) else DUPLICATE_CLAIM_ID(index));
        assert Fault(before + ids[..i], ids[i], registry, index, r.error);
        return;
      }
      SeenOneMore(after, sofar, registry, ids[i]);
      after := after + {ids[i]};
      records := records + [registry[ids[i]]];
    }
    assert ids[..|ids|] == ids;
    return Ok(records), after;
  }

  lemma BadNext(seen: set<string>, ids: seq<string>, registry: map<string, Record>, id: string)
    requires Seen(seen, ids, registry) && (id !in registry || id in seen)
    ensures !GoodIds(ids + [id], registry)
  {
    assert (ids + [id])[|ids|] == id;
    if id in seen {
      var j :| 0 <= j < |ids| && ids[j] == id;
      assert (ids + [id])[j] == id;
    }
  }

  /** The ids before place `i` of paragraph `k` can be used, the one there cannot. */
  ghost predicate FaultAt(paragraphs: seq<Paragraph>, registry: map<string, Record>, k: nat, i: nat, error: Rejection) {
    && k < |paragraphs| && i < |paragraphs[k].claimIds|
    && Fault(AllIds(paragraphs[..k]) + paragraphs[k].claimIds[..i], paragraphs[k].claimIds[i], registry, k, error)
  }

  /** `resolve_plan` */
  method ResolvePlan(plan: Plan, registry: map<string, Record>) returns (r: Result<seq<seq<Record>>, Rejection>)
    ensures r.Ok? <==> GoodIds(AllIds(plan.paragraphs), registry)
    ensures r.Ok? ==> ResolvedTo(plan.paragraphs, registry, r.value)
    ensures r.Err? ==> exists k, i :: FaultAt(plan.paragraphs, registry, k, i, r.error)
  {
    hide GoodIds, Seen, Fault;
    var seen: set<string> := {};
    var resolved: seq<seq<Record>> := [];
    var paragraphs := plan.paragraphs;
    NothingSeen(registry);
    for k := 0 to |paragraphs|
      invariant ResolvedTo(paragraphs[..k], registry, resolved)
      invariant Seen(seen, AllIds(paragraphs[..k]), registry)
    {
      ghost var before := AllIds(paragraphs[..k]);
      assert paragraphs[..k + 1][..k] == paragraphs[..k];
      assert AllIds(paragraphs[..k + 1]) == before + paragraphs[k].claimIds;
      var one, after := ResolveParagraph(paragraphs[k].claimIds, registry, seen, k, before);
      if one.Err? {
        IdsGrow(paragraphs, k + 1);
        if GoodIds(AllIds(paragraphs), registry) {
          GoodPrefix(before + paragraphs[k].claimIds, AllIds(paragraphs), registry);
        }
        ghost var i: nat :| i < |paragraphs[k].claimIds|
          && Fault(before + paragraphs[k].claimIds[..i], paragraphs[k].claimIds[i], registry, k, one.error);
        assert FaultAt(paragraphs, registry, k, i, one.error);
        return Err(one.error);
      }
      seen := after;
      resolved := resolved + [one.value];
    }
    assert paragraphs[..|paragraphs|] == paragraphs;
    SeenIsGood(seen, AllIds(paragraphs), registry);
    return Ok(resolved);
  }

  lemma NothingSeen(registry: map<string, Record>)
    ensures Seen({}, [], registry)
  {
  }

  lemma SeenIsGood(seen: set<string>, ids: seq<string>, registry: map<string, Record>)
    requires Seen(seen, ids, registry)
    ensures GoodIds(ids, registry)
  {
  }

  /** The ids met so far: all known, none repeated, `seen` holds them. */
  ghost predicate Seen(seen: set<string>, ids: seq<string>, registry: map<string, Record>) {
    && (forall id :: id in seen <==> id in ids)
    && NoRepeats(ids)
    && forall k :: 0 <= k < |ids| ==> ids[k] in registry
  }

  lemma SeenOneMore(seen: set<string>, ids: seq<string>, registry: map<string, Record>, id: string)
    requires Seen(seen, ids, registry) && id !in seen && id in registry
    ensures Seen(seen + {id}, ids + [id], registry)
  {
    forall j | 0 <= j < |ids| ensures ids[j] != id {
      assert ids[j] in ids;
    }
  }

  // ---------------------------------------------------------------- sentences

  function Join(separator: string, items: seq<string>): string {
    if items == [] then ""
    else if |items| == 1 then items[0]
    else Join(separator, items[..|items| - 1]) + separator + items[|items| - 1]
  }

  function GermanList(items: seq<string>): string {
    if |items| <= 1 then Join("", items)
    else Join(", ", items[..|items| - 1]) + " und " + items[|items| - 1]
  }

  function SkillName(r: Record): string { if r.SkillRecord? then r.name else "" }

  function SkillSentence(names: seq<string>, focus: seq<string>): string {
    if focus != []
    then "Ihre Ausschreibung nennt als Schwerpunkte " + GermanList(focus)
         + ". Dafür bringe ich Kenntnisse in " + GermanList(names) + " mit."
    else "Ich bringe Kenntnisse in " + Join(", ", names) + " mit, die für diese Position relevant sind."
  }

  function ExperienceFragment(r: Record): string
    requires r.ExperienceRecord?
  {
    "meine Erfahrung als " + r.role + " bei " + r.company
    + (if r.technologies == [] then "" else " (u. a. mit " + Join(", ", r.technologies) + ")")
  }

  const MAX_HIGHLIGHTS := 2
  const MAX_PROJECT_TECHNOLOGIES := 4

  /** At most two highlights, relevant to the focus and in public German wording. */
  function Highlights(ph: Phrases, highlights: seq<string>, focus: seq<string>, strip: string -> string): seq<string> {
    if highlights == [] then []
    else
      var n := |highlights| - 1;
      var chosen, german := Highlights(ph, highlights[..n], focus, strip), ph.publicPhrase(highlights[n]);
      if |chosen| == MAX_HIGHLIGHTS || (focus != [] && !ph.focusRelevant(highlights[n])) || german == ""
         || (german == strip(highlights[n]) && ph.english(german)) || german in chosen
      then chosen else chosen + [german]
  }

  function ProjectFragment(ph: Phrases, r: Record, focus: seq<string>): string
    requires r.ProjectRecord?
  {
    var highlights := Highlights(ph, r.highlights, focus, PythonText.Strip);
    if highlights == [] then "das Projekt " + r.name
    else "das Projekt " + r.name
         + (if r.technologies == [] then ""
            else " (" + Join(", ", UpTo(r.technologies, MAX_PROJECT_TECHNOLOGIES)) + ")")
         + " mit den Schwerpunkten " + GermanList(highlights)
  }

  function LanguageFragment(r: Record): string
    requires r.LanguageRecord?
  {
    if r.level == NATIVE then r.language + " als Muttersprache"
    else r.language + "kenntnisse auf " + LevelText(r.level) + "-Niveau"
  }

  function ProjectLead(index: nat, noExperience: bool, count: nat): string {
    if index == 0 && noExperience && count > 1 then "Besonders relevant ist"
    else if index >= 2 then "Außerdem relevant ist"
    else "Ebenfalls relevant ist"
  }

  predicate IsSkill(r: Record) { r.SkillRecord? }
  predicate IsExperience(r: Record) { r.ExperienceRecord? }
  predicate IsProject(r: Record) { r.ProjectRecord? }
  predicate IsLanguage(r: Record) { r.LanguageRecord? }

  function ExperienceSentence(r: Record): string {
    if r.ExperienceRecord? then "Besonders relevant ist " + ExperienceFragment(r) + "." else ""
  }

  function LanguageSentence(r: Record): string {
    if r.LanguageRecord? then "Zudem verfüge ich über " + LanguageFragment(r) + "." else ""
  }

  function ProjectSentences(ph: Phrases, projects: seq<Record>, done: nat, noExperience: bool, focus: seq<string>): seq<string>
    requires done <= |projects|
  {
    seq(done, k requires 0 <= k < done =>
      if projects[k].ProjectRecord?
      then ProjectLead(k, noExperience, |projects|) + " " + ProjectFragment(ph, projects[k], focus) + "." else "")
  }

  /** The sentences of one evidence paragraph: skills, experience, projects, languages. */
  function Sentences(ph: Phrases, records: seq<Record>, focus: seq<string>): seq<string> {
    var skills, projects := Filter(IsSkill, records), Filter(IsProject, records);
    var experiences := Filter(IsExperience, records);
    (if skills == [] then [] else [SkillSentence(Map(SkillName, skills), focus)])
    + Map(ExperienceSentence, experiences)
    + ProjectSentences(ph, projects, |projects|, experiences == [], focus)
    + Map(LanguageSentence, Filter(IsLanguage, records))
  }

  // ---------------------------------------------------------------- what a paragraph says

  /** The sentence names the record. */
  ghost predicate NamesRecord(r: Record, sentence: string) {
    match r
    case SkillRecord(name) => PythonText.Occurs(name, sentence)
    case ExperienceRecord(company, role, _) => PythonText.Occurs(role, sentence) && PythonText.Occurs(company, sentence)
    case ProjectRecord(name, _, _) => PythonText.Occurs(name, sentence)
    case LanguageRecord(language, _) => PythonText.Occurs(language, sentence)
  }

  lemma OccursInside(before: string, word: string, after: string)
    ensures PythonText.Occurs(word, before + word + after)
  {
    assert PythonText.OccursAt(word, before + word + after, |before|);
  }

  lemma OccursWithin(word: string, part: string, before: string, after: string)
    requires PythonText.Occurs(word, part)
    ensures PythonText.Occurs(word, before + part + after)
  {
    var k: nat :| PythonText.OccursAt(word, part, k);
    assert PythonText.OccursAt(word, before + part + after, |before| + k);
  }

  lemma {:induction false} JoinHas(separator: string, items: seq<string>, k: nat)
    requires k < |items|
    ensures PythonText.Occurs(items[k], Join(separator, items))
  {
    hide PythonText.Occurs;
    var n := |items| - 1;
    if n == 0 {
      OccursInside("", items[0], "");
      assert "" + items[0] + "" == items[0];
    } else if k == n {
      OccursInside(Join(separator, items[..n]) + separator, items[n], "");
      assert Join(separator, items[..n]) + separator + items[n] + "" == Join(separator, items);
    } else {
      JoinHas(separator, items[..n], k);
      OccursWithin(items[k], Join(separator, items[..n]), "", separator + items[n]);
      assert "" + Join(separator, items[..n]) + (separator + items[n]) == Join(separator, items);
    }
  }

  lemma GermanListHas(items: seq<string>, k: nat)
    requires k < |items|
    ensures PythonText.Occurs(items[k], GermanList(items))
  {
    hide PythonText.Occurs, Join;
    var n := |items| - 1;
    if n == 0 {
      JoinHas("", items, k);
    } else if k == n {
      OccursInside(Join(", ", items[..n]) + " und ", items[n], "");
      assert Join(", ", items[..n]) + " und " + items[n] + "" == GermanList(items);
    } else {
      JoinHas(", ", items[..n], k);
      OccursWithin(items[k], Join(", ", items[..n]), "", " und " + items[n]);
      assert "" + Join(", ", items[..n]) + (" und " + items[n]) == GermanList(items);
    }
  }

  lemma SkillSentenceHas(names: seq<string>, focus: seq<string>, k: nat)
    requires k < |names|
    ensures PythonText.Occurs(names[k], SkillSentence(names, focus))
  {
    hide PythonText.Occurs, Join, GermanList;
    if focus != [] {
      GermanListHas(names, k);
      OccursWithin(names[k], GermanList(names),
                   "Ihre Ausschreibung nennt als Schwerpunkte " + GermanList(focus) + ". Dafür bringe ich Kenntnisse in ",
                   " mit.");
    } else {
      JoinHas(", ", names, k);
      OccursWithin(names[k], Join(", ", names), "Ich bringe Kenntnisse in ", " mit, die für diese Position relevant sind.");
    }
  }

  lemma ExperienceSentenceNames(r: Record)
    requires r.ExperienceRecord?
    ensures NamesRecord(r, ExperienceSentence(r))
  {
    hide PythonText.Occurs, Join;
    var text := ExperienceSentence(r);
    assert "Besonders relevant ist " + "meine Erfahrung als " == "Besonders relevant ist meine Erfahrung als ";
    var upToRole := "Besonders relevant ist meine Erfahrung als " + r.role;
    var upToCompany := upToRole + " bei " + r.company;
    assert upToCompany <= text;
    OccursBefore("Besonders relevant ist meine Erfahrung als ", r.role, text);
    OccursBefore(upToRole + " bei ", r.company, text);
  }

  lemma OccursBefore(before: string, word: string, text: string)
    requires before + word <= text
    ensures PythonText.Occurs(word, text)
  {
    OccursInside(before, word, text[|before + word|..]);
    assert before + word + text[|before + word|..] == text;
  }

  lemma ProjectFragmentNames(ph: Phrases, r: Record, focus: seq<string>)
    requires r.ProjectRecord?
    ensures PythonText.Occurs(r.name, ProjectFragment(ph, r, focus))
  {
    hide PythonText.Occurs, Join, GermanList, Highlights;
    var text := ProjectFragment(ph, r, focus);
    var lead := "das Projekt " + r.name;
    assert lead <= text;
    OccursBefore("das Projekt ", r.name, text);
  }

  lemma LanguageSentenceNames(r: Record)
    requires r.LanguageRecord?
    ensures NamesRecord(r, LanguageSentence(r))
  {
    hide PythonText.Occurs;
    var lead := "Zudem verfüge ich über ";
    var end := (if r.level == NATIVE then " als Muttersprache" else "kenntnisse auf " + LevelText(r.level) + "-Niveau") + ".";
    OccursInside(lead, r.language, end);
    assert lead + r.language + end == LanguageSentence(r);
  }

  lemma {:induction false} GroupsCover(records: seq<Record>)
    ensures |Filter(IsSkill, records)| + |Filter(IsExperience, records)| + |Filter(IsProject, records)|
      + |Filter(IsLanguage, records)| == |records|
  {
    if records != [] {
      GroupsCover(records[..|records| - 1]);
    }
  }

  /** The sentences from `from` on are about the records, one each, in their order. */
  ghost predicate SayEach(records: seq<Record>, sentences: seq<string>, from: nat) {
    from + |records| <= |sentences| && forall k :: 0 <= k < |records| ==> NamesRecord(records[k], sentences[from + k])
  }

  lemma SayEachWithin(records: seq<Record>, part: seq<string>, before: seq<string>, after: seq<string>)
    requires SayEach(records, part, 0)
    ensures SayEach(records, before + part + after, |before|)
  {
    hide NamesRecord;
    forall k | 0 <= k < |records| ensures NamesRecord(records[k], (before + part + after)[|before| + k]) {
      assert NamesRecord(records[k], part[0 + k]);
    }
  }

  lemma ExperiencesNamed(experiences: seq<Record>)
    requires forall k :: 0 <= k < |experiences| ==> IsExperience(experiences[k])
    ensures SayEach(experiences, Map(ExperienceSentence, experiences), 0)
  {
    hide NamesRecord, ExperienceSentence;
    forall k | 0 <= k < |experiences| ensures NamesRecord(experiences[k], ExperienceSentence(experiences[k])) {
      ExperienceSentenceNames(experiences[k]);
    }
  }

  lemma ProjectsNamed(ph: Phrases, projects: seq<Record>, noExperience: bool, focus: seq<string>)
    requires forall k :: 0 <= k < |projects| ==> IsProject(projects[k])
    ensures SayEach(projects, ProjectSentences(ph, projects, |projects|, noExperience, focus), 0)
  {
    hide PythonText.Occurs, ProjectFragment, ProjectLead;
    forall k | 0 <= k < |projects|
      ensures NamesRecord(projects[k], ProjectSentences(ph, projects, |projects|, noExperience, focus)[k])
    {
      ProjectFragmentNames(ph, projects[k], focus);
      OccursWithin(projects[k].name, ProjectFragment(ph, projects[k], focus),
                   ProjectLead(k, noExperience, |projects|) + " ", ".");
    }
  }

  lemma LanguagesNamed(languages: seq<Record>)
    requires forall k :: 0 <= k < |languages| ==> IsLanguage(languages[k])
    ensures SayEach(languages, Map(LanguageSentence, languages), 0)
  {
    hide NamesRecord, LanguageSentence;
    forall k | 0 <= k < |languages| ensures NamesRecord(languages[k], LanguageSentence(languages[k])) {
      LanguageSentenceNames(languages[k]);
    }
  }

  /** One sentence for all skills and one for every other record: skills, experience,
      projects, languages, each naming what it is about. */
  lemma SentencesMeaning(ph: Phrases, records: seq<Record>, focus: seq<string>)
    ensures var sentences := Sentences(ph, records, focus);
      var skills, experiences := Filter(IsSkill, records), Filter(IsExperience, records);
      var projects, languages := Filter(IsProject, records), Filter(IsLanguage, records);
      var first := if skills == [] then 0 else 1;
      && |skills| + |experiences| + |projects| + |languages| == |records|
      && |sentences| == first + |experiences| + |projects| + |languages|
      && (forall k :: 0 <= k < |skills| ==> NamesRecord(skills[k], sentences[0]))
      && SayEach(experiences, sentences, first)
      && SayEach(projects, sentences, first + |experiences|)
      && SayEach(languages, sentences, first + |experiences| + |projects|)
  {
    GroupsCover(records);
    FilterKeeps(IsSkill, records);
    FilterKeeps(IsExperience, records);
    FilterKeeps(IsProject, records);
    FilterKeeps(IsLanguage, records);
    hide PythonText.Occurs, Filter, SkillSentence, ProjectSentences, SayEach, ExperienceSentence, LanguageSentence;
    var sentences := Sentences(ph, records, focus);
    var skills, experiences := Filter(IsSkill, records), Filter(IsExperience, records);
    var projects, languages := Filter(IsProject, records), Filter(IsLanguage, records);
    var a := if skills == [] then [] else [SkillSentence(Map(SkillName, skills), focus)];
    var b, d := Map(ExperienceSentence, experiences), Map(LanguageSentence, languages);
    var c := ProjectSentences(ph, projects, |projects|, experiences == [], focus);
    assert |c| == |projects| by { ProjectSentencesCount(ph, projects, experiences == [], focus); }
    assert sentences == a + b + c + d;
    forall k | 0 <= k < |skills| ensures NamesRecord(skills[k], sentences[0]) {
      SkillSentenceHas(Map(SkillName, skills), focus, k);
    }
    ExperiencesNamed(experiences);
    ProjectsNamed(ph, projects, experiences == [], focus);
    LanguagesNamed(languages);
    SayEachWithin(experiences, b, a, c + d);
    SayEachWithin(projects, c, a + b, d);
    SayEachWithin(languages, d, a + b + c, []);
    assert a + b + (c + d) == sentences && a + b + c + d + [] == sentences;
  }

  ghost predicate NamesSome(records: seq<Record>, sentence: string) {
    exists r :: r in records && NamesRecord(r, sentence)
  }

  ghost predicate NamedBySome(r: Record, sentences: seq<string>) {
    exists j :: 0 <= j < |sentences| && NamesRecord(r, sentences[j])
  }

  /** Every sentence names one of the records, and every record is named by a sentence. */
  ghost predicate NameEachOther(records: seq<Record>, sentences: seq<string>) {
    && (forall j :: 0 <= j < |sentences| ==> NamesSome(records, sentences[j]))
    && (forall k :: 0 <= k < |records| ==> NamedBySome(records[k], sentences))
  }

  lemma SaidSentence(group: seq<Record>, sentences: seq<string>, from: nat, j: nat)
    requires SayEach(group, sentences, from) && from <= j < from + |group|
    ensures NamesSome(group, sentences[j])
  {
    hide NamesRecord;
    assert group[j - from] in group && NamesRecord(group[j - from], sentences[from + (j - from)]);
  }

  lemma SaidRecord(group: seq<Record>, sentences: seq<string>, from: nat, r: Record)
    requires SayEach(group, sentences, from) && r in group
    ensures NamedBySome(r, sentences)
  {
    hide NamesRecord;
    var k :| 0 <= k < |group| && group[k] == r;
    assert NamesRecord(r, sentences[from + k]);
  }

  lemma SentencesNameRecords(ph: Phrases, records: seq<Record>, focus: seq<string>)
    ensures NameEachOther(records, Sentences(ph, records, focus))
  {
    hide NamesRecord, Sentences, SayEach, Filter;
    SentencesMeaning(ph, records, focus);
    var sentences := Sentences(ph, records, focus);
    var skills, experiences := Filter(IsSkill, records), Filter(IsExperience, records);
    var projects, languages := Filter(IsProject, records), Filter(IsLanguage, records);
    var first := if skills == [] then 0 else 1;
    forall r ensures r in skills + experiences + projects + languages <==> r in records {
      FilterMember(IsSkill, records, r);
      FilterMember(IsExperience, records, r);
      FilterMember(IsProject, records, r);
      FilterMember(IsLanguage, records, r);
    }
    forall j | 0 <= j < |sentences| ensures NamesSome(records, sentences[j]) {
      var r: Record;
      if j < first {
        r := skills[0];
        assert r in skills && NamesRecord(r, sentences[0]);
      } else if j < first + |experiences| {
        SaidSentence(experiences, sentences, first, j);
        r :| r in experiences && NamesRecord(r, sentences[j]);
      } else if j < first + |experiences| + |projects| {
        SaidSentence(projects, sentences, first + |experiences|, j);
        r :| r in projects && NamesRecord(r, sentences[j]);
      } else {
        SaidSentence(languages, sentences, first + |experiences| + |projects|, j);
        r :| r in languages && NamesRecord(r, sentences[j]);
      }
      assert r in skills + experiences + projects + languages;
    }
    forall i | 0 <= i < |records| ensures NamedBySome(records[i], sentences) {
      var r := records[i];
      assert r in skills + experiences + projects + languages;
      if r in skills {
        var k :| 0 <= k < |skills| && skills[k] == r;
        assert NamesRecord(skills[k], sentences[0]);
      } else if r in experiences {
        SaidRecord(experiences, sentences, first, r);
      } else if r in projects {
        SaidRecord(projects, sentences, first + |experiences|, r);
      } else {
        SaidRecord(languages, sentences, first + |experiences| + |projects|, r);
      }
    }
  }

  lemma ProjectSentencesCount(ph: Phrases, projects: seq<Record>, noExperience: bool, focus: seq<string>)
    ensures |ProjectSentences(ph, projects, |projects|, noExperience, focus)| == |projects|
  {
  }

  method AddSentences(before: seq<string>, render: Record -> string, records: seq<Record>) returns (sentences: seq<string>)
    ensures sentences == before + Map(render, records)
  {
    sentences := before;
    for k := 0 to |records|
      invariant sentences == before + Map(render, records[..k])
    {
      assert records[..k + 1] == records[..k] + [records[k]];
      sentences := sentences + [render(records[k])];
    }
    assert records[..|records|] == records;
  }

  method AddProjects(before: seq<string>, ph: Phrases, projects: seq<Record>, noExperience: bool, focus: seq<string>)
    returns (sentences: seq<string>)
    requires forall k :: 0 <= k < |projects| ==> projects[k].ProjectRecord?
    ensures sentences == before + ProjectSentences(ph, projects, |projects|, noExperience, focus)
  {
    hide ProjectFragment, ProjectLead;
    sentences := before;
    for k := 0 to |projects|
      invariant sentences == before + ProjectSentences(ph, projects, k, noExperience, focus)
    {
      var lead := ProjectLead(k, noExperience, |projects|);
      sentences := sentences + [lead + " " + ProjectFragment(ph, projects[k], focus) + "."];
    }
  }

  /** `_render_evidence_paragraph`, as the loops the source runs. */
  method RenderEvidenceParagraph(ph: Phrases, records: seq<Record>, focus: seq<string>) returns (text: string)
    ensures text == Join(" ", Sentences(ph, records, focus))
  {
    hide ExperienceSentence, LanguageSentence, SkillSentence, Filter, ProjectSentences, Join;
    var skills, experiences := Filter(IsSkill, records), Filter(IsExperience, records);
    var projects, languages := Filter(IsProject, records), Filter(IsLanguage, records);
    FilterKeeps(IsProject, records);
    assert forall k :: 0 <= k < |projects| ==> IsProject(projects[k]);
    var sentences: seq<string> := if skills == [] then [] else [SkillSentence(Map(SkillName, skills), focus)];
    sentences := AddSentences(sentences, ExperienceSentence, experiences);
    sentences := AddProjects(sentences, ph, projects, experiences == [], focus);
    sentences := AddSentences(sentences, LanguageSentence, languages);
    text := Join(" ", sentences);
  }

  // ---------------------------------------------------------------- the letter

  datatype LetterParagraph = LetterParagraph(text: string, sources: seq<string>)

  datatype Letter = Letter(
    subject: string, salutation: string, opening: string, body: seq<LetterParagraph>, closing: string)

  function Opening(style: OpeningStyle, withSkills: bool, title: string, company: string): string {
    match style
    case ROLE_INTEREST =>
      "mit großem Interesse habe ich Ihre Stellenanzeige für die Position \"" + title + "\" bei " + company + " gelesen."
    case MATCH_FOCUS =>
      "Die ausgeschriebene Position \"" + title + "\" bei " + company + " interessiert mich besonders"
      + (if withSkills then ", da sie gut zu meinen Kenntnissen passt." else ".")
  }

  function Closing(style: ClosingStyle): string {
    match style
    case INTERVIEW_INTEREST => "Über die Möglichkeit eines persönlichen Gesprächs würde ich mich sehr freuen."
    case SHORT_PROFESSIONAL => "Für Rückfragen stehe ich Ihnen gerne zur Verfügung."
  }

  const GENERIC_SENTENCE := "Gerne stelle ich mich Ihnen in einem persönlichen Gespräch vor."

  function Body(ph: Phrases, paragraphs: seq<Paragraph>, resolved: seq<seq<Record>>, focus: seq<string>): seq<LetterParagraph>
    requires |paragraphs| == |resolved|
  {
    seq(|paragraphs|, k requires 0 <= k < |paragraphs| =>
      LetterParagraph(
        if paragraphs[k].kind == GENERIC then GENERIC_SENTENCE
        else Join(" ", Sentences(ph, resolved[k], focus)),
        paragraphs[k].claimIds))
  }

  /** `render_draft` */
  function Render(ph: Phrases, plan: Plan, resolved: seq<seq<Record>>, title: string, company: string,
                  description: string): Letter
    requires |plan.paragraphs| == |resolved|
  {
    var withSkills := exists k, i :: 0 <= k < |resolved| && 0 <= i < |resolved[k]| && resolved[k][i].SkillRecord?;
    Letter("Bewerbung als " + title, "Sehr geehrte Damen und Herren,",
           Opening(plan.opening, withSkills, title, company),
           Body(ph, plan.paragraphs, resolved, ph.focus(title, description)), Closing(plan.closing))
  }

  function ResolveAll(paragraphs: seq<Paragraph>, registry: map<string, Record>): (resolved: seq<seq<Record>>)
    ensures |resolved| == |paragraphs|
  {
    seq(|paragraphs|, k requires 0 <= k < |paragraphs| =>
      if forall i :: 0 <= i < |paragraphs[k].claimIds| ==> paragraphs[k].claimIds[i] in registry
      then Records(registry, paragraphs[k].claimIds) else [])
  }

  /** A provider answers with a plan or with something that is none. */
  type Provider = Packet -> Option<Plan>

  /** From draft to letter; None when the provider's answer is rejected. */
  function LetterFor(ph: Phrases, provider: Provider, d: Draft, m: Match, title: string, company: string,
                     description: string): Option<Letter> {
    var entries := Entries(ph, d, title, description);
    var plan := provider(PacketFor(d, m, title, company, description, Map(ClaimOf, entries)));
    if plan.None? || !ValidPlan(plan.value) || !GoodIds(AllIds(plan.value.paragraphs), Register(entries)) then None
    else Some(Render(ph, plan.value, ResolveAll(plan.value.paragraphs, Register(entries)), title, company, description))
  }

  /** The pipeline as the source runs it: evidence, provider, plan, sentences. */
  method ComposeLetter(ph: Phrases, provider: Provider, d: Draft, m: Match, title: string, company: string,
                       description: string) returns (letter: Option<Letter>)
    ensures letter == LetterFor(ph, provider, d, m, title, company, description)
  {
    hide Entries, PacketFor, ValidPlan, GoodIds, Render;
    var packet, registry := BuildEvidence(ph, d, m, title, company, description);
    var plan := provider(packet);
    if plan.None? || !ValidPlan(plan.value) {
      return None;
    }
    var resolved := ResolvePlan(plan.value, registry);
    if resolved.Err? {
      return None;
    }
    assert resolved.value == ResolveAll(plan.value.paragraphs, registry);
    return Some(Render(ph, plan.value, resolved.value, title, company, description));
  }
}
