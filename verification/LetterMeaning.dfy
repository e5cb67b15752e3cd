/** What a cover letter of `app/agents/bewerbung_renderer.py` says, word for word,
    in terms of the CV draft and the provider's plan. */
module LetterMeaning {
  import opened CandidateMatcher
  import opened CandidateProfile
  import opened CvAdapter
  import opened Decimal
  import opened LetterRenderer
  import opened MatchContents
  import opened MatchModel
  import opened Permutations
  import PythonText
  import opened Sequences
  import opened Sorting
  import opened Wrappers

  // ---------------------------------------------------------------- lists of words

  /** The items in order, `between` them, `last` before the last one. */
  function Listed(items: seq<string>, between: string, last: string): string {
    if items == [] then ""
    else if |items| == 1 then items[0]
    else if |items| == 2 then items[0] + last + items[1]
    else items[0] + between + Listed(items[1..], between, last)
  }

  lemma {:induction false} ListedEnd(items: seq<string>, between: string, last: string)
    requires |items| >= 2
    ensures Listed(items, between, last)
      == Listed(items[..|items| - 1], between, between) + last + items[|items| - 1]
  {
    var n := |items| - 1;
    if n > 1 {
      ListedEnd(items[1..], between, last);
      assert items[1..][..n - 1] == items[..n][1..];
    }
  }

  lemma {:induction false} JoinMeaning(separator: string, items: seq<string>)
    ensures Join(separator, items) == Listed(items, separator, separator)
  {
    if |items| >= 2 {
      JoinMeaning(separator, items[..|items| - 1]);
      ListedEnd(items, separator, separator);
    }
  }

  lemma GermanListMeaning(items: seq<string>)
    ensures GermanList(items) == Listed(items, ", ", " und ")
  {
    if |items| >= 2 {
      JoinMeaning(", ", items[..|items| - 1]);
      ListedEnd(items, ", ", " und ");
    }
  }

  // ---------------------------------------------------------------- sentences

  /** `names` are the names of the skills. */
  ghost predicate AreNames(skills: seq<Record>, names: seq<string>) {
    |names| == |skills| && forall k :: 0 <= k < |skills| ==> skills[k] == SkillRecord(names[k])
  }

  /** Skills are claimed as knowledge only, next to the focus of the vacancy if it has one. */
  ghost predicate SaysSkills(skills: seq<Record>, focus: seq<string>, sentence: string) {
    exists names :: AreNames(skills, names) && sentence ==
      if focus != []
      then "Ihre Ausschreibung nennt als Schwerpunkte " + Listed(focus, ", ", " und ")
           + ". Dafür bringe ich Kenntnisse in " + Listed(names, ", ", " und ") + " mit."
      else "Ich bringe Kenntnisse in " + Listed(names, ", ", ", ") + " mit, die für diese Position relevant sind."
  }

  /** An experience is stated with its role, company and its own technologies. */
  ghost predicate SaysExperience(r: Record, sentence: string) {
    r.ExperienceRecord? && sentence ==
      "Besonders relevant ist "
      + ("meine Erfahrung als " + r.role + " bei " + r.company
         + (if r.technologies == [] then "" else " (u. a. mit " + Listed(r.technologies, ", ", ", ") + ")"))
      + "."
  }

  /** A language is stated with its level, as mother tongue only when it is one. */
  ghost predicate SaysLanguage(r: Record, sentence: string) {
    r.LanguageRecord? &&
    if r.level == NATIVE then sentence == "Zudem verfüge ich über " + (r.language + " als Muttersprache") + "."
    else exists name :: (r.level, name) in LEVEL_NAMES && SaysLevel(r.language, name, sentence)
  }

  predicate SaysLevel(language: string, name: string, sentence: string) {
    sentence == "Zudem verfüge ich über " + (language + "kenntnisse auf " + name + "-Niveau") + "."
  }

  /** The highlight may be cited: relevant to the focus, with a public German wording. */
  predicate MayCite(ph: Phrases, highlight: string, focus: seq<string>) {
    && (focus == [] || ph.focusRelevant(highlight))
    && ph.publicPhrase(highlight) != ""
    && (ph.publicPhrase(highlight) != PythonText.Strip(highlight) || !ph.english(ph.publicPhrase(highlight)))
  }

  /** `cited` are the wordings of the highlights at `at`: the first two different ones that may be cited. */
  ghost predicate CitesAt(ph: Phrases, highlights: seq<string>, focus: seq<string>, cited: seq<string>, at: seq<nat>) {
    && |at| == |cited| <= 2
    && (forall i :: 0 <= i < |at| ==>
          at[i] < |highlights| && MayCite(ph, highlights[at[i]], focus) && cited[i] == ph.publicPhrase(highlights[at[i]]))
    && (|at| == 2 ==> at[0] < at[1] && cited[0] != cited[1])
    && (forall k: nat :: k < |highlights| && MayCite(ph, highlights[k], focus) ==>
          CitedOrLate(k, ph.publicPhrase(highlights[k]), cited, at))
  }

  /** The highlight at `k` is cited, or comes after two cited ones or after one of the same wording. */
  ghost predicate CitedOrLate(k: nat, wording: string, cited: seq<string>, at: seq<nat>) {
    || k in at
    || (|at| == 2 && at[1] < k)
    || exists i :: 0 <= i < |at| && i < |cited| && at[i] < k && cited[i] == wording
  }

  ghost predicate Cites(ph: Phrases, highlights: seq<string>, focus: seq<string>, cited: seq<string>) {
    exists at :: CitesAt(ph, highlights, focus, cited, at)
  }

  /** A project is stated with up to four technologies and what it was about, or by name alone. */
  ghost predicate SaysProject(ph: Phrases, r: Record, lead: string, focus: seq<string>, sentence: string) {
    r.ProjectRecord? && exists cited :: Cites(ph, r.highlights, focus, cited) && SaysCited(r, lead, cited, sentence)
  }

  predicate SaysCited(r: Record, lead: string, cited: seq<string>, sentence: string) {
    r.ProjectRecord? && sentence == lead + " "
      + ("das Projekt " + r.name
         + (if cited == [] || r.technologies == [] then ""
            else " (" + Listed(if |r.technologies| <= 4 then r.technologies else r.technologies[..4], ", ", ", ") + ")")
         + (if cited == [] then "" else " mit den Schwerpunkten " + Listed(cited, ", ", " und ")))
      + "."
  }

  /** How the project at `k` of `count` is introduced. */
  function LeadOf(k: nat, count: nat, afterExperience: bool): string {
    if k >= 2 then "Außerdem relevant ist"
    else if k == 1 || count == 1 || afterExperience then "Ebenfalls relevant ist"
    else "Besonders relevant ist"
  }

  lemma SkillsMeaning(skills: seq<Record>, focus: seq<string>)
    requires forall k :: 0 <= k < |skills| ==> IsSkill(skills[k])
    ensures SaysSkills(skills, focus, SkillSentence(Map(SkillName, skills), focus))
  {
    var names := Map(SkillName, skills);
    GermanListMeaning(focus);
    GermanListMeaning(names);
    JoinMeaning(", ", names);
    hide Join, GermanList, Listed;
    assert AreNames(skills, names);
  }

  lemma ExperienceMeaning(r: Record)
    requires IsExperience(r)
    ensures SaysExperience(r, ExperienceSentence(r))
  {
    JoinMeaning(", ", r.technologies);
    hide Join, Listed;
  }

  lemma LanguageMeaning(r: Record)
    requires IsLanguage(r)
    ensures SaysLanguage(r, LanguageSentence(r))
  {
    LevelNamesMeaning(r.level, LevelText(r.level));
    hide LevelText;
    if r.level != NATIVE {
      assert SaysLevel(r.language, LevelText(r.level), LanguageSentence(r));
    }
  }

  lemma {:induction false} HighlightsMeaning(ph: Phrases, highlights: seq<string>, focus: seq<string>)
    returns (at: seq<nat>)
    ensures CitesAt(ph, highlights, focus, Highlights(ph, highlights, focus, PythonText.Strip), at)
  {
    at := [];
    if highlights != [] {
      var n := |highlights| - 1;
      at := HighlightsMeaning(ph, highlights[..n], focus);
      var before := Highlights(ph, highlights[..n], focus, PythonText.Strip);
      if |before| == 2 || !MayCite(ph, highlights[n], focus) || ph.publicPhrase(highlights[n]) in before {
        CitesNoMore(ph, highlights, focus, before, at);
      } else {
        CitesOneMore(ph, highlights, focus, before, at);
        at := at + [n];
      }
    }
  }

  lemma CitesNoMore(ph: Phrases, highlights: seq<string>, focus: seq<string>, cited: seq<string>, at: seq<nat>)
    requires highlights != [] && CitesAt(ph, highlights[..|highlights| - 1], focus, cited, at)
    requires var last := highlights[|highlights| - 1];
      |cited| == 2 || !MayCite(ph, last, focus) || ph.publicPhrase(last) in cited
    ensures CitesAt(ph, highlights, focus, cited, at)
  {
    hide MayCite;
    var n := |highlights| - 1;
    assert forall k :: 0 <= k < n ==> highlights[..n][k] == highlights[k];
    if MayCite(ph, highlights[n], focus) && |cited| < 2 {
      var i :| 0 <= i < |cited| && cited[i] == ph.publicPhrase(highlights[n]);
      assert CitedOrLate(n, ph.publicPhrase(highlights[n]), cited, at);
    }
  }

  lemma CitesOneMore(ph: Phrases, highlights: seq<string>, focus: seq<string>, cited: seq<string>, at: seq<nat>)
    requires highlights != [] && CitesAt(ph, highlights[..|highlights| - 1], focus, cited, at)
    requires var last := highlights[|highlights| - 1];
      |cited| < 2 && MayCite(ph, last, focus) && ph.publicPhrase(last) !in cited
    ensures var n := |highlights| - 1;
      CitesAt(ph, highlights, focus, cited + [ph.publicPhrase(highlights[n])], at + [n])
  {
    hide MayCite;
    var n := |highlights| - 1;
    assert forall k :: 0 <= k < n ==> highlights[..n][k] == highlights[k];
    var more, all := at + [n], cited + [ph.publicPhrase(highlights[n])];
    assert more[|at|] == n;
    forall k: nat | k < |highlights| && MayCite(ph, highlights[k], focus)
      ensures CitedOrLate(k, ph.publicPhrase(highlights[k]), all, more)
    {
      if k < n {
        LateStays(k, ph.publicPhrase(highlights[k]), cited, at, ph.publicPhrase(highlights[n]), n);
      }
    }
  }

  lemma LateStays(k: nat, wording: string, cited: seq<string>, at: seq<nat>, next: string, n: nat)
    requires CitedOrLate(k, wording, cited, at) && |at| == |cited| < 2
    ensures CitedOrLate(k, wording, cited + [next], at + [n])
  {
    if k !in at {
      var i :| 0 <= i < |at| && i < |cited| && at[i] < k && cited[i] == wording;
      assert (at + [n])[i] == at[i] && (cited + [next])[i] == cited[i];
    }
  }

  lemma ProjectMeaning(ph: Phrases, r: Record, lead: string, focus: seq<string>)
    requires IsProject(r)
    ensures SaysProject(ph, r, lead, focus, lead + " " + ProjectFragment(ph, r, focus) + ".")
  {
    var cited := Highlights(ph, r.highlights, focus, PythonText.Strip);
    var at := HighlightsMeaning(ph, r.highlights, focus);
    hide Highlights, CitesAt;
    CitedProject(r, lead, cited, ProjectFragment(ph, r, focus));
    hide ProjectFragment;
  }

  lemma CitedProject(r: Record, lead: string, cited: seq<string>, fragment: string)
    requires r.ProjectRecord?
    requires fragment ==
      if cited == [] then "das Projekt " + r.name
      else "das Projekt " + r.name
           + (if r.technologies == [] then ""
              else " (" + Join(", ", UpTo(r.technologies, MAX_PROJECT_TECHNOLOGIES)) + ")")
           + " mit den Schwerpunkten " + GermanList(cited)
    ensures SaysCited(r, lead, cited, lead + " " + fragment + ".")
  {
    GermanListMeaning(cited);
    JoinMeaning(", ", UpTo(r.technologies, MAX_PROJECT_TECHNOLOGIES));
    hide Join, GermanList, Listed;
    var name := "das Projekt " + r.name;
    if cited == [] {
      assert name + "" + "" == name;
    } else {
      var some := if r.technologies == [] then ""
        else " (" + Join(", ", UpTo(r.technologies, MAX_PROJECT_TECHNOLOGIES)) + ")";
      Regroup(name, some, " mit den Schwerpunkten ", GermanList(cited));
    }
  }

  lemma Regroup(a: string, b: string, c: string, d: string)
    ensures a + b + c + d == a + b + (c + d)
  {
  }

  /** Some of the records, and the sentences about them. */
  datatype Part = Part(records: seq<Record>, sentences: seq<string>)

  ghost predicate SkillPart(part: Part, records: seq<Record>, focus: seq<string>) {
    && Selects(part.records, records, IsSkill)
    && if part.records == [] then part.sentences == []
       else |part.sentences| == 1 && SaysSkills(part.records, focus, part.sentences[0])
  }

  ghost predicate ExperiencePart(part: Part, records: seq<Record>) {
    && Selects(part.records, records, IsExperience)
    && |part.sentences| == |part.records|
    && forall k :: 0 <= k < |part.records| ==> SaysExperience(part.records[k], part.sentences[k])
  }

  ghost predicate ProjectPart(ph: Phrases, part: Part, records: seq<Record>, afterExperience: bool, focus: seq<string>) {
    && Selects(part.records, records, IsProject)
    && |part.sentences| == |part.records|
    && forall k :: 0 <= k < |part.records| ==>
         SaysProject(ph, part.records[k], LeadOf(k, |part.records|, afterExperience), focus, part.sentences[k])
  }

  ghost predicate LanguagePart(part: Part, records: seq<Record>) {
    && Selects(part.records, records, IsLanguage)
    && |part.sentences| == |part.records|
    && forall k :: 0 <= k < |part.records| ==> SaysLanguage(part.records[k], part.sentences[k])
  }

  ghost predicate SentencesFor(ph: Phrases, records: seq<Record>, focus: seq<string>, sentences: seq<string>, a: Part,
                               b: Part, c: Part, d: Part)
  {
    && SkillPart(a, records, focus) && ExperiencePart(b, records)
    && ProjectPart(ph, c, records, b.records != [], focus) && LanguagePart(d, records)
    && sentences == a.sentences + b.sentences + c.sentences + d.sentences
  }

  /** Skills in one sentence, then each experience, each project and each language in its own. */
  ghost predicate SentencesAre(ph: Phrases, records: seq<Record>, focus: seq<string>, sentences: seq<string>) {
    exists a, b, c, d :: SentencesFor(ph, records, focus, sentences, a, b, c, d)
  }

  lemma ProjectSentenceAt(ph: Phrases, projects: seq<Record>, noExperience: bool, focus: seq<string>, k: nat)
    requires k < |projects| && IsProject(projects[k])
    ensures SaysProject(ph, projects[k], LeadOf(k, |projects|, !noExperience), focus,
                        ProjectSentences(ph, projects, |projects|, noExperience, focus)[k])
  {
    hide ProjectFragment;
    ProjectMeaning(ph, projects[k], ProjectLead(k, noExperience, |projects|), focus);
    hide SaysProject;
    assert LeadOf(k, |projects|, !noExperience) == ProjectLead(k, noExperience, |projects|);
  }

  function SkillsOf(records: seq<Record>, focus: seq<string>): Part {
    var skills := Filter(IsSkill, records);
    Part(skills, if skills == [] then [] else [SkillSentence(Map(SkillName, skills), focus)])
  }

  function ExperiencesOf(records: seq<Record>): Part {
    Part(Filter(IsExperience, records), Map(ExperienceSentence, Filter(IsExperience, records)))
  }

  function ProjectsOf(ph: Phrases, records: seq<Record>, focus: seq<string>): Part {
    var projects := Filter(IsProject, records);
    Part(projects, ProjectSentences(ph, projects, |projects|, Filter(IsExperience, records) == [], focus))
  }

  function LanguagesOf(records: seq<Record>): Part {
    Part(Filter(IsLanguage, records), Map(LanguageSentence, Filter(IsLanguage, records)))
  }

  lemma SkillsSaid(records: seq<Record>, focus: seq<string>)
    ensures SkillPart(SkillsOf(records, focus), records, focus)
  {
    FilterKeeps(IsSkill, records);
    FilterSelects(IsSkill, records);
    hide Filter, Selects, SkillSentence, SaysSkills;
    SkillsMeaning(Filter(IsSkill, records), focus);
  }

  lemma ExperiencesSaid(records: seq<Record>)
    ensures ExperiencePart(ExperiencesOf(records), records)
  {
    FilterKeeps(IsExperience, records);
    FilterSelects(IsExperience, records);
    hide Filter, Selects, ExperienceSentence, SaysExperience;
    var experiences := Filter(IsExperience, records);
    forall k | 0 <= k < |experiences| ensures SaysExperience(experiences[k], ExperienceSentence(experiences[k])) {
      ExperienceMeaning(experiences[k]);
    }
  }

  lemma ProjectsSaid(ph: Phrases, records: seq<Record>, focus: seq<string>)
    ensures ProjectPart(ph, ProjectsOf(ph, records, focus), records, Filter(IsExperience, records) != [], focus)
  {
    FilterKeeps(IsProject, records);
    FilterSelects(IsProject, records);
    var projects, noExperience := Filter(IsProject, records), Filter(IsExperience, records) == [];
    ProjectSentencesCount(ph, projects, noExperience, focus);
    hide Filter, Selects, ProjectSentences, SaysProject, LeadOf;
    var said := ProjectSentences(ph, projects, |projects|, noExperience, focus);
    forall k | 0 <= k < |projects|
      ensures SaysProject(ph, projects[k], LeadOf(k, |projects|, !noExperience), focus, said[k])
    {
      ProjectSentenceAt(ph, projects, noExperience, focus, k);
    }
  }

  lemma LanguagesSaid(records: seq<Record>)
    ensures LanguagePart(LanguagesOf(records), records)
  {
    FilterKeeps(IsLanguage, records);
    FilterSelects(IsLanguage, records);
    hide Filter, Selects, LanguageSentence, SaysLanguage;
    var languages := Filter(IsLanguage, records);
    forall k | 0 <= k < |languages| ensures SaysLanguage(languages[k], LanguageSentence(languages[k])) {
      LanguageMeaning(languages[k]);
    }
  }

  /** What a paragraph on the records says, sentence by sentence. */
  lemma SentencesAreWritten(ph: Phrases, records: seq<Record>, focus: seq<string>)
    ensures SentencesAre(ph, records, focus, Sentences(ph, records, focus))
  {
    hide Filter, SkillSentence, ExperienceSentence, LanguageSentence, ProjectSentences, SkillPart, ExperiencePart,
      ProjectPart, LanguagePart;
    var a, b := SkillsOf(records, focus), ExperiencesOf(records);
    var c, d := ProjectsOf(ph, records, focus), LanguagesOf(records);
    SkillsSaid(records, focus);
    ExperiencesSaid(records);
    ProjectsSaid(ph, records, focus);
    LanguagesSaid(records);
    assert SentencesFor(ph, records, focus, Sentences(ph, records, focus), a, b, c, d);
  }

  // ---------------------------------------------------------------- evidence

  ghost predicate AreSkillEntries(skills: seq<CvSkill>, entries: seq<Entry>) {
    && |entries| == |skills|
    && forall k :: 0 <= k < |entries| ==> entries[k] == Entry(
         AllowedClaim("candidate_skill:" + IntText(skills[k].sourceId), skills[k].text, "candidate_skill",
                      skills[k].sourceId),
         SkillRecord(skills[k].text))
  }

  /** At most the first three. */
  ghost predicate AreProjectEntries(projects: seq<CvProject>, entries: seq<Entry>) {
    && |entries| == (if |projects| <= 3 then |projects| else 3)
    && forall k :: 0 <= k < |entries| ==> entries[k] == Entry(
         AllowedClaim("candidate_project:" + IntText(projects[k].sourceId), projects[k].name, "candidate_project",
                      projects[k].sourceId),
         ProjectRecord(projects[k].name, projects[k].technologies, projects[k].highlights))
  }

  /** At most the first three. */
  ghost predicate AreExperienceEntries(relevant: seq<CvExperience>, entries: seq<Entry>) {
    && |entries| == (if |relevant| <= 3 then |relevant| else 3)
    && forall k :: 0 <= k < |entries| ==> entries[k] == Entry(
         AllowedClaim("candidate_experience:" + IntText(relevant[k].sourceId),
                      relevant[k].jobTitle + " bei " + relevant[k].company, "candidate_experience", relevant[k].sourceId),
         ExperienceRecord(relevant[k].company, relevant[k].jobTitle, relevant[k].technologies))
  }

  /** At most the first five, each with its level. */
  ghost predicate AreLanguageEntries(ranked: seq<CvLanguage>, entries: seq<Entry>) {
    && |entries| == (if |ranked| <= 5 then |ranked| else 5)
    && forall k :: 0 <= k < |entries| ==> IsLanguageEntry(ranked[k], entries[k])
  }

  ghost predicate IsLanguageEntry(x: CvLanguage, entry: Entry) {
    exists name :: (x.level, name) in LEVEL_NAMES && StatesLevel(x, name, entry)
  }

  predicate StatesLevel(x: CvLanguage, name: string, entry: Entry) {
    entry == Entry(
      AllowedClaim("candidate_language:" + IntText(x.sourceId), x.language + " (" + name + ")", "candidate_language",
                   x.sourceId),
      LanguageRecord(x.language, x.level))
  }

  /** Why the vacancy's text makes the language relevant: required (0), named (1), or written in it (2). */
  predicate HasReason(ph: Phrases, text: string, x: CvLanguage, reason: nat) {
    && x.level != UNKNOWN_LEVEL
    && match reason
       case 0 => x.requirement.Some?
       case 1 => x.requirement.None? && IsNamed(ph, text, x)
       case 2 => x.requirement.None? && !IsNamed(ph, text, x) && ph.languageKey(x.language).Some?
         && ph.writtenIn(text) == ph.languageKey(x.language)
       case _ => false
  }

  predicate IsNamed(ph: Phrases, text: string, x: CvLanguage) {
    ph.languageKey(x.language).Some? && ph.namedIn(text, ph.languageKey(x.language).value)
  }

  ghost predicate IsMentioned(ph: Phrases, text: string, x: CvLanguage) {
    exists reason :: HasReason(ph, text, x, reason)
  }

  ghost function BetterReason(ph: Phrases, text: string): (CvLanguage, CvLanguage) -> bool {
    (x, y) => exists i, j :: HasReason(ph, text, x, i) && HasReason(ph, text, y, j) && i < j
  }

  /** The languages with a reason, the best reason first. */
  ghost predicate RanksLanguages(ph: Phrases, text: string, languages: seq<CvLanguage>, ranked: seq<CvLanguage>) {
    exists picked :: Selects(picked, languages, (x: CvLanguage) => IsMentioned(ph, text, x))
      && SortsStably(BetterReason(ph, text), ranked, picked)
  }

  ghost predicate EntriesFrom(ph: Phrases, d: Draft, text: string, entries: seq<Entry>, a: seq<Entry>, b: seq<Entry>,
                              c: seq<Entry>, e: seq<Entry>, relevant: seq<CvExperience>, ranked: seq<CvLanguage>)
  {
    && AreSkillEntries(d.skills, a) && AreProjectEntries(d.projects, b)
    && Selects(relevant, d.experience, (x: CvExperience) => x.matchedSkills != []) && AreExperienceEntries(relevant, c)
    && RanksLanguages(ph, text, d.languages, ranked) && AreLanguageEntries(ranked, e)
    && entries == a + b + c + e
  }

  /** What a letter may use: all selected skills, the first projects, the first relevant
      experiences and the best languages. */
  ghost predicate EntriesAre(ph: Phrases, d: Draft, title: string, description: string, entries: seq<Entry>) {
    exists a, b, c, e, relevant, ranked ::
      EntriesFrom(ph, d, ph.fold(title + "\n" + description), entries, a, b, c, e, relevant, ranked)
  }

  lemma ReasonMeaning(ph: Phrases, text: string, x: CvLanguage, reason: nat)
    ensures HasReason(ph, text, x, reason) <==> LanguageReason(ph, text, x) == Some(reason)
  {
  }

  lemma {:induction false} RankedMeaning(ph: Phrases, text: string, languages: seq<CvLanguage>)
    ensures Selects(Map(LanguageOf, RankedLanguages(ph, text, languages)), languages,
                    (x: CvLanguage) => IsMentioned(ph, text, x))
    ensures forall k :: 0 <= k < |RankedLanguages(ph, text, languages)| ==>
      LanguageReason(ph, text, RankedLanguages(ph, text, languages)[k].language)
        == Some(RankedLanguages(ph, text, languages)[k].rank)
  {
    var keep := (x: CvLanguage) => IsMentioned(ph, text, x);
    if languages == [] {
      SelectsNothing(keep);
    } else {
      var n := |languages| - 1;
      var before := RankedLanguages(ph, text, languages[..n]);
      RankedMeaning(ph, text, languages[..n]);
      MentionedMeaning(ph, text, languages[n]);
      assert languages == languages[..n] + [languages[n]];
      hide Selects, IsMentioned, LanguageReason;
      SelectsNext(Map(LanguageOf, before), languages[..n], keep, languages[n]);
      var reason := LanguageReason(ph, text, languages[n]);
      if reason.Some? {
        MapAppend(LanguageOf, before, Ranked(reason.value, languages[n]));
      } else {
        assert before + [] == before && Map(LanguageOf, before) + [] == Map(LanguageOf, before);
      }
    }
  }

  lemma MentionedMeaning(ph: Phrases, text: string, x: CvLanguage)
    ensures IsMentioned(ph, text, x) <==> LanguageReason(ph, text, x).Some?
  {
    forall reason: nat ensures HasReason(ph, text, x, reason) <==> LanguageReason(ph, text, x) == Some(reason) {
      ReasonMeaning(ph, text, x, reason);
    }
    hide HasReason;
    assert LanguageReason(ph, text, x).Some? ==> LanguageReason(ph, text, x).value in {0, 1, 2};
    if LanguageReason(ph, text, x).Some? {
      assert HasReason(ph, text, x, LanguageReason(ph, text, x).value);
    }
  }

  lemma BetterIsRank(ph: Phrases, text: string, x: Ranked, y: Ranked)
    requires LanguageReason(ph, text, x.language) == Some(x.rank)
    requires LanguageReason(ph, text, y.language) == Some(y.rank)
    ensures BetterReason(ph, text)(x.language, y.language) <==> x.rank < y.rank
  {
    forall reason: nat
      ensures HasReason(ph, text, x.language, reason) <==> x.rank == reason
      ensures HasReason(ph, text, y.language, reason) <==> y.rank == reason
    {
      ReasonMeaning(ph, text, x.language, reason);
      ReasonMeaning(ph, text, y.language, reason);
    }
    assert x.rank >= 0 && y.rank >= 0 by {
      hide HasReason;
    }
    hide HasReason, LanguageReason;
    if x.rank < y.rank {
      assert HasReason(ph, text, x.language, x.rank) && HasReason(ph, text, y.language, y.rank);
    }
  }

  lemma SortedByReason(ph: Phrases, text: string, ranked: seq<Ranked>)
    requires forall k :: 0 <= k < |ranked| ==> LanguageReason(ph, text, ranked[k].language) == Some(ranked[k].rank)
    ensures SortsStably(BetterReason(ph, text), Map(LanguageOf, SortBy(RankOf, ranked)), Map(LanguageOf, ranked))
  {
    SortByIsStable(RankOf, ranked);
    hide SortBy, BetterReason, LanguageReason, SortsStably;
    forall i, j | 0 <= i < |ranked| && 0 <= j < |ranked|
      ensures KeyLess(RankOf)(ranked[i], ranked[j])
        == BetterReason(ph, text)(ranked[i].language, ranked[j].language)
    {
      BetterIsRank(ph, text, ranked[i], ranked[j]);
      assert KeyLess(RankOf)(ranked[i], ranked[j]) == (RankOf(ranked[i]) < RankOf(ranked[j]));
    }
    SortsMapped(KeyLess(RankOf), BetterReason(ph, text), LanguageOf, SortBy(RankOf, ranked), ranked,
                Map(LanguageOf, SortBy(RankOf, ranked)), Map(LanguageOf, ranked));
  }

  lemma LanguagesRanked(ph: Phrases, languages: seq<CvLanguage>, title: string, description: string)
    ensures RanksLanguages(ph, ph.fold(title + "\n" + description), languages,
                           RelevantLanguages(ph, languages, title, description))
  {
    var text := ph.fold(title + "\n" + description);
    RankedMeaning(ph, text, languages);
    SortedByReason(ph, text, RankedLanguages(ph, text, languages));
    hide Selects, SortsStably, SortBy, RankedLanguages;
  }

  lemma LanguageEntriesMeaning(ranked: seq<CvLanguage>)
    ensures AreLanguageEntries(ranked, Map(LanguageEntry, UpTo(ranked, MAX_LANGUAGE_CLAIMS)))
  {
    var chosen := UpTo(ranked, MAX_LANGUAGE_CLAIMS);
    hide LevelText;
    forall k | 0 <= k < |chosen| ensures IsLanguageEntry(ranked[k], LanguageEntry(chosen[k])) {
      LevelNamesMeaning(ranked[k].level, LevelText(ranked[k].level));
      assert chosen[k] == ranked[k];
      ClaimIdText("candidate_language", ranked[k].sourceId);
      assert "candidate_language" + ":" == "candidate_language:";
      assert StatesLevel(ranked[k], LevelText(ranked[k].level), LanguageEntry(ranked[k]));
    }
  }

  lemma ClaimIdText(entity: string, id: int)
    ensures ClaimId(entity, id) == (entity + ":") + IntText(id)
  {
  }

  lemma SkillEntriesMeaning(skills: seq<CvSkill>)
    ensures AreSkillEntries(skills, Map(SkillEntry, skills))
  {
    hide IntText;
    assert "candidate_skill" + ":" == "candidate_skill:";
  }

  lemma ProjectEntriesMeaning(projects: seq<CvProject>)
    ensures AreProjectEntries(projects, Map(ProjectEntry, UpTo(projects, MAX_PROJECT_CLAIMS)))
  {
    hide IntText;
    assert "candidate_project" + ":" == "candidate_project:";
  }

  lemma ExperienceEntriesMeaning(relevant: seq<CvExperience>)
    ensures AreExperienceEntries(relevant, Map(ExperienceEntry, UpTo(relevant, MAX_EXPERIENCE_CLAIMS)))
  {
    hide IntText;
    assert "candidate_experience" + ":" == "candidate_experience:";
  }

  lemma EntriesMeaning(ph: Phrases, d: Draft, title: string, description: string)
    ensures EntriesAre(ph, d, title, description, Entries(ph, d, title, description))
  {
    var relevant := Filter((x: CvExperience) => x.matchedSkills != [], d.experience);
    FilterSelects((x: CvExperience) => x.matchedSkills != [], d.experience);
    assert Selects(relevant, d.experience, (x: CvExperience) => x.matchedSkills != []);
    var ranked := RelevantLanguages(ph, d.languages, title, description);
    var a, b := Map(SkillEntry, d.skills), Map(ProjectEntry, UpTo(d.projects, MAX_PROJECT_CLAIMS));
    var c := Map(ExperienceEntry, UpTo(relevant, MAX_EXPERIENCE_CLAIMS));
    var e := Map(LanguageEntry, UpTo(ranked, MAX_LANGUAGE_CLAIMS));
    assert Entries(ph, d, title, description) == a + b + c + e;
    hide Entries, RelevantLanguages, Filter, Selects, RanksLanguages, AreSkillEntries, AreProjectEntries,
      AreExperienceEntries, AreLanguageEntries, UpTo;
    LanguagesRanked(ph, d.languages, title, description);
    SkillEntriesMeaning(d.skills);
    ProjectEntriesMeaning(d.projects);
    ExperienceEntriesMeaning(relevant);
    LanguageEntriesMeaning(ranked);
    assert EntriesFrom(ph, d, ph.fold(title + "\n" + description), a + b + c + e, a, b, c, e, relevant, ranked);
  }

  // ---------------------------------------------------------------- the packet and the plan

  ghost predicate AreTexts(requirements: seq<Requirement>, texts: seq<string>) {
    |texts| == |requirements| && forall k :: 0 <= k < |texts| ==> texts[k] == requirements[k].text
  }

  ghost predicate IsFactText(d: Draft, field: TopField, text: Option<string>) {
    if field in d.header then text == Some(d.header[field].value) else text == None
  }

  /** All the provider is given: header values, the vacancy, the claims, and the texts of the requirements. */
  ghost predicate PacketIs(d: Draft, m: Match, title: string, company: string, description: string, entries: seq<Entry>,
                           packet: Packet)
  {
    && IsFactText(d, ProfessionalTitle, packet.title) && IsFactText(d, FirstName, packet.firstName)
    && IsFactText(d, LastName, packet.lastName)
    && (packet.summary.Some? <==> d.summary.Some?) && (d.summary.Some? ==> packet.summary == Some(d.summary.value.value))
    && packet.jobTitle == title && packet.company == company && packet.description == description
    && AreTexts(m.matched, packet.matched) && AreTexts(m.partials, packet.partials)
    && AreTexts(m.missing + m.unknown, packet.forbidden)
    && |packet.allowed| == |entries| && forall k :: 0 <= k < |entries| ==> packet.allowed[k] == entries[k].claim
  }

  lemma PacketMeaning(d: Draft, m: Match, title: string, company: string, description: string, entries: seq<Entry>)
    ensures PacketIs(d, m, title, company, description, entries,
                     PacketFor(d, m, title, company, description, Map(ClaimOf, entries)))
  {
  }

  /** `record` is what the last entry with this claim id stands for. */
  ghost predicate StandsFor(entries: seq<Entry>, id: string, record: Record) {
    exists k :: 0 <= k < |entries| && entries[k].claim.id == id && entries[k].record == record
      && forall j :: k < j < |entries| ==> entries[j].claim.id != id
  }

  lemma {:induction false} RegisterMeaning(entries: seq<Entry>, id: string, record: Record)
    ensures id in Register(entries) && Register(entries)[id] == record <==> StandsFor(entries, id, record)
  {
    if entries != [] {
      var n := |entries| - 1;
      RegisterMeaning(entries[..n], id, record);
      assert forall k :: 0 <= k < n ==> entries[..n][k] == entries[k];
      if entries[n].claim.id != id && StandsFor(entries[..n], id, record) {
        var k :| 0 <= k < n && entries[..n][k].claim.id == id && entries[..n][k].record == record
          && forall j :: k < j < n ==> entries[..n][j].claim.id != id;
        assert entries[k].claim.id == id;
      }
    }
  }

  function TotalIds(paragraphs: seq<Paragraph>): nat {
    if paragraphs == [] then 0 else |paragraphs[0].claimIds| + TotalIds(paragraphs[1..])
  }

  /** One to four paragraphs, ten ids in all, four in one; evidence paragraphs name some, generic ones none. */
  ghost predicate PlanIsValid(plan: Plan) {
    && 1 <= |plan.paragraphs| <= 4
    && TotalIds(plan.paragraphs) <= 10
    && forall x :: x in plan.paragraphs ==>
         && |x.claimIds| <= 4
         && (x.kind == GENERIC ==> x.claimIds == []) && (x.kind == EVIDENCE ==> x.claimIds != [])
         && forall id :: id in x.claimIds ==> 1 <= |id| <= 100
  }

  lemma {:induction false} TotalIdsMeaning(paragraphs: seq<Paragraph>)
    ensures TotalIds(paragraphs) == |AllIds(paragraphs)|
  {
    if paragraphs != [] {
      var n := |paragraphs| - 1;
      TotalIdsMeaning(paragraphs[..n]);
      TotalIdsEnd(paragraphs);
    }
  }

  lemma {:induction false} TotalIdsEnd(paragraphs: seq<Paragraph>)
    requires paragraphs != []
    ensures var n := |paragraphs| - 1;
      TotalIds(paragraphs) == TotalIds(paragraphs[..n]) + |paragraphs[n].claimIds|
  {
    var n := |paragraphs| - 1;
    if n > 0 {
      TotalIdsEnd(paragraphs[1..]);
      assert paragraphs[1..][..n - 1] == paragraphs[..n][1..];
    }
  }

  lemma PlanMeaning(plan: Plan)
    ensures ValidPlan(plan) <==> PlanIsValid(plan)
  {
    TotalIdsMeaning(plan.paragraphs);
    hide AllIds, TotalIds;
    if ValidPlan(plan) {
      forall x | x in plan.paragraphs
        ensures |x.claimIds| <= 4 && (x.kind == GENERIC ==> x.claimIds == []) && (x.kind == EVIDENCE ==> x.claimIds != [])
        ensures forall id :: id in x.claimIds ==> 1 <= |id| <= 100
      {
        var k :| 0 <= k < |plan.paragraphs| && plan.paragraphs[k] == x;
      }
    }
    if PlanIsValid(plan) {
      forall k | 0 <= k < |plan.paragraphs|
        ensures |plan.paragraphs[k].claimIds| <= 4
        ensures plan.paragraphs[k].kind == EVIDENCE <==> plan.paragraphs[k].claimIds != []
        ensures forall i :: 0 <= i < |plan.paragraphs[k].claimIds| ==> 1 <= |plan.paragraphs[k].claimIds[i]| <= 100
      {
        assert plan.paragraphs[k] in plan.paragraphs;
      }
    }
  }

  // ---------------------------------------------------------------- the letter

  ghost predicate IsKnown(entries: seq<Entry>, id: string) {
    exists k :: 0 <= k < |entries| && entries[k].claim.id == id
  }

  /** Every claim id of the plan is one of the entries'. */
  ghost predicate KnowsAll(paragraphs: seq<Paragraph>, entries: seq<Entry>) {
    forall x, id :: x in paragraphs && id in x.claimIds ==> IsKnown(entries, id)
  }

  /** No claim id stands at two places of the plan. */
  ghost predicate NoneTwice(paragraphs: seq<Paragraph>) {
    && (forall k, i, j :: 0 <= k < |paragraphs| && 0 <= i < j < |paragraphs[k].claimIds| ==>
          paragraphs[k].claimIds[i] != paragraphs[k].claimIds[j])
    && (forall k, l, id :: 0 <= k < l < |paragraphs| && id in paragraphs[k].claimIds ==> id !in paragraphs[l].claimIds)
  }

  ghost predicate UsesSkill(paragraphs: seq<Paragraph>, entries: seq<Entry>) {
    exists x, id, name :: x in paragraphs && id in x.claimIds && StandsFor(entries, id, SkillRecord(name))
  }

  ghost predicate OpensWith(plan: Plan, entries: seq<Entry>, title: string, company: string, opening: string) {
    if plan.opening == ROLE_INTEREST
    then opening == "mit großem Interesse habe ich Ihre Stellenanzeige für die Position \"" + title + "\" bei " + company
                    + " gelesen."
    else if UsesSkill(plan.paragraphs, entries)
    then opening == "Die ausgeschriebene Position \"" + title + "\" bei " + company
                    + " interessiert mich besonders" + ", da sie gut zu meinen Kenntnissen passt."
    else opening == "Die ausgeschriebene Position \"" + title + "\" bei " + company + " interessiert mich besonders" + "."
  }

  ghost predicate AreRecords(ids: seq<string>, entries: seq<Entry>, records: seq<Record>) {
    |records| == |ids| && forall k :: 0 <= k < |ids| ==> StandsFor(entries, ids[k], records[k])
  }

  /** A generic paragraph is the fixed sentence; any other says what its own claims stand for. */
  ghost predicate ParagraphSays(ph: Phrases, x: Paragraph, entries: seq<Entry>, focus: seq<string>, text: string) {
    if x.kind == GENERIC then text == "Gerne stelle ich mich Ihnen in einem persönlichen Gespräch vor."
    else exists records, sentences ::
      AreRecords(x.claimIds, entries, records) && SentencesAre(ph, records, focus, sentences)
      && text == Listed(sentences, " ", " ")
  }

  ghost predicate LetterSays(ph: Phrases, plan: Plan, entries: seq<Entry>, title: string, company: string,
                             description: string, letter: Letter)
  {
    && letter.subject == "Bewerbung als " + title
    && letter.salutation == "Sehr geehrte Damen und Herren,"
    && OpensWith(plan, entries, title, company, letter.opening)
    && |letter.body| == |plan.paragraphs|
    && (forall k :: 0 <= k < |letter.body| ==>
          && letter.body[k].sources == plan.paragraphs[k].claimIds
          && ParagraphSays(ph, plan.paragraphs[k], entries, ph.focus(title, description), letter.body[k].text))
    && letter.closing == (if plan.closing == INTERVIEW_INTEREST
                          then "Über die Möglichkeit eines persönlichen Gesprächs würde ich mich sehr freuen."
                          else "Für Rückfragen stehe ich Ihnen gerne zur Verfügung.")
  }

  /** The plan is refused unless it is valid, names only claims it was given, and none twice. */
  ghost predicate Answers(ph: Phrases, plan: Option<Plan>, entries: seq<Entry>, title: string, company: string,
                          description: string, letter: Option<Letter>)
  {
    && (letter.Some? <==>
          plan.Some? && PlanIsValid(plan.value) && KnowsAll(plan.value.paragraphs, entries)
          && NoneTwice(plan.value.paragraphs))
    && (letter.Some? && plan.Some? ==> LetterSays(ph, plan.value, entries, title, company, description, letter.value))
  }

  /** The entries of the draft, the packet made of them, and the answer to the plan the provider makes of it. */
  ghost predicate IsLetterFor(ph: Phrases, provider: Provider, d: Draft, m: Match, title: string, company: string,
                              description: string, letter: Option<Letter>)
  {
    exists entries, packet ::
      && EntriesAre(ph, d, title, description, entries)
      && PacketIs(d, m, title, company, description, entries, packet)
      && Answers(ph, provider(packet), entries, title, company, description, letter)
  }

  lemma {:induction false} IdsMeaning(paragraphs: seq<Paragraph>, id: string)
    ensures id in AllIds(paragraphs) <==> exists x :: x in paragraphs && id in x.claimIds
  {
    if paragraphs != [] {
      var n := |paragraphs| - 1;
      assert paragraphs == paragraphs[..n] + [paragraphs[n]];
      IdsMeaning(paragraphs[..n], id);
    }
  }

  lemma RepeatsOfConcat(a: seq<string>, b: seq<string>)
    ensures NoRepeats(a + b) <==> NoRepeats(a) && NoRepeats(b) && forall id :: id in a ==> id !in b
  {
    var c := a + b;
    assert forall i :: 0 <= i < |a| ==> c[i] == a[i];
    assert forall i :: 0 <= i < |b| ==> c[|a| + i] == b[i];
    if NoRepeats(c) {
      forall i, j | 0 <= i < j < |b| ensures b[i] != b[j] {
        assert c[|a| + i] != c[|a| + j];
      }
      forall i, j | 0 <= i < |a| && 0 <= j < |b| ensures a[i] != b[j] {
        assert c[i] != c[|a| + j];
      }
    }
    if NoRepeats(a) && NoRepeats(b) && forall id :: id in a ==> id !in b {
      forall i, j | 0 <= i < j < |c| ensures c[i] != c[j] {
        if i < |a| <= j {
          assert a[i] in a && b[j - |a|] in b;
        } else if i >= |a| {
          assert b[i - |a|] != b[j - |a|];
        }
      }
    }
  }

  lemma {:induction false} RepeatsMeaning(paragraphs: seq<Paragraph>)
    ensures NoRepeats(AllIds(paragraphs)) <==> NoneTwice(paragraphs)
  {
    if paragraphs != [] {
      var n := |paragraphs| - 1;
      var init, last := paragraphs[..n], paragraphs[n];
      RepeatsMeaning(init);
      RepeatsOfConcat(AllIds(init), last.claimIds);
      forall id ensures id in AllIds(init) <==> exists x :: x in init && id in x.claimIds {
        IdsMeaning(init, id);
      }
      hide AllIds;
      NoneTwiceEnd(paragraphs);
    }
  }

  lemma NoneTwiceEnd(paragraphs: seq<Paragraph>)
    requires paragraphs != []
    ensures var n := |paragraphs| - 1;
      NoneTwice(paragraphs) <==>
        && NoneTwice(paragraphs[..n]) && NoRepeats(paragraphs[n].claimIds)
        && forall x, id :: x in paragraphs[..n] && id in x.claimIds ==> id !in paragraphs[n].claimIds
  {
    var n := |paragraphs| - 1;
    assert forall k :: 0 <= k < n ==> paragraphs[..n][k] == paragraphs[k];
    if NoneTwice(paragraphs) {
      forall x, id | x in paragraphs[..n] && id in x.claimIds ensures id !in paragraphs[n].claimIds {
        var k :| 0 <= k < n && paragraphs[..n][k] == x;
        assert paragraphs[k] == x;
      }
    }
  }

  lemma KnownMeaning(entries: seq<Entry>, id: string)
    ensures id in Register(entries) <==> IsKnown(entries, id)
    ensures id in Register(entries) ==> StandsFor(entries, id, Register(entries)[id])
  {
    if id in Register(entries) {
      RegisterMeaning(entries, id, Register(entries)[id]);
    }
    hide Register;
    if k :| 0 <= k < |entries| && entries[k].claim.id == id {
      var last := LastEntry(entries, id, k);
      RegisterMeaning(entries, id, entries[last].record);
    }
  }

  lemma LastEntry(entries: seq<Entry>, id: string, k: nat) returns (last: nat)
    requires k < |entries| && entries[k].claim.id == id
    ensures last < |entries| && StandsFor(entries, id, entries[last].record)
    decreases |entries| - k
  {
    if j :| k < j < |entries| && entries[j].claim.id == id {
      last := LastEntry(entries, id, j);
    } else {
      last := k;
    }
  }

  lemma GoodIdsMeaning(paragraphs: seq<Paragraph>, entries: seq<Entry>)
    ensures GoodIds(AllIds(paragraphs), Register(entries)) <==> KnowsAll(paragraphs, entries) && NoneTwice(paragraphs)
  {
    RepeatsMeaning(paragraphs);
    var ids := AllIds(paragraphs);
    forall id
      ensures id in ids <==> exists x :: x in paragraphs && id in x.claimIds
      ensures id in Register(entries) <==> IsKnown(entries, id)
    {
      IdsMeaning(paragraphs, id);
      KnownMeaning(entries, id);
    }
    hide AllIds, Register, IsKnown, NoneTwice, NoRepeats;
    if forall k :: 0 <= k < |ids| ==> ids[k] in Register(entries) {
      forall x, id | x in paragraphs && id in x.claimIds ensures IsKnown(entries, id) {
        assert id in ids;
      }
    }
    if KnowsAll(paragraphs, entries) {
      forall k | 0 <= k < |ids| ensures ids[k] in Register(entries) {
        assert ids[k] in ids;
      }
    }
  }

  /** The records a paragraph resolves to are what its claims stand for. */
  lemma ResolvedMeaning(paragraphs: seq<Paragraph>, entries: seq<Entry>, k: nat)
    requires KnowsAll(paragraphs, entries) && k < |paragraphs|
    ensures AreRecords(paragraphs[k].claimIds, entries, ResolveAll(paragraphs, Register(entries))[k])
  {
    var ids := paragraphs[k].claimIds;
    forall i | 0 <= i < |ids|
      ensures ids[i] in Register(entries) && StandsFor(entries, ids[i], Register(entries)[ids[i]])
    {
      assert paragraphs[k] in paragraphs && ids[i] in ids;
      KnownMeaning(entries, ids[i]);
    }
    hide Register, StandsFor;
    assert ResolveAll(paragraphs, Register(entries))[k] == Records(Register(entries), ids);
  }

  ghost predicate SomeSkill(resolved: seq<seq<Record>>) {
    exists k, i :: 0 <= k < |resolved| && 0 <= i < |resolved[k]| && resolved[k][i].SkillRecord?
  }

  lemma StandsForOne(entries: seq<Entry>, id: string, a: Record, b: Record)
    requires StandsFor(entries, id, a) && StandsFor(entries, id, b)
    ensures a == b
  {
  }

  lemma UsesSkillMeaning(paragraphs: seq<Paragraph>, entries: seq<Entry>)
    requires KnowsAll(paragraphs, entries)
    ensures SomeSkill(ResolveAll(paragraphs, Register(entries))) <==> UsesSkill(paragraphs, entries)
  {
    var resolved := ResolveAll(paragraphs, Register(entries));
    forall k | 0 <= k < |paragraphs| ensures AreRecords(paragraphs[k].claimIds, entries, resolved[k]) {
      ResolvedMeaning(paragraphs, entries, k);
    }
    hide StandsFor, Register, ResolveAll, KnowsAll;
    if k, i :| 0 <= k < |resolved| && 0 <= i < |resolved[k]| && resolved[k][i].SkillRecord? {
      var x, id := paragraphs[k], paragraphs[k].claimIds[i];
      assert x in paragraphs && id in x.claimIds && StandsFor(entries, id, SkillRecord(resolved[k][i].name));
    }
    if x, id, name :| x in paragraphs && id in x.claimIds && StandsFor(entries, id, SkillRecord(name)) {
      var k :| 0 <= k < |paragraphs| && paragraphs[k] == x;
      var i :| 0 <= i < |x.claimIds| && x.claimIds[i] == id;
      StandsForOne(entries, id, resolved[k][i], SkillRecord(name));
      assert resolved[k][i].SkillRecord?;
    }
  }

  lemma OpeningMeaning(plan: Plan, entries: seq<Entry>, title: string, company: string, withSkills: bool)
    requires withSkills <==> UsesSkill(plan.paragraphs, entries)
    ensures OpensWith(plan, entries, title, company, Opening(plan.opening, withSkills, title, company))
  {
    hide UsesSkill;
  }

  lemma LetterIsWritten(ph: Phrases, plan: Plan, entries: seq<Entry>, title: string, company: string, description: string)
    requires KnowsAll(plan.paragraphs, entries)
    ensures LetterSays(ph, plan, entries, title, company, description,
                       Render(ph, plan, ResolveAll(plan.paragraphs, Register(entries)), title, company, description))
  {
    var resolved := ResolveAll(plan.paragraphs, Register(entries));
    var letter := Render(ph, plan, resolved, title, company, description);
    var focus := ph.focus(title, description);
    UsesSkillMeaning(plan.paragraphs, entries);
    OpeningMeaning(plan, entries, title, company, SomeSkill(resolved));
    hide OpensWith, Opening, UsesSkill, KnowsAll, Register, ResolveAll, Sentences, Join;
    forall k | 0 <= k < |plan.paragraphs|
      ensures ParagraphSays(ph, plan.paragraphs[k], entries, focus, letter.body[k].text)
    {
      if plan.paragraphs[k].kind != GENERIC {
        ResolvedMeaning(plan.paragraphs, entries, k);
        SentencesAreWritten(ph, resolved[k], focus);
        JoinMeaning(" ", Sentences(ph, resolved[k], focus));
        hide AreRecords, SentencesAre, Listed;
        assert AreRecords(plan.paragraphs[k].claimIds, entries, resolved[k]);
      }
    }
  }

  /** Every letter, or refusal, is the one described. */
  lemma LetterIsDescribed(ph: Phrases, provider: Provider, d: Draft, m: Match, title: string, company: string,
                          description: string)
    ensures IsLetterFor(ph, provider, d, m, title, company, description,
                        LetterFor(ph, provider, d, m, title, company, description))
  {
    var entries := Entries(ph, d, title, description);
    var packet := PacketFor(d, m, title, company, description, Map(ClaimOf, entries));
    var plan := provider(packet);
    EntriesMeaning(ph, d, title, description);
    PacketMeaning(d, m, title, company, description, entries);
    hide Entries, PacketFor, EntriesAre, PacketIs, LetterSays, Render, ResolveAll, GoodIds, ValidPlan, PlanIsValid, KnowsAll,
      NoneTwice, Register, AllIds;
    if plan.Some? {
      PlanMeaning(plan.value);
      GoodIdsMeaning(plan.value.paragraphs, entries);
      if KnowsAll(plan.value.paragraphs, entries) {
        LetterIsWritten(ph, plan.value, entries, title, company, description);
      }
    }
    assert Answers(ph, provider(packet), entries, title, company, description,
                   LetterFor(ph, provider, d, m, title, company, description));
  }
}
