/** `apply_rescore` of `scripts/offline_rescore_stage12.py`: one transaction
    that re-verifies a previewed rescore under locks and overwrites three
    columns per job, while other writers commit between its statements. */
module RescoreApply {
  import opened CandidateTrust
  import opened Ordering
  import opened Wrappers

  // ---------------------------------------------------------------- the database

  /** The three columns an offline rescore may write. */
  datatype Outcome = Outcome(score: int, recommendation: string, dataConfidence: real)

  /** A row of `jobs`. `untracked` stands for every column the script never reads. */
  datatype JobRow = JobRow(
    fingerprint: string, firstSeenAt: int, lastSeenAt: int, source: string, title: string, company: string,
    location: string, url: string, postingType: Option<string>, description: string, skillsJson: string,
    mustHaveSkillsJson: string, niceToHaveSkillsJson: string, skillSource: Option<string>,
    persisted: Outcome, untracked: string)

  datatype Skill = Skill(name: string, trust: Trust)

  datatype Profile = Profile(skills: seq<Skill>, targetRoles: seq<string>, employmentTypes: seq<string>)

  datatype Db = Db(name: string, jobs: map<int, JobRow>, runs: map<int, string>,
                   profiles: map<int, Profile>, elsewhere: string)

  /** A committed statement of another writer. The schema admits profile id 1 only. */
  datatype WriterOp =
    | InsertJob(id: int, row: JobRow)
    | UpdateJob(id: int, row: JobRow)
    | DeleteJob(id: int)
    | InsertRun(id: int, run: string)
    | DeleteRun(id: int)
    | InsertProfile(profile: Profile)
    | PatchProfile(profile: Profile)
    | DeleteProfile
    | WriteElsewhere(elsewhere: string)

  const SINGLETON := 1

  function Perform(s: Db, op: WriterOp): Db {
    match op
    case InsertJob(id, row) => if id in s.jobs then s else s.(jobs := s.jobs[id := row])
    case UpdateJob(id, row) => if id in s.jobs then s.(jobs := s.jobs[id := row]) else s
    case DeleteJob(id) => s.(jobs := s.jobs - {id})
    case InsertRun(id, run) => s.(runs := s.runs[id := run])
    case DeleteRun(id) => s.(runs := s.runs - {id})
    case InsertProfile(p) => if SINGLETON in s.profiles then s else s.(profiles := s.profiles[SINGLETON := p])
    case PatchProfile(p) => if SINGLETON in s.profiles then s.(profiles := s.profiles[SINGLETON := p]) else s
    case DeleteProfile => s.(profiles := s.profiles - {SINGLETON})
    case WriteElsewhere(text) => s.(elsewhere := text)
  }

  /** What the apply transaction holds. `population` is the SHARE ROW EXCLUSIVE
      lock on `jobs` and `automation_runs`; the others are row locks. */
  datatype Locks = Locks(population: bool, rows: set<int>, profile: bool)

  predicate Blocked(op: WriterOp, locks: Locks) {
    match op
    case InsertJob(_, _) => locks.population
    case UpdateJob(id, _) => locks.population || id in locks.rows
    case DeleteJob(id) => locks.population || id in locks.rows
    case InsertRun(_, _) => locks.population
    case DeleteRun(_) => locks.population
    case PatchProfile(_) => locks.profile
    case DeleteProfile => locks.profile
    case _ => false
  }

  /** What the locks keep still. */
  ghost predicate Frozen(before: Db, after: Db, locks: Locks) {
    && after.name == before.name
    && (locks.population ==> after.jobs == before.jobs && after.runs == before.runs)
    && (locks.profile && SINGLETON in before.profiles ==> after.profiles == before.profiles)
  }

  lemma UnblockedKeepsFrozen(first: Db, before: Db, op: WriterOp, locks: Locks)
    requires Frozen(first, before, locks) && !Blocked(op, locks)
    ensures Frozen(first, Perform(before, op), locks)
  {
  }

  // ---------------------------------------------------------------- what apply reads

  /** The scoring code outside the script, and `json.loads` of a stored list. */
  datatype Rules = Rules(
    loads: string -> seq<string>,
    seniority: seq<string> -> string,
    domain: seq<string> -> string,
    evaluate: (Context, Vacancy) -> Outcome)

  datatype Context = Context(skills: set<string>, seniority: string, domain: string, employmentTypes: set<string>)

  /** The fields `_job_from_record` hands to the evaluator. */
  datatype Vacancy = Vacancy(
    source: string, title: string, company: string, location: string, url: string, description: string,
    skills: seq<string>, mustHaveSkills: seq<string>, niceToHaveSkills: seq<string>,
    skillSource: Option<string>, postingType: Option<string>)

  function VacancyOf(rules: Rules, row: JobRow): Vacancy {
    Vacancy(row.source, row.title, row.company, row.location, row.url, row.description,
            rules.loads(row.skillsJson), rules.loads(row.mustHaveSkillsJson), rules.loads(row.niceToHaveSkillsJson),
            row.skillSource, row.postingType)
  }

  /** `JobSnapshot.input_snapshot`: the 17 values compared for drift. */
  datatype Snapshot = Snapshot(
    fingerprint: string, firstSeenAt: int, lastSeenAt: int, source: string, title: string, company: string,
    location: string, url: string, postingType: Option<string>, description: string, skills: seq<string>,
    mustHaveSkills: seq<string>, niceToHaveSkills: seq<string>, skillSource: Option<string>,
    score: int, recommendation: string, dataConfidence: real)

  function SnapshotOf(rules: Rules, row: JobRow): Snapshot {
    Snapshot(row.fingerprint, row.firstSeenAt, row.lastSeenAt, row.source, row.title, row.company,
             row.location, row.url, row.postingType, row.description, rules.loads(row.skillsJson),
             rules.loads(row.mustHaveSkillsJson), rules.loads(row.niceToHaveSkillsJson), row.skillSource,
             row.persisted.score, row.persisted.recommendation, row.persisted.dataConfidence)
  }

  datatype Failure =
    | StatementFailed
    | MissingProfile
    | ProfileIntegrity
    | ContextChanged
    | RowSetChanged
    | PilotMismatch
    | Drifted(id: int)
    | RecomputeMismatch(id: int)

  function LoadContext(rules: Rules, s: Db): Result<Context, Failure> {
    if |s.profiles| > 1 then Err(ProfileIntegrity)
    else if SINGLETON !in s.profiles then Err(MissingProfile)
    else
      var p := s.profiles[SINGLETON];
      Ok(Context(set skill | skill in p.skills && IsUsable(skill.trust) :: skill.name,
                 rules.seniority(p.targetRoles), rules.domain(p.targetRoles),
                 set e | e in p.employmentTypes))
  }

  const PILOT_DATABASE := "stage12_pilot_r2"
  const PILOT_JOB_COUNT := 222
  const PILOT_RUN_COUNT := 2
  const PILOT_PROFILE_COUNT := 1

  function Fingerprints(jobs: map<int, JobRow>): set<string> {
    set id | id in jobs :: jobs[id].fingerprint
  }

  /** `verify_pilot_identity`; SQLite has no database name to compare. */
  predicate IsPilot(postgresql: bool, s: Db) {
    && (postgresql ==> s.name == PILOT_DATABASE)
    && |s.jobs| == PILOT_JOB_COUNT
    && |Fingerprints(s.jobs)| == PILOT_JOB_COUNT
    && |s.profiles| == PILOT_PROFILE_COUNT
    && |s.runs| == PILOT_RUN_COUNT
  }

  // ---------------------------------------------------------------- what these readings mean

  /** The 17 values of the row are those of the snapshot. */
  predicate SeenAs(rules: Rules, row: JobRow, before: Snapshot) {
    && row.fingerprint == before.fingerprint
    && row.firstSeenAt == before.firstSeenAt && row.lastSeenAt == before.lastSeenAt
    && row.source == before.source && row.title == before.title && row.company == before.company
    && row.location == before.location && row.url == before.url
    && row.postingType == before.postingType && row.description == before.description
    && rules.loads(row.skillsJson) == before.skills
    && rules.loads(row.mustHaveSkillsJson) == before.mustHaveSkills
    && rules.loads(row.niceToHaveSkillsJson) == before.niceToHaveSkills
    && row.skillSource == before.skillSource
    && row.persisted == Outcome(before.score, before.recommendation, before.dataConfidence)
  }

  /** Two rows agree in these 17 values. */
  predicate SameValues(rules: Rules, a: JobRow, b: JobRow) {
    && a.fingerprint == b.fingerprint
    && a.firstSeenAt == b.firstSeenAt && a.lastSeenAt == b.lastSeenAt
    && a.source == b.source && a.title == b.title && a.company == b.company
    && a.location == b.location && a.url == b.url
    && a.postingType == b.postingType && a.description == b.description
    && rules.loads(a.skillsJson) == rules.loads(b.skillsJson)
    && rules.loads(a.mustHaveSkillsJson) == rules.loads(b.mustHaveSkillsJson)
    && rules.loads(a.niceToHaveSkillsJson) == rules.loads(b.niceToHaveSkillsJson)
    && a.skillSource == b.skillSource && a.persisted == b.persisted
  }

  /** The vacancy is the row's own, field by field. */
  predicate InputOf(rules: Rules, row: JobRow, v: Vacancy) {
    && v.source == row.source && v.title == row.title && v.company == row.company
    && v.location == row.location && v.url == row.url && v.description == row.description
    && v.skills == rules.loads(row.skillsJson)
    && v.mustHaveSkills == rules.loads(row.mustHaveSkillsJson)
    && v.niceToHaveSkills == rules.loads(row.niceToHaveSkillsJson)
    && v.skillSource == row.skillSource && v.postingType == row.postingType
  }

  /** The outcome is what the evaluator gives the row's own vacancy. */
  ghost predicate Evaluates(rules: Rules, context: Context, row: JobRow, outcome: Outcome) {
    exists v :: InputOf(rules, row, v) && rules.evaluate(context, v) == outcome
  }

  /** The context is that of the one profile there is: the names of its usable skills,
      and its preferences. */
  ghost predicate ContextIs(rules: Rules, s: Db, c: Context) {
    && s.profiles.Keys == {1}
    && var p := s.profiles[1];
    && (forall name :: name in c.skills <==>
          exists k :: 0 <= k < |p.skills| && p.skills[k].name == name && IsUsable(p.skills[k].trust))
    && c.seniority == rules.seniority(p.targetRoles) && c.domain == rules.domain(p.targetRoles)
    && (forall e :: e in c.employmentTypes <==> e in p.employmentTypes)
  }

  predicate DistinctFingerprints(jobs: map<int, JobRow>) {
    forall i, j :: i in jobs && j in jobs && i != j ==> jobs[i].fingerprint != jobs[j].fingerprint
  }

  /** Drift is a difference in one of the 17 values of the row. */
  lemma SnapshotMeaning(rules: Rules, row: JobRow, before: Snapshot)
    ensures SnapshotOf(rules, row) == before <==> SeenAs(rules, row, before)
  {
  }

  lemma DriftMeaning(rules: Rules, a: JobRow, b: JobRow)
    ensures SnapshotOf(rules, a) == SnapshotOf(rules, b) <==> SameValues(rules, a, b)
  {
  }

  lemma VacancyMeaning(rules: Rules, context: Context, row: JobRow, outcome: Outcome)
    ensures rules.evaluate(context, VacancyOf(rules, row)) == outcome <==> Evaluates(rules, context, row, outcome)
  {
    var own := VacancyOf(rules, row);
    assert InputOf(rules, row, own);
    if v :| InputOf(rules, row, v) && rules.evaluate(context, v) == outcome {
      assert v == own;
    }
  }

  lemma OneProfile(profiles: map<int, Profile>)
    ensures SINGLETON in profiles && |profiles| <= 1 <==> profiles.Keys == {1}
  {
    assert |profiles| == |profiles.Keys|;
    if SINGLETON in profiles && |profiles| <= 1 {
      SubsetOfSameSize({1}, profiles.Keys);
    }
  }

  /** The context is read exactly when there is one profile, and then it is that profile's. */
  lemma ContextMeaning(rules: Rules, s: Db, c: Context)
    ensures LoadContext(rules, s) == Ok(c) <==> ContextIs(rules, s, c)
    ensures LoadContext(rules, s) == Err(MissingProfile) <==> |s.profiles| <= 1 && 1 !in s.profiles
    ensures LoadContext(rules, s) == Err(ProfileIntegrity) <==> |s.profiles| > 1
  {
    OneProfile(s.profiles);
    if s.profiles.Keys == {1} {
      var p := s.profiles[1];
      var names := set skill | skill in p.skills && IsUsable(skill.trust) :: skill.name;
      forall name
        ensures name in names <==>
          exists k :: 0 <= k < |p.skills| && p.skills[k].name == name && IsUsable(p.skills[k].trust)
      {
        if name in names {
          var skill :| skill in p.skills && IsUsable(skill.trust) && skill.name == name;
          var k :| 0 <= k < |p.skills| && p.skills[k] == skill;
          assert p.skills[k].name == name;
        }
      }
      hide IsUsable;
      if ContextIs(rules, s, c) {
        assert c.skills == names && c.employmentTypes == set e | e in p.employmentTypes;
      }
    }
  }

  lemma {:induction false} FingerprintCount(jobs: map<int, JobRow>)
    ensures |Fingerprints(jobs)| <= |jobs|
    ensures |Fingerprints(jobs)| == |jobs| <==> DistinctFingerprints(jobs)
    decreases |jobs|
  {
    if id :| id in jobs {
      var rest, f := jobs - {id}, jobs[id].fingerprint;
      assert |rest| == |rest.Keys| && |jobs| == |jobs.Keys| && rest.Keys == jobs.Keys - {id};
      FingerprintCount(rest);
      OneMoreFingerprint(jobs, id);
      if f in Fingerprints(rest) {
        var other :| other in rest && rest[other].fingerprint == f;
        assert other in jobs && jobs[other].fingerprint == f;
      } else {
        forall i, j | i in jobs && j in jobs && i != j && DistinctFingerprints(rest)
          ensures jobs[i].fingerprint != jobs[j].fingerprint
        {
          assert forall k :: k in rest ==> rest[k].fingerprint in Fingerprints(rest);
          assert (i == id || i in rest) && (j == id || j in rest);
        }
      }
      if DistinctFingerprints(jobs) {
        assert forall k :: k in rest ==> k in jobs && rest[k] == jobs[k];
      }
    } else {
      forall id ensures id in jobs.Keys <==> id in {} {
        assert id !in jobs;
      }
      assert jobs.Keys == {} && |jobs| == |jobs.Keys|;
      assert Fingerprints(jobs) == {};
    }
  }

  lemma OneMoreFingerprint(jobs: map<int, JobRow>, id: int)
    requires id in jobs
    ensures Fingerprints(jobs) == Fingerprints(jobs - {id}) + {jobs[id].fingerprint}
  {
    var rest := jobs - {id};
    forall f ensures f in Fingerprints(jobs) <==> f in Fingerprints(rest) + {jobs[id].fingerprint} {
      if f in Fingerprints(jobs) {
        var k :| k in jobs && jobs[k].fingerprint == f;
        assert k == id || (k in rest && rest[k].fingerprint == f);
      }
      if f in Fingerprints(rest) {
        var k :| k in rest && rest[k].fingerprint == f;
        assert k in jobs && jobs[k].fingerprint == f;
      }
    }
  }

  /** The identity of the pilot, in numbers. */
  lemma PilotMeaning(postgresql: bool, s: Db)
    ensures IsPilot(postgresql, s) <==>
      && (postgresql ==> s.name == "stage12_pilot_r2")
      && |s.jobs| == 222 && DistinctFingerprints(s.jobs) && |s.profiles| == 1 && |s.runs| == 2
  {
    hide DistinctFingerprints;
    FingerprintCount(s.jobs);
  }

  // ---------------------------------------------------------------- the preview

  /** One `RescoreResult` of the preview: the row seen, and the score computed for it. */
  datatype Expected = Expected(before: Snapshot, after: Outcome)

  datatype Preview = Preview(context: Context, expected: map<int, Expected>)

  /** `preview_all_jobs`: it reads one state and writes nothing. */
  function PreviewAll(rules: Rules, s: Db): Result<Preview, Failure> {
    var context := LoadContext(rules, s);
    if context.Err? then Err(context.error)
    else Ok(Preview(context.value, map id | id in s.jobs ::
      Expected(SnapshotOf(rules, s.jobs[id]), rules.evaluate(context.value, VacancyOf(rules, s.jobs[id])))))
  }

  // ---------------------------------------------------------------- what apply does to the database

  function Rescored(jobs: map<int, JobRow>, scores: map<int, Outcome>): map<int, JobRow> {
    map id | id in jobs :: if id in scores then jobs[id].(persisted := scores[id]) else jobs[id]
  }

  function WriteScores(s: Db, scores: map<int, Outcome>): Db {
    s.(jobs := Rescored(s.jobs, scores))
  }

  function Scores(preview: Preview): map<int, Outcome> {
    map id | id in preview.expected :: preview.expected[id].after
  }

  datatype Event = Foreign(op: WriterOp) | Rescore(preview: Preview)

  function After(s: Db, event: Event): Db {
    match event
    case Foreign(op) => Perform(s, op)
    case Rescore(preview) => WriteScores(s, Scores(preview))
  }

  function Replay(s: Db, history: seq<Event>): Db {
    if history == [] then s else After(Replay(s, history[..|history| - 1]), history[|history| - 1])
  }

  predicate OnlyForeign(events: seq<Event>) {
    forall k :: 0 <= k < |events| ==> events[k].Foreign?
  }

  /** The state still is what the preview saw, in every respect apply relies on. */
  ghost predicate Ready(rules: Rules, postgresql: bool, s: Db, preview: Preview) {
    && ContextIs(rules, s, preview.context)
    && preview.expected.Keys <= s.jobs.Keys
    && IsPilot(postgresql, s)
    && forall id :: id in preview.expected ==> RowReady(rules, s, preview, id)
  }

  ghost predicate RowReady(rules: Rules, s: Db, preview: Preview, id: int)
    requires id in preview.expected
  {
    && id in s.jobs
    && SeenAs(rules, s.jobs[id], preview.expected[id].before)
    && Evaluates(rules, preview.context, s.jobs[id], preview.expected[id].after)
  }

  /** Everything else is as previewed, and this is the first row that is not. */
  ghost predicate FirstBad(rules: Rules, s: Db, preview: Preview, id: int) {
    && ContextIs(rules, s, preview.context) && preview.expected.Keys <= s.jobs.Keys && IsPilot(true, s)
    && id in preview.expected && !RowReady(rules, s, preview, id)
    && forall other :: other in preview.expected && other < id ==> RowReady(rules, s, preview, other)
  }

  /** The state is what the refusal says: context, row set, pilot and rows in this order. */
  ghost predicate Explains(rules: Rules, s: Db, preview: Preview, failure: Failure) {
    match failure
    case StatementFailed => false
    case MissingProfile => |s.profiles| <= 1 && 1 !in s.profiles
    case ProfileIntegrity => |s.profiles| > 1
    case ContextChanged => s.profiles.Keys == {1} && !ContextIs(rules, s, preview.context)
    case RowSetChanged => ContextIs(rules, s, preview.context) && !(preview.expected.Keys <= s.jobs.Keys)
    case PilotMismatch =>
      ContextIs(rules, s, preview.context) && preview.expected.Keys <= s.jobs.Keys && !IsPilot(true, s)
    case Drifted(id) => FirstBad(rules, s, preview, id) && !SeenAs(rules, s.jobs[id], preview.expected[id].before)
    case RecomputeMismatch(id) =>
      && FirstBad(rules, s, preview, id) && SeenAs(rules, s.jobs[id], preview.expected[id].before)
      && !Evaluates(rules, preview.context, s.jobs[id], preview.expected[id].after)
  }

  /** The same, as apply reads it. */
  lemma RowRead(rules: Rules, s: Db, preview: Preview, id: int)
    requires id in preview.expected
    ensures RowReady(rules, s, preview, id) <==>
      && id in s.jobs
      && SnapshotOf(rules, s.jobs[id]) == preview.expected[id].before
      && rules.evaluate(preview.context, VacancyOf(rules, s.jobs[id])) == preview.expected[id].after
  {
    if id in s.jobs {
      SnapshotMeaning(rules, s.jobs[id], preview.expected[id].before);
      VacancyMeaning(rules, preview.context, s.jobs[id], preview.expected[id].after);
    }
  }

  /** The preview holds, of every row there is and of nothing else, the 17 values it
      saw and the evaluation of the row under the context of the profile. */
  lemma PreviewMeaning(rules: Rules, s: Db, preview: Preview)
    ensures PreviewAll(rules, s) == Ok(preview) <==>
      && ContextIs(rules, s, preview.context) && preview.expected.Keys == s.jobs.Keys
      && forall id :: id in preview.expected ==> RowReady(rules, s, preview, id)
  {
    hide LoadContext, SnapshotOf, VacancyOf, ContextIs, RowReady;
    ContextMeaning(rules, s, preview.context);
    forall id | id in preview.expected
      ensures RowReady(rules, s, preview, id) <==>
        && id in s.jobs
        && SnapshotOf(rules, s.jobs[id]) == preview.expected[id].before
        && rules.evaluate(preview.context, VacancyOf(rules, s.jobs[id])) == preview.expected[id].after
    {
      RowRead(rules, s, preview, id);
    }
    if ContextIs(rules, s, preview.context) {
      var made := PreviewAll(rules, s).value;
      if preview.expected.Keys == s.jobs.Keys && forall id :: id in preview.expected ==> RowReady(rules, s, preview, id) {
        SameRows(made.expected, preview.expected);
      }
    }
  }

  /** The rows `SELECT ... WHERE id IN (...)` finds, in the order of `ids`. */
  function Found(ids: seq<int>, jobs: map<int, JobRow>): seq<int> {
    if ids == [] then []
    else Found(ids[..|ids| - 1], jobs) + (if ids[|ids| - 1] in jobs then [ids[|ids| - 1]] else [])
  }

  lemma {:induction false} FoundFacts(ids: seq<int>, jobs: map<int, JobRow>)
    ensures |Found(ids, jobs)| <= |ids|
    ensures |Found(ids, jobs)| == |ids| <==> Elements(ids) <= jobs.Keys
    ensures |Found(ids, jobs)| == |ids| ==> Found(ids, jobs) == ids
  {
    if ids != [] {
      FoundFacts(ids[..|ids| - 1], jobs);
      SplitElements(ids, |ids| - 1, |ids|);
      assert ids == ids[..|ids| - 1] + [ids[|ids| - 1]] == ids[..|ids|];
    }
  }

  lemma {:induction false} RescoredKeys(jobs: map<int, JobRow>, scores: map<int, Outcome>)
    ensures Rescored(jobs, scores).Keys == jobs.Keys
    ensures |Rescored(jobs, scores)| == |jobs|
    ensures Fingerprints(Rescored(jobs, scores)) == Fingerprints(jobs)
  {
    var after := Rescored(jobs, scores);
    assert after.Keys == jobs.Keys;
    KeyCount(after);
    KeyCount(jobs);
    assert forall id :: id in jobs ==> after[id].fingerprint == jobs[id].fingerprint;
    assert forall f :: f in Fingerprints(jobs) ==> f in Fingerprints(after);
  }

  lemma KeyCount(jobs: map<int, JobRow>)
    ensures |jobs.Keys| == |jobs|
  {
  }

  lemma OwnWorkKeepsPilot(postgresql: bool, s: Db, scores: map<int, Outcome>)
    ensures IsPilot(postgresql, WriteScores(s, scores)) == IsPilot(postgresql, s)
  {
    RescoredKeys(s.jobs, scores);
  }

  lemma FrozenKeepsReady(rules: Rules, before: Db, after: Db, preview: Preview)
    requires Frozen(before, after, Locks(true, {}, true)) && SINGLETON in before.profiles
    ensures Ready(rules, true, before, preview) == Ready(rules, true, after, preview)
  {
  }

  // ---------------------------------------------------------------- what a commit means

  /** After a commit every previewed row holds the evaluation of its own present
      inputs under the present context; nothing else differs from before. */
  lemma CommitMeaning(rules: Rules, postgresql: bool, s: Db, preview: Preview)
    requires Ready(rules, postgresql, s, preview)
    ensures var t := WriteScores(s, Scores(preview));
      && t.name == s.name && t.runs == s.runs && t.profiles == s.profiles && t.elsewhere == s.elsewhere
      && t.jobs.Keys == s.jobs.Keys && IsPilot(postgresql, t)
      && ContextIs(rules, t, preview.context)
      && (forall id :: id in t.jobs && id !in preview.expected ==> t.jobs[id] == s.jobs[id])
      && (forall id :: id in preview.expected ==>
            && t.jobs[id] == s.jobs[id].(persisted := preview.expected[id].after)
            && Evaluates(rules, preview.context, t.jobs[id], t.jobs[id].persisted))
  {
    hide IsPilot, ContextIs;
    OwnWorkKeepsPilot(postgresql, s, Scores(preview));
    RescoredKeys(s.jobs, Scores(preview));
    SameContext(rules, s, WriteScores(s, Scores(preview)), preview.context);
    forall id | id in preview.expected
      ensures var row := WriteScores(s, Scores(preview)).jobs[id];
        Evaluates(rules, preview.context, row, row.persisted)
    {
      assert RowReady(rules, s, preview, id);
      var v :| InputOf(rules, s.jobs[id], v) && rules.evaluate(preview.context, v) == preview.expected[id].after;
      assert InputOf(rules, WriteScores(s, Scores(preview)).jobs[id], v);
    }
  }

  lemma SameContext(rules: Rules, before: Db, after: Db, c: Context)
    requires before.profiles == after.profiles
    ensures ContextIs(rules, before, c) == ContextIs(rules, after, c)
  {
  }

  lemma SubsetOfSameSize(part: set<int>, whole: set<int>)
    requires part <= whole && |part| == |whole|
    ensures part == whole
  {
    assert |whole - part| == 0 by { assert whole == part + (whole - part); }
  }

  /** A preview of exactly the pilot's number of jobs commits on exactly those jobs. */
  lemma ApprovedPopulation(rules: Rules, postgresql: bool, s: Db, preview: Preview)
    requires Ready(rules, postgresql, s, preview) && |preview.expected| == PILOT_JOB_COUNT
    ensures WriteScores(s, Scores(preview)).jobs.Keys == preview.expected.Keys
  {
    RescoredKeys(s.jobs, Scores(preview));
    assert |s.jobs.Keys| == |s.jobs| && |preview.expected.Keys| == |preview.expected|;
    SubsetOfSameSize(preview.expected.Keys, s.jobs.Keys);
  }

  /** Without drift the recomputation cannot disagree: apply commits exactly when
      the context and every previewed row's 17 values are as the preview saw them. */
  lemma ReadyIffUndrifted(rules: Rules, postgresql: bool, seen: Db, now: Db, preview: Preview)
    requires PreviewAll(rules, seen) == Ok(preview)
    ensures Ready(rules, postgresql, now, preview) <==>
      && ContextIs(rules, now, preview.context) && IsPilot(postgresql, now)
      && (forall id :: id in seen.jobs ==> id in now.jobs && SameValues(rules, now.jobs[id], seen.jobs[id]))
  {
    hide ContextIs, IsPilot, PreviewAll, SameValues, SeenAs, Evaluates;
    PreviewMeaning(rules, seen, preview);
    forall id | id in seen.jobs
      ensures id in now.jobs ==> (RowReady(rules, now, preview, id) <==> SameValues(rules, now.jobs[id], seen.jobs[id]))
    {
      assert RowReady(rules, seen, preview, id);
      if id in now.jobs {
        SameInputs(rules, preview.context, now.jobs[id], seen.jobs[id], preview.expected[id]);
      }
    }
    hide RowReady;
    if Ready(rules, postgresql, now, preview) {
      forall id | id in seen.jobs ensures id in now.jobs && SameValues(rules, now.jobs[id], seen.jobs[id]) {
        assert id in preview.expected && RowReady(rules, now, preview, id);
      }
    }
    if forall id :: id in seen.jobs ==> id in now.jobs && SameValues(rules, now.jobs[id], seen.jobs[id]) {
      forall id | id in preview.expected ensures id in now.jobs && RowReady(rules, now, preview, id) {
        assert id in seen.jobs;
      }
    }
  }

  lemma SameInputs(rules: Rules, context: Context, now: JobRow, seen: JobRow, expected: Expected)
    requires SeenAs(rules, seen, expected.before) && Evaluates(rules, context, seen, expected.after)
    ensures SeenAs(rules, now, expected.before) && Evaluates(rules, context, now, expected.after)
      <==> SameValues(rules, now, seen)
  {
    var v :| InputOf(rules, seen, v) && rules.evaluate(context, v) == expected.after;
    if SameValues(rules, now, seen) {
      assert InputOf(rules, now, v);
    }
  }

  /** Nobody interfering, the preview of the pilot is ready to be applied to it. */
  lemma PreviewIsReady(rules: Rules, postgresql: bool, s: Db, preview: Preview)
    requires PreviewAll(rules, s) == Ok(preview) && IsPilot(postgresql, s)
    ensures Ready(rules, postgresql, s, preview) && |preview.expected| == PILOT_JOB_COUNT
  {
    PreviewMeaning(rules, s, preview);
    hide ContextIs, RowReady;
    assert preview.expected.Keys == s.jobs.Keys;
    assert |preview.expected| == |preview.expected.Keys| && |s.jobs| == |s.jobs.Keys|;
  }

  // ---------------------------------------------------------------- histories

  function UnscoredRow(row: JobRow): JobRow {
    row.(persisted := Outcome(0, "", 0.0))
  }

  /** The database without the three score columns. */
  function Unscored(s: Db): Db {
    s.(jobs := map id | id in s.jobs :: UnscoredRow(s.jobs[id]))
  }

  function UnscoredOp(op: WriterOp): WriterOp {
    match op
    case InsertJob(id, row) => InsertJob(id, UnscoredRow(row))
    case UpdateJob(id, row) => UpdateJob(id, UnscoredRow(row))
    case _ => op
  }

  function Writers(history: seq<Event>): seq<Event> {
    if history == [] then []
    else
      var last := history[|history| - 1];
      Writers(history[..|history| - 1]) + (if last.Foreign? then [last] else [])
  }

  lemma PerformUnscored(s: Db, op: WriterOp)
    ensures Unscored(Perform(s, op)) == Perform(Unscored(s), UnscoredOp(op))
  {
    hide UnscoredRow;
    var left, right := Unscored(Perform(s, op)), Perform(Unscored(s), UnscoredOp(op));
    assert left.jobs == right.jobs;
  }

  lemma SameRows<V>(a: map<int, V>, b: map<int, V>)
    requires a.Keys == b.Keys && forall id :: id in a ==> a[id] == b[id]
    ensures a == b
  {
    assert forall id :: id in a.Keys ==> a[id] == b[id];
  }

  lemma WriteUnscored(s: Db, scores: map<int, Outcome>)
    ensures Unscored(WriteScores(s, scores)) == Unscored(s)
  {
    var left, right := Unscored(WriteScores(s, scores)), Unscored(s);
    SameRows(left.jobs, right.jobs);
  }

  /** In every history, all rescores removed, the same rows and the same values
      outside the three score columns are there. */
  lemma {:induction false} OnlyScoresChange(s: Db, history: seq<Event>)
    ensures Unscored(Replay(s, history)) == Unscored(Replay(s, Writers(history)))
  {
    if history != [] {
      hide Unscored, Perform, WriteScores, Scores, UnscoredOp;
      var shorter, last := history[..|history| - 1], history[|history| - 1];
      OnlyScoresChange(s, shorter);
      if last.Foreign? {
        Appended(s, Writers(shorter), last);
        PerformUnscored(Replay(s, shorter), last.op);
        PerformUnscored(Replay(s, Writers(shorter)), last.op);
      } else {
        assert Writers(history) == Writers(shorter);
        WriteUnscored(Replay(s, shorter), Scores(last.preview));
      }
    }
  }

  /** Every previewed row that exists carries the scores of the preview. */
  ghost predicate Applied(s: Db, preview: Preview) {
    forall id :: id in s.jobs && id in preview.expected ==> s.jobs[id].persisted == preview.expected[id].after
  }

  /** The event gives a previewed row other scores than the preview: a writer stores
      the row with them, or another preview is committed. */
  predicate TakesBack(event: Event, preview: Preview, id: int) {
    id in preview.expected &&
    match event
    case Foreign(InsertJob(written, row)) => written == id && row.persisted != preview.expected[id].after
    case Foreign(UpdateJob(written, row)) => written == id && row.persisted != preview.expected[id].after
    case Foreign(_) => false
    case Rescore(other) => id in other.expected && other.expected[id].after != preview.expected[id].after
  }

  /** The row, if it exists, carries the scores of the preview. */
  predicate Stores(s: Db, preview: Preview, id: int) {
    id in s.jobs && id in preview.expected ==> s.jobs[id].persisted == preview.expected[id].after
  }

  lemma {:induction false} StoredUntilTakenBack(s: Db, history: seq<Event>, preview: Preview, id: int)
    requires Stores(s, preview, id) && !Stores(Replay(s, history), preview, id)
    ensures exists k :: 0 <= k < |history| && TakesBack(history[k], preview, id)
  {
    var n := |history| - 1;
    if !Stores(Replay(s, history[..n]), preview, id) {
      StoredUntilTakenBack(s, history[..n], preview, id);
      var k :| 0 <= k < n && TakesBack(history[..n][k], preview, id);
      assert history[k] == history[..n][k];
    } else {
      assert TakesBack(history[n], preview, id);
    }
  }

  /** The same preview written again, after whatever other writers and previews did:
      nothing changes exactly when every previewed row still carries its scores, and
      each row that does not was taken back in between. */
  lemma NeverTwice(s: Db, first: seq<Event>, between: seq<Event>, preview: Preview)
    ensures var before := Replay(Replay(s, first + [Rescore(preview)]), between);
      && (WriteScores(before, Scores(preview)) == before <==> Applied(before, preview))
      && (Applied(before, preview) || exists id, k :: 0 <= k < |between| && TakesBack(between[k], preview, id))
  {
    hide Replay, WriteScores, Scores, TakesBack;
    var applied := Replay(s, first + [Rescore(preview)]);
    var before := Replay(applied, between);
    Appended(s, first, Rescore(preview));
    WrittenIsApplied(Replay(s, first), preview);
    AppliedIsFixed(before, preview);
    if !Applied(before, preview) {
      var id :| id in before.jobs && id in preview.expected && before.jobs[id].persisted != preview.expected[id].after;
      assert Stores(applied, preview, id) && !Stores(before, preview, id);
      StoredUntilTakenBack(applied, between, preview, id);
    }
  }

  lemma WrittenIsApplied(s: Db, preview: Preview)
    ensures Applied(WriteScores(s, Scores(preview)), preview)
  {
  }

  lemma WrittenStores(s: Db, preview: Preview, id: int)
    ensures Stores(WriteScores(s, Scores(preview)), preview, id)
  {
  }

  lemma AppliedIsFixed(s: Db, preview: Preview)
    ensures WriteScores(s, Scores(preview)) == s <==> Applied(s, preview)
  {
    var t := WriteScores(s, Scores(preview));
    if t == s {
      forall id | id in s.jobs && id in preview.expected ensures s.jobs[id].persisted == preview.expected[id].after {
        assert t.jobs[id].persisted == preview.expected[id].after;
      }
    } else if Applied(s, preview) {
      SameRows(t.jobs, s.jobs);
    }
  }

  /** Directly after its own commit a preview could be applied again only if it
      had changed nothing. */
  lemma AgainOnlyIfUnchanged(rules: Rules, postgresql: bool, s: Db, preview: Preview)
    requires Ready(rules, postgresql, s, preview)
    ensures var t := WriteScores(s, Scores(preview));
      Ready(rules, postgresql, t, preview) <==> t == s
  {
    hide IsPilot, LoadContext, VacancyOf;
    var t := WriteScores(s, Scores(preview));
    CommitMeaning(rules, postgresql, s, preview);
    if Ready(rules, postgresql, t, preview) {
      forall id | id in preview.expected ensures t.jobs[id] == s.jobs[id] {
        assert RowReady(rules, s, preview, id) && RowReady(rules, t, preview, id);
        SameScores(rules, s.jobs[id], preview.expected[id].after);
      }
      assert t.jobs == s.jobs;
    }
  }

  lemma SameScores(rules: Rules, row: JobRow, after: Outcome)
    requires SnapshotOf(rules, row.(persisted := after)) == SnapshotOf(rules, row)
    ensures row.(persisted := after) == row
  {
  }

  function Since(before: seq<Event>, now: seq<Event>): seq<Event>
    requires before <= now
  {
    now[|before|..]
  }

  lemma Appended(s: Db, history: seq<Event>, event: Event)
    ensures Replay(s, history + [event]) == After(Replay(s, history), event)
    ensures (history + [event])[..|history|] == history
  {
    assert (history + [event])[..|history|] == history;
  }

  lemma {:induction false} ReplayConcat(s: Db, a: seq<Event>, b: seq<Event>)
    ensures Replay(s, a + b) == Replay(Replay(s, a), b)
  {
    if b == [] {
      assert a + b == a;
    } else {
      assert (a + b)[..|a + b| - 1] == a + b[..|b| - 1];
      ReplayConcat(s, a, b[..|b| - 1]);
    }
  }

  /** The rescore commits once, as the last thing that happens. */
  ghost predicate CommitsLast(events: seq<Event>, preview: Preview) {
    |events| > 0 && events[|events| - 1] == Rescore(preview) && OnlyForeign(events[..|events| - 1])
  }

  lemma CommitIsLast(start: seq<Event>, history: seq<Event>, preview: Preview)
    requires start <= history && OnlyForeign(Since(start, history))
    ensures CommitsLast(Since(start, history + [Rescore(preview)]), preview)
  {
    hide OnlyForeign;
    var events := Since(start, history + [Rescore(preview)]);
    assert events == Since(start, history) + [Rescore(preview)];
    assert events[..|events| - 1] == Since(start, history);
  }

  ghost function BeforeCommit(origin: Db, history: seq<Event>): Db
    requires history != []
  {
    Replay(origin, history[..|history| - 1])
  }

  /** The scores a row had when the preview read it. */
  function Previous(before: Snapshot): Outcome {
    Outcome(before.score, before.recommendation, before.dataConfidence)
  }

  /** The preview changes the scores of this row. */
  predicate Rescores(preview: Preview, id: int) {
    id in preview.expected && Previous(preview.expected[id].before) != preview.expected[id].after
  }

  /** A row that is as the preview saw it still has its previous scores. */
  lemma ReadyRowsAreOld(rules: Rules, postgresql: bool, s: Db, preview: Preview)
    requires Ready(rules, postgresql, s, preview)
    ensures forall id :: id in preview.expected ==>
      id in s.jobs && s.jobs[id].persisted == Previous(preview.expected[id].before)
    ensures Applied(s, preview) <==> forall id :: !Rescores(preview, id)
  {
    hide LoadContext, IsPilot, VacancyOf;
    forall id | id in preview.expected
      ensures id in s.jobs && s.jobs[id].persisted == Previous(preview.expected[id].before)
    {
      assert RowReady(rules, s, preview, id);
    }
    if !Applied(s, preview) {
      var id :| id in s.jobs && id in preview.expected && s.jobs[id].persisted != preview.expected[id].after;
      assert Rescores(preview, id);
    }
  }

  /** A later commit of a preview that was committed before changes the database
      exactly when some previewed row no longer stores its scores, which is when the
      preview rescores some row at all; each such row was then taken back since the
      first commit, to the scores the preview saw. */
  lemma SecondCommit(rules: Rules, postgresql: bool, origin: Db, history: seq<Event>, m: nat, preview: Preview)
    requires m < |history| - 1 && history[m] == Rescore(preview) && history[|history| - 1] == Rescore(preview)
    requires Ready(rules, postgresql, BeforeCommit(origin, history), preview)
    ensures Replay(origin, history) == BeforeCommit(origin, history) <==> Applied(BeforeCommit(origin, history), preview)
    ensures Replay(origin, history) != BeforeCommit(origin, history) <==> exists id :: Rescores(preview, id)
    ensures forall id :: Rescores(preview, id) ==>
      && id in BeforeCommit(origin, history).jobs
      && BeforeCommit(origin, history).jobs[id].persisted == Previous(preview.expected[id].before)
      && exists k :: m < k < |history| - 1 && TakesBack(history[k], preview, id)
  {
    hide Ready, Replay, WriteScores, Scores, TakesBack, Applied;
    var n := |history| - 1;
    var before := BeforeCommit(origin, history);
    assert history == history[..n] + [Rescore(preview)];
    Appended(origin, history[..n], Rescore(preview));
    AppliedIsFixed(before, preview);
    ReadyRowsAreOld(rules, postgresql, before, preview);
    forall id | Rescores(preview, id) ensures exists k :: m < k < n && TakesBack(history[k], preview, id) {
      var between := history[m + 1..n];
      assert history[..n] == history[..m] + [Rescore(preview)] + between;
      Appended(origin, history[..m], Rescore(preview));
      ReplayConcat(origin, history[..m] + [Rescore(preview)], between);
      WrittenStores(Replay(origin, history[..m]), preview, id);
      var applied := Replay(origin, history[..m] + [Rescore(preview)]);
      assert Stores(applied, preview, id) && !Stores(before, preview, id);
      StoredUntilTakenBack(applied, between, preview, id);
      var k :| 0 <= k < |between| && TakesBack(between[k], preview, id);
      assert history[m + 1 + k] == between[k];
    }
  }

  /** When a preview rescores one row only, a writer who puts the old row back undoes it. */
  lemma PuttingBackUndoes(s: Db, preview: Preview, id: int)
    requires id in s.jobs
    requires forall other :: other != id ==> Stores(s, preview, other)
    ensures Replay(s, [Rescore(preview), Foreign(UpdateJob(id, s.jobs[id]))]) == s
  {
    var restore := Foreign(UpdateJob(id, s.jobs[id]));
    var written := WriteScores(s, Scores(preview));
    Appended(s, [], Rescore(preview));
    Appended(s, [Rescore(preview)], restore);
    assert [] + [Rescore(preview)] == [Rescore(preview)] && [Rescore(preview)] + [restore] == [Rescore(preview), restore];
    forall other | other in s.jobs && other != id ensures written.jobs[other] == s.jobs[other] {
      assert Stores(s, preview, other);
    }
    SameRows(written.jobs[id := s.jobs[id]], s.jobs);
  }

  lemma LoadedProfile(rules: Rules, s: Db)
    requires LoadContext(rules, s).Ok?
    ensures SINGLETON in s.profiles
  {
  }

  lemma InElements(ids: seq<int>, k: nat)
    requires k < |ids|
    ensures ids[k] in Elements(ids)
  {
  }

  /** What other writers commit before one statement, and whether the statement
      fails (a lock not granted in time, a lost connection). */
  datatype Turn = Turn(ops: seq<WriterOp>, fault: bool)

  ghost predicate NoFaults(env: (nat, nat) -> Turn) {
    forall k, i :: !env(k, i).fault
  }

  lemma LoadFails(rules: Rules, s: Db, preview: Preview)
    requires LoadContext(rules, s).Err?
    ensures LoadContext(rules, s).error != StatementFailed
    ensures Explains(rules, s, preview, LoadContext(rules, s).error) && !ContextIs(rules, s, preview.context)
  {
    ContextMeaning(rules, s, preview.context);
  }

  lemma LoadDiffers(rules: Rules, s: Db, preview: Preview)
    requires LoadContext(rules, s).Ok?
    ensures LoadContext(rules, s).value == preview.context <==> ContextIs(rules, s, preview.context)
    ensures LoadContext(rules, s).value != preview.context ==> Explains(rules, s, preview, ContextChanged)
  {
    ContextMeaning(rules, s, preview.context);
    ContextMeaning(rules, s, LoadContext(rules, s).value);
  }

  lemma SmallerDone(rows: seq<int>, k: nat)
    requires Ascending(rows) && k < |rows|
    ensures forall id :: id in Elements(rows) && id < rows[k] ==> id in Elements(rows[..k])
  {
    forall id | id in Elements(rows) && id < rows[k] ensures id in Elements(rows[..k]) {
      var i :| 0 <= i < |rows| && rows[i] == id;
      assert i < k;
      assert rows[..k][i] == id;
    }
  }

  /** The check that fails first says what is wrong with the row. */
  lemma RowFails(rules: Rules, s: Db, preview: Preview, id: int)
    requires ContextIs(rules, s, preview.context) && preview.expected.Keys <= s.jobs.Keys && IsPilot(true, s)
    requires id in preview.expected
    requires forall other :: other in preview.expected && other < id ==> RowReady(rules, s, preview, other)
    ensures SnapshotOf(rules, s.jobs[id]) != preview.expected[id].before ==>
      Explains(rules, s, preview, Drifted(id)) && !RowReady(rules, s, preview, id)
    ensures (SnapshotOf(rules, s.jobs[id]) == preview.expected[id].before
             && rules.evaluate(preview.context, VacancyOf(rules, s.jobs[id])) != preview.expected[id].after) ==>
      Explains(rules, s, preview, RecomputeMismatch(id)) && !RowReady(rules, s, preview, id)
  {
    SnapshotMeaning(rules, s.jobs[id], preview.expected[id].before);
    VacancyMeaning(rules, preview.context, s.jobs[id], preview.expected[id].after);
    hide SeenAs, Evaluates, SnapshotOf, VacancyOf, ContextIs, IsPilot;
  }

  class Database {
    const rules: Rules
    const postgresql: bool
    ghost const origin: Db
    var state: Db
    ghost var history: seq<Event>

    ghost predicate Valid() reads this {
      state == Replay(origin, history)
    }

    constructor (rules: Rules, postgresql: bool, initial: Db)
      ensures Valid() && state == initial && history == []
      ensures this.rules == rules && this.postgresql == postgresql && origin == initial
    {
      this.rules, this.postgresql, this.origin, this.state, this.history := rules, postgresql, initial, initial, [];
    }

    /** The apply transaction is open: since `start` only others committed, and
        since `mark`, when the state was `seen`, the locks kept still what they protect. */
    ghost predicate Open(start: seq<Event>, mark: seq<Event>, seen: Db, locks: Locks)
      reads this
    {
      && Valid() && start <= mark <= history && OnlyForeign(Since(start, history))
      && seen == Replay(origin, mark) && Frozen(seen, state, locks)
    }

    lemma Reopened(start: seq<Event>, mark: seq<Event>, seen: Db, locks: Locks, more: Locks)
      requires Open(start, mark, seen, locks)
      ensures Open(start, history, state, more)
    {
    }

    /** Leaving the transaction now rolls it back: nothing of it remains. */
    lemma RolledBack(start: seq<Event>, mark: seq<Event>, seen: Db, locks: Locks)
      requires Open(start, mark, seen, locks)
      ensures Valid() && start <= history && OnlyForeign(Since(start, history))
      ensures |mark| <= |history| && Replay(origin, history[..|mark|]) == seen
    {
      assert history[..|mark|] == mark;
    }

    lemma Locked(start: seq<Event>, mark: seq<Event>, seen: Db, locks: Locks, rows: set<int>, preview: Preview)
      requires Open(start, mark, seen, locks)
      ensures Open(start, mark, seen, locks.(rows := rows))
      ensures locks.population && locks.profile && SINGLETON in seen.profiles ==>
        && state.jobs == seen.jobs && IsPilot(postgresql, state) == IsPilot(postgresql, seen)
        && LoadContext(rules, state) == LoadContext(rules, seen)
        && Ready(rules, true, state, preview) == Ready(rules, true, seen, preview)
    {
      if locks.population && locks.profile && SINGLETON in seen.profiles {
        FrozenKeepsReady(rules, seen, state, preview);
      }
    }

    /** Other writers commit; those that conflict with the locks wait. */
    method Others(ops: seq<WriterOp>, locks: Locks, ghost start: seq<Event>, ghost mark: seq<Event>, ghost seen: Db)
      requires Open(start, mark, seen, locks)
      modifies this
      ensures Open(start, mark, seen, locks)
    {
      hide Perform, Blocked;
      for i := 0 to |ops|
        invariant Open(start, mark, seen, locks)
      {
        if !Blocked(ops[i], locks) {
          UnblockedKeepsFrozen(seen, state, ops[i], locks);
          state := Perform(state, ops[i]);
          history := history + [Foreign(ops[i])];
          assert history[..|history| - 1] + [history[|history| - 1]] == history;
        }
      }
    }

    lemma Started()
      requires Valid()
      ensures Open(history, history, state, Locks(false, {}, false))
    {
    }

    /** Select the previewed rows FOR UPDATE and check the pilot's identity. */
    method LockRows(env: (nat, nat) -> Turn, preview: Preview, ghost start: seq<Event>, ghost mark: seq<Event>, ghost seen: Db)
      returns (failure: Option<Failure>, rows: seq<int>, records: map<int, JobRow>)
      requires Open(start, mark, seen, Locks(postgresql, {}, postgresql)) && SINGLETON in seen.profiles
      requires postgresql ==> ContextIs(rules, seen, preview.context)
      modifies this
      ensures Open(start, mark, seen, Locks(postgresql, if postgresql then Elements(rows) else {}, postgresql))
      ensures failure.None? ==> Elements(rows) == preview.expected.Keys <= records.Keys
      ensures failure.None? ==> Ascending(rows)
      ensures failure.None? && postgresql ==> records == seen.jobs && IsPilot(true, seen)
      ensures failure.Some? && postgresql && NoFaults(env) ==> !Ready(rules, true, seen, preview)
      ensures failure.Some? && failure.value != StatementFailed && postgresql ==>
        Explains(rules, seen, preview, failure.value)
      ensures NoFaults(env) ==> failure != Some(StatementFailed)
    {
      hide Open, LoadContext, ContextIs, IsPilot, Found, SnapshotOf, VacancyOf, Elements, Ascending, RowReady;
      var locks := Locks(postgresql, {}, postgresql);
      Others(env(2, 0).ops, locks, start, mark, seen);
      records := state.jobs;
      var ids := SortedAscending(preview.expected.Keys);
      rows := Found(ids, records);
      FoundFacts(ids, records);
      Locked(start, mark, seen, locks, if postgresql then Elements(rows) else {}, preview);
      locks := locks.(rows := if postgresql then Elements(rows) else {});
      if env(2, 0).fault {
        return Some(StatementFailed), rows, records;
      }
      if |rows| != |ids| {
        return Some(RowSetChanged), rows, records;
      }
      Others(env(3, 0).ops, locks, start, mark, seen);
      Locked(start, mark, seen, locks, locks.rows, preview);
      if env(3, 0).fault {
        return Some(StatementFailed), rows, records;
      }
      if !IsPilot(postgresql, state) {
        return Some(PilotMismatch), rows, records;
      }
      return None, rows, records;
    }

    /** The loop over the locked rows: drift check, recomputation, new scores. */
    method ScoreRows(env: (nat, nat) -> Turn, preview: Preview, context: Context, rows: seq<int>, records: map<int, JobRow>,
                     ghost start: seq<Event>, ghost mark: seq<Event>, ghost seen: Db, locks: Locks)
      returns (failure: Option<Failure>, work: map<int, Outcome>)
      requires Open(start, mark, seen, locks) && context == preview.context
      requires Elements(rows) == preview.expected.Keys <= records.Keys && (postgresql ==> records == seen.jobs)
      requires Ascending(rows) && (postgresql ==> ContextIs(rules, seen, preview.context) && IsPilot(true, seen))
      modifies this
      ensures Open(start, mark, seen, locks)
      ensures failure.None? ==> work == Scores(preview)
      ensures failure.None? && postgresql ==>
        forall id :: id in preview.expected ==> RowReady(rules, seen, preview, id)
      ensures failure.Some? && postgresql && NoFaults(env) ==> !Ready(rules, true, seen, preview)
      ensures failure.Some? && failure.value != StatementFailed && postgresql ==>
        Explains(rules, seen, preview, failure.value)
      ensures NoFaults(env) ==> failure != Some(StatementFailed)
    {
      hide Open, LoadContext, ContextIs, IsPilot, SnapshotOf, VacancyOf, RowReady, Explains, Ascending;
      work := map[];
      for k := 0 to |rows|
        invariant Open(start, mark, seen, locks)
        invariant work.Keys == Elements(rows[..k])
        invariant forall id :: id in work ==> id in preview.expected && work[id] == preview.expected[id].after
        invariant postgresql ==>
          forall id :: id in work ==> id in preview.expected && RowReady(rules, seen, preview, id)
      {
        Others(env(4, k).ops, locks, start, mark, seen);
        if env(4, k).fault {
          return Some(StatementFailed), work;
        }
        var id := rows[k];
        InElements(rows, k);
        SplitElements(rows, k, k + 1);
        var record, expected := records[id], preview.expected[id];
        RowRead(rules, seen, preview, id);
        if SnapshotOf(rules, record) != expected.before {
          if postgresql {
            SmallerDone(rows, k);
            RowFails(rules, seen, preview, id);
          }
          return Some(Drifted(id)), work;
        }
        var score := rules.evaluate(context, VacancyOf(rules, record));
        if score != expected.after {
          if postgresql {
            SmallerDone(rows, k);
            RowFails(rules, seen, preview, id);
          }
          return Some(RecomputeMismatch(id)), work;
        }
        work := work[id := score];
      }
      assert rows[..|rows|] == rows;
      SameRows(work, Scores(preview));
      return None, work;
    }

    /** The rechecks directly before the commit, over the transaction's own view. */
    method Recheck(env: (nat, nat) -> Turn, preview: Preview, context: Context, work: map<int, Outcome>,
                   ghost start: seq<Event>, ghost mark: seq<Event>, ghost seen: Db, locks: Locks)
      returns (failure: Option<Failure>)
      requires Open(start, mark, seen, locks) && SINGLETON in seen.profiles && context == preview.context
      requires locks.population == postgresql && locks.profile == postgresql
      requires postgresql ==> ContextIs(rules, seen, preview.context) && IsPilot(true, seen)
      modifies this
      ensures Open(start, mark, seen, locks)
      ensures failure.None? ==> IsPilot(postgresql, state)
      ensures failure.Some? && postgresql ==> failure.value == StatementFailed
      ensures NoFaults(env) ==> failure != Some(StatementFailed)
    {
      hide Open, LoadContext, ContextIs, IsPilot, RowReady, WriteScores;
      Others(env(5, 0).ops, locks, start, mark, seen);
      Locked(start, mark, seen, locks, locks.rows, preview);
      ContextMeaning(rules, seen, context);
      if env(5, 0).fault {
        return Some(StatementFailed);
      }
      var loaded := LoadContext(rules, state);
      if loaded.Err? {
        LoadFails(rules, state, preview);
        return Some(loaded.error);
      }
      if loaded.value != context {
        return Some(ContextChanged);
      }
      Others(env(6, 0).ops, locks, start, mark, seen);
      Locked(start, mark, seen, locks, locks.rows, preview);
      OwnWorkKeepsPilot(postgresql, state, work);
      if env(6, 0).fault {
        return Some(StatementFailed);
      }
      if !IsPilot(postgresql, WriteScores(state, work)) {
        return Some(PilotMismatch);
      }
      return None;
    }

    /** `apply_rescore`. `env(k, i)` is what happens around the k-th statement
        (for the row loop, around its i-th row);
        `settled` marks the state in which the context was read. */
    method ApplyRescore(env: (nat, nat) -> Turn, preview: Preview) returns (failure: Option<Failure>, ghost settled: nat)
      requires Valid()
      modifies this
      ensures Valid() && old(history) <= history
      ensures failure.Some? ==> OnlyForeign(Since(old(history), history))
      ensures failure.None? ==> CommitsLast(Since(old(history), history), preview)
      ensures postgresql && failure.None? ==> Ready(rules, true, BeforeCommit(origin, history), preview)
      ensures failure.None? ==>
        (state == BeforeCommit(origin, history) <==> Applied(BeforeCommit(origin, history), preview))
      ensures settled <= |history|
      ensures postgresql && NoFaults(env) ==>
        (failure.None? <==> Ready(rules, true, Replay(origin, history[..settled]), preview))
      ensures postgresql && failure.Some? && failure.value != StatementFailed ==>
        Explains(rules, Replay(origin, history[..settled]), preview, failure.value)
      ensures NoFaults(env) ==> failure != Some(StatementFailed)
    {
      hide Explains, OnlyForeign, CommitsLast, Applied;
      hide Open, Replay, LoadContext, ContextIs, IsPilot, Found, SnapshotOf, VacancyOf, WriteScores, Scores, Elements,
        Ascending, RowReady;
      ghost var start, mark, seen := history, history, state;
      var locks := Locks(false, {}, false);
      Started();
      Others(env(0, 0).ops, locks, start, mark, seen);
      settled := |mark|;
      if env(0, 0).fault {
        RolledBack(start, mark, seen, locks);
        return Some(StatementFailed), settled;
      }
      // lock_pilot_population, then load_scoring_context(for_update=True)
      Reopened(start, mark, seen, locks, Locks(postgresql, {}, false));
      mark, seen, locks := history, state, Locks(postgresql, {}, false);
      Others(env(1, 0).ops, locks, start, mark, seen);
      Reopened(start, mark, seen, locks, Locks(postgresql, {}, postgresql));
      mark, seen, settled := history, state, |history|;
      if env(1, 0).fault {
        RolledBack(start, mark, seen, Locks(postgresql, {}, postgresql));
        return Some(StatementFailed), settled;
      }
      var loaded := LoadContext(rules, state);
      if loaded.Err? {
        LoadFails(rules, state, preview);
        RolledBack(start, mark, seen, Locks(postgresql, {}, postgresql));
        return Some(loaded.error), settled;
      }
      var context := loaded.value;
      LoadDiffers(rules, state, preview);
      LoadedProfile(rules, state);
      locks := Locks(postgresql, {}, postgresql);
      if context != preview.context {
        RolledBack(start, mark, seen, locks);
        return Some(ContextChanged), settled;
      }
      var rows, records, work;
      failure, rows, records := LockRows(env, preview, start, mark, seen);
      locks := locks.(rows := if postgresql then Elements(rows) else {});
      if failure.None? {
        failure, work := ScoreRows(env, preview, context, rows, records, start, mark, seen, locks);
      }
      if failure.None? {
        failure := Recheck(env, preview, context, work, start, mark, seen, locks);
      }
      Locked(start, mark, seen, locks, locks.rows, preview);
      RolledBack(start, mark, seen, locks);
      if failure.None? {
        Appended(origin, history, Rescore(preview));
        CommitIsLast(start, history, preview);
        assert history[..settled] == (history + [Rescore(preview)])[..settled];
        AppliedIsFixed(state, preview);
        state := WriteScores(state, work);
        history := history + [Rescore(preview)];
      }
    }
  }

  // ---------------------------------------------------------------- the other writers

  function PerformAll(s: Db, ops: seq<WriterOp>): Db
    decreases |ops|
  {
    if ops == [] then s else PerformAll(Perform(s, ops[0]), ops[1..])
  }

  lemma {:induction false} PerformBoth(s: Db, a: seq<WriterOp>, b: seq<WriterOp>)
    ensures PerformAll(s, a + b) == PerformAll(PerformAll(s, a), b)
    decreases |a|
  {
    if a == [] {
      assert a + b == b;
    } else {
      PerformBoth(Perform(s, a[0]), a[1..], b);
      assert (a + b)[1..] == a[1..] + b;
    }
  }

  /** One statement that gives the job what it has in the other state. */
  function JobOp(s: Db, t: Db, id: int): WriterOp {
    if id !in t.jobs then DeleteJob(id) else if id in s.jobs then UpdateJob(id, t.jobs[id]) else InsertJob(id, t.jobs[id])
  }

  lemma SameMap<V>(a: map<int, V>, b: map<int, V>, ids: set<int>)
    requires forall id :: id !in ids
    requires forall id :: id !in ids ==> (id in a <==> id in b) && (id in b ==> a[id] == b[id])
    ensures a == b
  {
    forall id: int ensures id in a.Keys <==> id in b.Keys {
      assert id !in ids;
    }
    assert a.Keys == b.Keys;
    forall id | id in a ensures a[id] == b[id] {
      assert id !in ids;
    }
  }

  lemma {:induction false} ReachJobs(s: Db, t: Db, ids: set<int>) returns (ops: seq<WriterOp>)
    requires forall id :: id !in ids ==> (id in s.jobs <==> id in t.jobs) && (id in t.jobs ==> s.jobs[id] == t.jobs[id])
    ensures PerformAll(s, ops) == s.(jobs := t.jobs)
    decreases |ids|
  {
    if id :| id in ids {
      var op := JobOp(s, t, id);
      var next := Perform(s, op);
      var rest := ReachJobs(next, t, ids - {id});
      ops := [op] + rest;
      assert next.(jobs := t.jobs) == s.(jobs := t.jobs);
    } else {
      SameMap(s.jobs, t.jobs, ids);
      ops := [];
    }
  }

  lemma {:induction false} ReachRuns(s: Db, t: Db, ids: set<int>) returns (ops: seq<WriterOp>)
    requires forall id :: id !in ids ==> (id in s.runs <==> id in t.runs) && (id in t.runs ==> s.runs[id] == t.runs[id])
    ensures PerformAll(s, ops) == s.(runs := t.runs)
    decreases |ids|
  {
    if id :| id in ids {
      var op := if id in t.runs then InsertRun(id, t.runs[id]) else DeleteRun(id);
      var next := Perform(s, op);
      var rest := ReachRuns(next, t, ids - {id});
      ops := [op] + rest;
      assert next.(runs := t.runs) == s.(runs := t.runs);
    } else {
      SameMap(s.runs, t.runs, ids);
      ops := [];
    }
  }

  function ProfileOp(s: Db, t: Db): WriterOp {
    if SINGLETON !in t.profiles then DeleteProfile
    else if SINGLETON in s.profiles then PatchProfile(t.profiles[SINGLETON]) else InsertProfile(t.profiles[SINGLETON])
  }

  lemma SameProfiles(s: Db, t: Db)
    requires s.profiles.Keys <= {1} && t.profiles.Keys <= {1}
    ensures Perform(s, ProfileOp(s, t)) == s.(profiles := t.profiles)
  {
    var next := Perform(s, ProfileOp(s, t));
    forall id: int ensures id in next.profiles.Keys <==> id in t.profiles.Keys {
      assert id in next.profiles.Keys ==> id in {1};
      assert id in t.profiles.Keys ==> id in {1};
    }
    assert next.profiles.Keys == t.profiles.Keys;
    assert next.profiles == t.profiles;
  }

  /** Nothing is assumed of the other writers: they can bring about any state of the same database with at
      most the one profile, from any other, each row by the one statement that fits it. */
  lemma WritersReachAll(s: Db, t: Db) returns (ops: seq<WriterOp>)
    requires s.name == t.name && s.profiles.Keys <= {1} && t.profiles.Keys <= {1}
    ensures PerformAll(s, ops) == t
  {
    var a := ReachJobs(s, t, s.jobs.Keys + t.jobs.Keys);
    var s1 := s.(jobs := t.jobs);
    var b := ReachRuns(s1, t, s1.runs.Keys + t.runs.Keys);
    var s2 := s1.(runs := t.runs);
    var last := [ProfileOp(s2, t), WriteElsewhere(t.elsewhere)];
    PerformBoth(s, a, b);
    PerformBoth(s, a + b, last);
    SameProfiles(s2, t);
    assert last[1..] == [WriteElsewhere(t.elsewhere)] && last[1..][1..] == [];
    var s3 := Perform(s2, last[0]);
    assert PerformAll(s2, last) == PerformAll(s3, last[1..]) == Perform(s3, last[1]);
    assert s3 == Db(t.name, t.jobs, t.runs, t.profiles, s.elsewhere);
    ops := a + b + last;
  }
}
