/** The vacancy assessment cache of `scripts/stage21_assess_vacancies.py` and
    `app/services/fit_cache.py`: rows keyed by the inputs they were computed
    from, filled in batches while other writers change inputs and rows. */
module AssessmentCache {
  import opened Ordering
  import opened Wrappers

  /** Inputs shared by all vacancies. */
  datatype Global = Global(rulesHash: string, profileVersion: Option<int>, applicationsWatermark: string)

  /** What an assessment reads about one vacancy. */
  datatype JobFacts = JobFacts(row: string, matches: string, commute: string)

  /** The input key. The source hashes these parts; the digest is taken to be injective. */
  datatype Key = Key(global: Global, facts: JobFacts)

  /** `assess_job`: any function of the inputs the key covers. */
  type Assessor = (Global, JobFacts) -> string

  /** A cached assessment; `version` tells two writes of a row apart. */
  datatype Row = Row(key: Key, assessment: string, version: nat)

  datatype Db = Db(global: Global, jobs: map<int, JobFacts>, cache: map<int, Row>, clock: nat)

  function Get<V>(m: map<int, V>, id: int): Option<V> {
    if id in m then Some(m[id]) else None
  }

  datatype CacheState = FRESH | STALE | NOT_ASSESSED

  function StateOf(stored: Option<Row>, current: Key): CacheState {
    if stored.None? then NOT_ASSESSED else if stored.value.key == current then FRESH else STALE
  }

  function JobState(s: Db, id: int): CacheState
    requires id in s.jobs
  {
    StateOf(Get(s.cache, id), Key(s.global, s.jobs[id]))
  }

  /** The stored row was computed from the inputs as they are now. */
  predicate UpToDate(s: Db, id: int)
    requires id in s.jobs
  {
    id in s.cache && s.cache[id].key.global == s.global && s.cache[id].key.facts == s.jobs[id]
  }

  /** There is a row, computed from other inputs. */
  predicate OutOfDate(s: Db, id: int)
    requires id in s.jobs
  {
    id in s.cache && !UpToDate(s, id)
  }

  lemma StateMeaning(s: Db, id: int)
    requires id in s.jobs
    ensures JobState(s, id) == FRESH <==> UpToDate(s, id)
    ensures JobState(s, id) == STALE <==> OutOfDate(s, id)
    ensures JobState(s, id) == NOT_ASSESSED <==> id !in s.cache
  {
  }

  // ---------------------------------------------------------------- transitions

  /** One committed statement of another writer. `Upsert` is another cache
      writer that assessed the inputs `global` and `facts` at some time. */
  datatype ForeignOp =
    | SetGlobal(global: Global)
    | PutJob(id: int, facts: JobFacts)
    | DeleteJob(id: int)
    | Upsert(id: int, global: Global, facts: JobFacts)

  function Perform(assess: Assessor, s: Db, op: ForeignOp): Db {
    match op
    case SetGlobal(g) => s.(global := g)
    case PutJob(id, facts) => s.(jobs := s.jobs[id := facts])
    case DeleteJob(id) => s.(jobs := s.jobs - {id}, cache := s.cache - {id})
    case Upsert(id, g, f) =>
      if id in s.jobs
      then s.(cache := s.cache[id := Row(Key(g, f), assess(g, f), s.clock + 1)], clock := s.clock + 1)
      else s
  }

  /** Another cache writer stores what the assessor says of the inputs it saw, as a write of its own, for a vacancy
      that exists. */
  lemma UpsertMeaning(assess: Assessor, s: Db, id: int, g: Global, f: JobFacts)
    ensures var t := Perform(assess, s, Upsert(id, g, f));
      && t.global == s.global && t.jobs == s.jobs
      && (id !in s.jobs ==> t == s)
      && (id in s.jobs ==>
            && t.cache.Keys == s.cache.Keys + {id}
            && t.cache[id].key == Key(g, f) && t.cache[id].assessment == assess(g, f)
            && s.clock < t.cache[id].version <= t.clock
            && forall other :: other in s.cache && other != id ==> t.cache[other] == s.cache[other])
  {
  }

  /** The rows a batch computes from the one state `seen` that all its reads see. */
  function Assessments(assess: Assessor, seen: Db, ids: seq<int>): map<int, Row> {
    map id | id in ids && id in seen.jobs ::
      Row(Key(seen.global, seen.jobs[id]), assess(seen.global, seen.jobs[id]), 0)
  }

  /** The compare-and-swap of every written row holds: it is still the row observed. */
  predicate CommitAllowed(s: Db, seen: Db, ids: seq<int>) {
    forall id :: id in ids && id in seen.jobs ==> id in s.jobs && Get(s.cache, id) == Get(seen.cache, id)
  }

  function Stamp(rows: map<int, Row>, version: nat): map<int, Row> {
    map id | id in rows :: rows[id].(version := version)
  }

  function Store(s: Db, rows: map<int, Row>): Db {
    s.(cache := s.cache + Stamp(rows, s.clock + 1), clock := s.clock + 1)
  }

  datatype Event = Foreign(op: ForeignOp) | Commit(seen: Db, ids: seq<int>)

  function After(assess: Assessor, s: Db, event: Event): Db {
    match event
    case Foreign(op) => Perform(assess, s, op)
    case Commit(seen, ids) => Store(s, Assessments(assess, seen, ids))
  }

  function Replay(assess: Assessor, s: Db, trace: seq<Event>): Db {
    if trace == [] then s
    else After(assess, Replay(assess, s, trace[..|trace| - 1]), trace[|trace| - 1])
  }

  /** A history: each batch observed a state the database went through before,
      and committed only while the rows it writes were still the observed ones. */
  ghost predicate ValidTrace(assess: Assessor, s: Db, trace: seq<Event>) {
    forall k :: 0 <= k < |trace| && trace[k].Commit? ==> ValidCommit(assess, s, trace, k)
  }

  ghost predicate ValidCommit(assess: Assessor, s: Db, trace: seq<Event>, k: nat)
    requires k < |trace| && trace[k].Commit?
  {
    && CommitAllowed(Replay(assess, s, trace[..k]), trace[k].seen, trace[k].ids)
    && exists j: nat :: j <= k && trace[k].seen == Replay(assess, s, trace[..j])
  }

  // ---------------------------------------------------------------- safety over whole histories

  /** Every row holds the assessment of the inputs its key names. */
  ghost predicate Truthful(assess: Assessor, s: Db) {
    forall id :: id in s.cache ==> s.cache[id].assessment == assess(s.cache[id].key.global, s.cache[id].key.facts)
  }

  ghost predicate VersionsBounded(s: Db) {
    forall id :: id in s.cache ==> s.cache[id].version <= s.clock
  }

  lemma {:induction false} ReplayKeepsTruth(assess: Assessor, s: Db, trace: seq<Event>)
    requires Truthful(assess, s)
    ensures Truthful(assess, Replay(assess, s, trace))
  {
    if trace != [] {
      ReplayKeepsTruth(assess, s, trace[..|trace| - 1]);
    }
  }

  lemma {:induction false} ReplayKeepsVersions(assess: Assessor, s: Db, trace: seq<Event>)
    requires VersionsBounded(s)
    ensures VersionsBounded(Replay(assess, s, trace))
    ensures s.clock <= Replay(assess, s, trace).clock
  {
    if trace != [] {
      ReplayKeepsVersions(assess, s, trace[..|trace| - 1]);
    }
  }

  /** In every history a FRESH row is exactly the assessment of the current inputs. */
  lemma FreshMeansCurrent(assess: Assessor, s: Db, trace: seq<Event>, id: int)
    requires Truthful(assess, s)
    requires id in Replay(assess, s, trace).jobs
    ensures var now := Replay(assess, s, trace);
      JobState(now, id) == FRESH ==>
        id in now.cache && now.cache[id].assessment == assess(now.global, now.jobs[id])
  {
    ReplayKeepsTruth(assess, s, trace);
  }

  /** A row stored after a batch's observation is never replaced by that batch. */
  lemma LaterRowsSurvive(assess: Assessor, s: Db, trace: seq<Event>, k: nat, id: int)
    requires VersionsBounded(s) && ValidTrace(assess, s, trace)
    requires k < |trace| && trace[k].Commit?
    requires id in Replay(assess, s, trace[..k]).cache
    requires Replay(assess, s, trace[..k]).cache[id].version > trace[k].seen.clock
    ensures var before, after := Replay(assess, s, trace[..k]), Replay(assess, s, trace[..k + 1]);
      id in after.cache && after.cache[id] == before.cache[id]
  {
    assert ValidCommit(assess, s, trace, k);
    var j: nat :| j <= k && trace[k].seen == Replay(assess, s, trace[..j]);
    ReplayKeepsVersions(assess, s, trace[..j]);
    assert trace[..k + 1][..k] == trace[..k];
    assert Get(trace[k].seen.cache, id) != Get(Replay(assess, s, trace[..k]).cache, id);
  }

  lemma {:induction false} ReplayConcat(assess: Assessor, s: Db, a: seq<Event>, b: seq<Event>)
    ensures Replay(assess, s, a + b) == Replay(assess, Replay(assess, s, a), b)
  {
    if b == [] {
      assert a + b == a;
    } else {
      assert (a + b)[..|a + b| - 1] == a + b[..|b| - 1];
      ReplayConcat(assess, s, a, b[..|b| - 1]);
    }
  }

  lemma ValidBefore(assess: Assessor, s: Db, a: seq<Event>, b: seq<Event>, k: nat)
    requires k < |a| && a[k].Commit? && ValidCommit(assess, s, a, k)
    ensures ValidCommit(assess, s, a + b, k)
  {
    hide Replay, CommitAllowed;
    var t := a + b;
    assert t[..k] == a[..k];
    var j: nat :| j <= k && a[k].seen == Replay(assess, s, a[..j]);
    assert t[..j] == a[..j];
  }

  lemma ValidBehind(assess: Assessor, s: Db, a: seq<Event>, b: seq<Event>, m: nat)
    requires m < |b| && b[m].Commit? && ValidCommit(assess, Replay(assess, s, a), b, m)
    ensures ValidCommit(assess, s, a + b, |a| + m)
  {
    hide Replay, CommitAllowed;
    var t := a + b;
    assert t[..|a| + m] == a + b[..m];
    ReplayConcat(assess, s, a, b[..m]);
    var j: nat :| j <= m && b[m].seen == Replay(assess, Replay(assess, s, a), b[..j]);
    assert t[..|a| + j] == a + b[..j];
    ReplayConcat(assess, s, a, b[..j]);
  }

  lemma ValidConcat(assess: Assessor, s: Db, a: seq<Event>, b: seq<Event>)
    requires ValidTrace(assess, s, a) && ValidTrace(assess, Replay(assess, s, a), b)
    ensures ValidTrace(assess, s, a + b)
  {
    hide Replay, ValidCommit;
    var t := a + b;
    forall k | 0 <= k < |t| && t[k].Commit?
      ensures ValidCommit(assess, s, t, k)
    {
      if k < |a| {
        ValidBefore(assess, s, a, b, k);
      } else {
        ValidBehind(assess, s, a, b, k - |a|);
      }
    }
  }

  lemma AppendForeign(assess: Assessor, s: Db, t: seq<Event>, op: ForeignOp)
    requires ValidTrace(assess, s, t)
    ensures ValidTrace(assess, s, t + [Foreign(op)])
    ensures Replay(assess, s, t + [Foreign(op)]) == Perform(assess, Replay(assess, s, t), op)
  {
    var one := [Foreign(op)];
    assert one[..0] == [] && t + one == (t + one)[..|t|] + one && (t + one)[..|t|] == t;
    ValidConcat(assess, s, t, one);
  }

  /** A batch that observed the state after `j` events may append its commit. */
  lemma AppendCommit(assess: Assessor, s: Db, t: seq<Event>, j: nat, ids: seq<int>)
    requires ValidTrace(assess, s, t) && j <= |t|
    requires CommitAllowed(Replay(assess, s, t), Replay(assess, s, t[..j]), ids)
    ensures var seen := Replay(assess, s, t[..j]); var longer := t + [Commit(seen, ids)];
      && ValidTrace(assess, s, longer)
      && Replay(assess, s, longer) == Store(Replay(assess, s, t), Assessments(assess, seen, ids))
  {
    var seen := Replay(assess, s, t[..j]);
    var longer := t + [Commit(seen, ids)];
    assert longer[..|t|] == t;
    forall k | 0 <= k < |longer| && longer[k].Commit?
      ensures ValidCommit(assess, s, longer, k)
    {
      if k < |t| {
        assert ValidCommit(assess, s, t, k);
        assert longer[..k] == t[..k];
        var i: nat :| i <= k && t[k].seen == Replay(assess, s, t[..i]);
        assert longer[..i] == t[..i];
      } else {
        assert longer[..j] == t[..j];
      }
    }
  }

  // ---------------------------------------------------------------- one quiet batch

  /** `after` is `before` with the assessments of the current inputs stored for
      the existing vacancies among `ids`, and nothing else changed. */
  ghost predicate Refreshed(assess: Assessor, before: Db, after: Db, ids: seq<int>) {
    && after.global == before.global && after.jobs == before.jobs
    && (forall id :: id in ids && id in before.jobs ==>
         && id in after.cache && after.cache[id].key == Key(before.global, before.jobs[id])
         && after.cache[id].assessment == assess(before.global, before.jobs[id]))
    && (forall id :: id !in ids || id !in before.jobs ==> Get(after.cache, id) == Get(before.cache, id))
  }

  lemma RefreshedInSteps(assess: Assessor, a: Db, b: Db, c: Db, xs: seq<int>, ys: seq<int>)
    requires Refreshed(assess, a, b, xs) && Refreshed(assess, b, c, ys)
    ensures Refreshed(assess, a, c, xs + ys)
  {
    forall id | id in xs + ys && id in a.jobs
      ensures id in c.cache && c.cache[id].key == Key(a.global, a.jobs[id])
      ensures c.cache[id].assessment == assess(a.global, a.jobs[id])
    {
      if id !in ys {
        assert Get(c.cache, id) == Get(b.cache, id);
      }
    }
    forall id | id !in xs + ys || id !in a.jobs
      ensures Get(c.cache, id) == Get(a.cache, id)
    {
      assert id !in a.jobs || (id !in xs && id !in ys);
    }
  }

  lemma QuietCommit(assess: Assessor, s: Db, ids: seq<int>)
    ensures Refreshed(assess, s, Store(s, Assessments(assess, s, ids)), ids)
  {
  }

  ghost function NotFresh(s: Db): set<int> {
    set id | id in s.jobs && !UpToDate(s, id)
  }

  ghost function Stale(s: Db): set<int> {
    set id | id in s.jobs && OutOfDate(s, id)
  }

  /** Refreshing takes exactly the chosen vacancies out of the work that is left. */
  lemma RefreshingLowers(assess: Assessor, before: Db, after: Db, ids: seq<int>)
    requires Refreshed(assess, before, after, ids)
    ensures NotFresh(after) == NotFresh(before) - Elements(ids)
    ensures Stale(after) == Stale(before) - Elements(ids)
  {
    forall id | id in before.jobs
      ensures id in ids ==> UpToDate(after, id)
      ensures id !in ids ==> UpToDate(after, id) == UpToDate(before, id) && OutOfDate(after, id) == OutOfDate(before, id)
    {
      if id !in ids {
        assert Get(after.cache, id) == Get(before.cache, id);
      }
    }
  }

  // ---------------------------------------------------------------- the running script

  const BATCH_SIZE := 50
  const ATTEMPTS := 3

  /** What breaks into the script at one of its statements. */
  datatype Fault = Quiet | Interrupt | Retryable | Fatal

  /** What other writers commit before one statement, and what befalls the statement. */
  datatype Turn = Turn(ops: seq<ForeignOp>, fault: Fault)

  predicate IsQuiet(turn: Turn) {
    turn.ops == [] && turn.fault == Quiet
  }

  /** How a batch, or one attempt at it, ends. */
  datatype Outcome = Written(rows: nat) | Conflicted | Interrupted | Raised

  function Broken(fault: Fault): Outcome
    requires fault != Quiet
  {
    match fault
    case Interrupt => Interrupted
    case Retryable => Conflicted
    case Fatal => Raised
  }

  /** Something strikes at one of the statements, or another writer commits before it. */
  ghost predicate Strikes(env: nat -> Turn, fault: Fault) {
    exists k :: env(k).fault == fault
  }

  ghost predicate Crowded(env: nat -> Turn) {
    exists k :: env(k).ops != []
  }

  /** How an attempt ends says what befell it: an interrupt, a conflict, or an error. */
  ghost predicate Explained(env: nat -> Turn, outcome: Outcome) {
    match outcome
    case Written(_) => true
    case Interrupted => Strikes(env, Interrupt)
    case Conflicted => Strikes(env, Retryable) || Crowded(env)
    case Raised => Strikes(env, Fatal) || Crowded(env)
  }

  /** The same of one attempt at a batch. */
  ghost predicate ExplainedAt(env: (nat, nat) -> Turn, attempt: nat, outcome: Outcome) {
    Explained((k: nat) => env(attempt, k), outcome)
  }

  ghost predicate StrikesSomewhere(env: (nat, nat, nat) -> Turn, fault: Fault) {
    exists b, a, k :: env(b, a, k).fault == fault
  }

  ghost predicate CrowdedSomewhere(env: (nat, nat, nat) -> Turn) {
    exists b, a, k :: env(b, a, k).ops != []
  }

  /** An interrupted run was interrupted, and an exception that leaves it was raised. */
  ghost predicate ExitExplained(env: (nat, nat, nat) -> Turn, exit: Exit) {
    && (exit.Exit? && exit.status == 130 ==> StrikesSomewhere(env, Interrupt))
    && (exit.Exit? && exit.status == 1 ==> StrikesSomewhere(env, Retryable) || CrowdedSomewhere(env))
    && (exit.Escaped? ==> StrikesSomewhere(env, Fatal) || CrowdedSomewhere(env))
  }

  lemma PartExplained(env: (nat, nat, nat) -> Turn, batch: nat, attempt: nat, outcome: Outcome)
    requires ExplainedAt((a: nat, k: nat) => env(batch, a, k), attempt, outcome)
    ensures outcome.Interrupted? ==> StrikesSomewhere(env, Interrupt)
    ensures outcome.Conflicted? ==> StrikesSomewhere(env, Retryable) || CrowdedSomewhere(env)
    ensures outcome.Raised? ==> StrikesSomewhere(env, Fatal) || CrowdedSomewhere(env)
  {
    var one := (k: nat) => ((a: nat, k: nat) => env(batch, a, k))(attempt, k);
    if k: nat :| one(k).fault == Interrupt { assert env(batch, attempt, k).fault == Interrupt; }
    if k: nat :| one(k).fault == Retryable { assert env(batch, attempt, k).fault == Retryable; }
    if k: nat :| one(k).fault == Fatal { assert env(batch, attempt, k).fault == Fatal; }
    if k: nat :| one(k).ops != [] { assert env(batch, attempt, k).ops != []; }
  }

  lemma StruckBetween(env: (nat, nat, nat) -> Turn, batch: nat, k: nat)
    requires env(batch, ATTEMPTS, k).fault == Interrupt
    ensures StrikesSomewhere(env, Interrupt)
  {
  }

  /** Every batch among the events has at most so many vacancies. */
  ghost predicate BatchesUpTo(events: seq<Event>, size: nat) {
    forall k :: 0 <= k < |events| && events[k].Commit? ==> |events[k].ids| <= size
  }

  /** How the run ends: an exit status, or an exception that leaves it. */
  datatype Exit = Exit(status: int, done: nat, conflicted: nat) | Escaped | Refused

  datatype Plan = Plan(counts: map<CacheState, nat>, todo: seq<int>)

  function StoredKey(row: Option<Row>): Option<Key> {
    if row.None? then None else Some(row.value.key)
  }

  /** A row lock of the batch: nobody else replaces or removes these rows until it ends. */
  predicate Blocked(op: ForeignOp, locked: set<int>) {
    (op.Upsert? || op.DeleteJob?) && op.id in locked
  }

  predicate OnlyForeign(events: seq<Event>) {
    forall k :: 0 <= k < |events| ==> events[k].Foreign?
  }

  /** Events appended since `before`, when that history is a prefix of `now`. */
  function Since(before: seq<Event>, now: seq<Event>): seq<Event>
    requires before <= now
  {
    now[|before|..]
  }

  ghost predicate AllQuiet(env: (nat, nat, nat) -> Turn) {
    forall b, a, k :: IsQuiet(env(b, a, k))
  }

  /** The vacancies among `ids` that exist. */
  ghost function Present(s: Db, ids: seq<int>): set<int> {
    set id | id in ids && id in s.jobs
  }

  /** A batch commits once, as the last thing that happens in it. */
  ghost predicate EndsInCommit(events: seq<Event>, ids: seq<int>, rows: nat) {
    && |events| > 0
    && var last := events[|events| - 1];
       && last.Commit? && last.ids == ids && OnlyForeign(events[..|events| - 1])
       && (Descending(ids) ==> rows == |Present(last.seen, ids)|)
  }

  /** A commit after nothing but others' statements. */
  lemma CommitIsLast(before: seq<Event>, history: seq<Event>, seen: Db, ids: seq<int>, rows: nat)
    requires before <= history && OnlyForeign(Since(before, history))
    requires Descending(ids) ==> rows == |Present(seen, ids)|
    ensures var events := Since(before, history + [Commit(seen, ids)]);
      EndsInCommit(events, ids, rows) && events[|events| - 1].seen == seen
  {
    hide OnlyForeign, Descending, Present;
    var events := Since(before, history + [Commit(seen, ids)]);
    assert events == Since(before, history) + [Commit(seen, ids)];
    assert events[..|events| - 1] == Since(before, history);
  }

  lemma Shifted(env: (nat, nat) -> Turn, attempt: nat, outcome: Outcome)
    requires Explained((k: nat) => env(attempt, k + 1), outcome)
      || (env(attempt, 0).fault != Quiet && outcome == Broken(env(attempt, 0).fault))
    ensures ExplainedAt(env, attempt, outcome)
  {
    var all, later := (k: nat) => env(attempt, k), (k: nat) => env(attempt, k + 1);
    if k: nat :| later(k).fault == Interrupt { assert all(k + 1).fault == Interrupt; }
    if k: nat :| later(k).fault == Retryable { assert all(k + 1).fault == Retryable; }
    if k: nat :| later(k).fault == Fatal { assert all(k + 1).fault == Fatal; }
    if k: nat :| later(k).ops != [] { assert all(k + 1).ops != []; }
    assert all(0) == env(attempt, 0);
  }

  lemma NothingYet(assess: Assessor, seen: Db)
    ensures Assessments(assess, seen, []) == map[] && CommitAllowed(seen, seen, []) && |Present(seen, [])| == 0
  {
    assert Present(seen, []) == {};
  }

  /** Writers that respect the locks of the rows written so far do not invalidate them. */
  lemma StillAllowed(assess: Assessor, before: Db, after: Db, seen: Db, ids: seq<int>)
    requires CommitAllowed(before, seen, ids)
    requires forall id :: id in Assessments(assess, seen, ids).Keys ==>
      Get(after.cache, id) == Get(before.cache, id) && (id in before.jobs ==> id in after.jobs)
    ensures CommitAllowed(after, seen, ids)
  {
  }

  /** One more vacancy in the batch: its row joins the pending ones, once. */
  lemma OneMore(assess: Assessor, s: Db, seen: Db, ids: seq<int>, k: nat)
    requires k < |ids| && CommitAllowed(s, seen, ids[..k])
    ensures var id, rows := ids[k], Assessments(assess, seen, ids[..k]);
      && (id in seen.jobs ==>
            Assessments(assess, seen, ids[..k + 1])
            == rows[id := Row(Key(seen.global, seen.jobs[id]), assess(seen.global, seen.jobs[id]), 0)])
      && (id in seen.jobs && id in rows ==> Assessments(assess, seen, ids[..k + 1]) == rows)
      && (id !in seen.jobs ==> Assessments(assess, seen, ids[..k + 1]) == rows)
      && (id in seen.jobs ==> id in s.jobs && (id in rows || Get(s.cache, id) == Get(seen.cache, id)) ==>
            CommitAllowed(s, seen, ids[..k + 1]))
      && (id !in seen.jobs ==> CommitAllowed(s, seen, ids[..k + 1]))
      && (Descending(ids) ==>
            id !in rows
            && |Present(seen, ids[..k + 1])| == |Present(seen, ids[..k])| + (if id in seen.jobs then 1 else 0))
  {
    PresentOneMore(seen, ids, k);
    hide Present;
    assert ids[..k + 1] == ids[..k] + [ids[k]];
  }

  lemma PresentOneMore(seen: Db, ids: seq<int>, k: nat)
    requires k < |ids|
    ensures Descending(ids) ==>
      |Present(seen, ids[..k + 1])| == |Present(seen, ids[..k])| + (if ids[k] in seen.jobs then 1 else 0)
  {
    assert ids[..k + 1] == ids[..k] + [ids[k]];
    if ids[k] in seen.jobs {
      assert Present(seen, ids[..k + 1]) == Present(seen, ids[..k]) + {ids[k]};
    } else {
      assert Present(seen, ids[..k + 1]) == Present(seen, ids[..k]);
    }
  }

  /** The vacancies that some batch among the events committed. */
  ghost function CommittedIds(events: seq<Event>): set<int> {
    if events == [] then {}
    else
      var last := events[|events| - 1];
      CommittedIds(events[..|events| - 1]) + (if last.Commit? then Elements(last.ids) else {})
  }

  /** How many rows the batches among the events wrote. */
  ghost function RowsCommitted(events: seq<Event>): nat {
    if events == [] then 0
    else
      var last := events[|events| - 1];
      RowsCommitted(events[..|events| - 1]) + (if last.Commit? then |Present(last.seen, last.ids)| else 0)
  }

  /** The rows of the last committed batch among the events. */
  ghost function LastBatchRows(events: seq<Event>): nat {
    if events == [] then 0
    else
      var last := events[|events| - 1];
      if last.Commit? then |Present(last.seen, last.ids)| else LastBatchRows(events[..|events| - 1])
  }

  lemma {:induction false} LastBatchStays(events: seq<Event>, more: seq<Event>)
    requires OnlyForeign(more)
    ensures LastBatchRows(events + more) == LastBatchRows(events)
  {
    if more == [] {
      assert events + more == events;
    } else {
      assert (events + more)[..|events + more| - 1] == events + more[..|more| - 1];
      LastBatchStays(events, more[..|more| - 1]);
    }
  }

  /** What is reported when an interrupt strikes after a batch: all rows committed, or
      all but those of the last batch, whose counter was not raised yet. */
  ghost predicate CountedUpToLast(done: nat, events: seq<Event>) {
    done == RowsCommitted(events) || done + LastBatchRows(events) == RowsCommitted(events)
  }

  lemma UncountedBatch(events: seq<Event>, more: seq<Event>, ids: seq<int>, rows: nat, done: nat)
    requires EndsInCommit(more, ids, rows) && Descending(ids)
    requires RowsCommitted(events + more) == done + rows
    ensures CountedUpToLast(done, events + more)
  {
    hide Descending, Present, OnlyForeign, RowsCommitted;
    assert (events + more)[|events + more| - 1] == more[|more| - 1];
  }

  /** What other writers do commits no batch. */
  lemma ForeignAddsNothing(events: seq<Event>, more: seq<Event>)
    requires OnlyForeign(more)
    ensures CommittedIds(events + more) == CommittedIds(events)
    ensures RowsCommitted(events + more) == RowsCommitted(events)
    ensures LastBatchRows(events + more) == LastBatchRows(events)
  {
    hide CommittedIds, RowsCommitted, LastBatchRows, OnlyForeign;
    CommittedConcat(events, more);
    ForeignCommitsNothing(more);
    LastBatchStays(events, more);
  }

  lemma {:induction false} CommittedConcat(a: seq<Event>, b: seq<Event>)
    ensures CommittedIds(a + b) == CommittedIds(a) + CommittedIds(b)
    ensures RowsCommitted(a + b) == RowsCommitted(a) + RowsCommitted(b)
  {
    if b == [] {
      assert a + b == a;
    } else {
      assert (a + b)[..|a + b| - 1] == a + b[..|b| - 1];
      CommittedConcat(a, b[..|b| - 1]);
    }
  }

  lemma {:induction false} ForeignCommitsNothing(events: seq<Event>)
    requires OnlyForeign(events)
    ensures CommittedIds(events) == {} && RowsCommitted(events) == 0
  {
    if events != [] {
      ForeignCommitsNothing(events[..|events| - 1]);
    }
  }

  lemma BatchCommits(events: seq<Event>, ids: seq<int>, rows: nat)
    requires EndsInCommit(events, ids, rows)
    ensures CommittedIds(events) == Elements(ids)
    ensures Descending(ids) ==> RowsCommitted(events) == rows
  {
    ForeignCommitsNothing(events[..|events| - 1]);
  }

  lemma ForeignThenCommit(a: seq<Event>, b: seq<Event>, ids: seq<int>, rows: nat)
    requires OnlyForeign(a) && EndsInCommit(b, ids, rows)
    ensures EndsInCommit(a + b, ids, rows)
  {
    hide Descending, Present;
    assert (a + b)[..|a + b| - 1] == a + b[..|b| - 1];
  }

  lemma ForeignBatches(a: seq<Event>, b: seq<Event>)
    requires OnlyForeign(b)
    ensures forall n :: BatchesUpTo(a, n) ==> BatchesUpTo(a + b, n)
  {
  }

  lemma OneMoreBatch(a: seq<Event>, b: seq<Event>, ids: seq<int>, rows: nat)
    requires EndsInCommit(b, ids, rows)
    ensures forall n :: BatchesUpTo(a, n) && |ids| <= n ==> BatchesUpTo(a + b, n)
  {
    hide Present, Descending;
  }

  /** A batch given up leaves the committed vacancies as they were. */
  lemma AfterGivenUp(events: seq<Event>, more: seq<Event>, todo: seq<int>, start: nat, end: nat)
    requires start <= end <= |todo| && CommittedIds(events) <= Elements(todo[..start])
    requires OnlyForeign(more)
    ensures CommittedIds(events + more) == CommittedIds(events) <= Elements(todo[..end])
    ensures RowsCommitted(events + more) == RowsCommitted(events)
  {
    CommittedConcat(events, more);
    ForeignCommitsNothing(more);
    SplitElements(todo, start, end);
  }

  /** A batch written adds its vacancies, none of them committed before. */
  lemma AfterBatch(events: seq<Event>, more: seq<Event>, todo: seq<int>, start: nat, end: nat, rows: nat)
    requires Descending(todo) && start <= end <= |todo| && CommittedIds(events) <= Elements(todo[..start])
    requires EndsInCommit(more, todo[start..end], rows)
    ensures CommittedIds(events + more) <= Elements(todo[..end])
    ensures |CommittedIds(events + more)| == |CommittedIds(events)| + end - start
    ensures RowsCommitted(events + more) == RowsCommitted(events) + rows
  {
    hide CommittedIds, RowsCommitted, EndsInCommit, Elements;
    CommittedConcat(events, more);
    BatchCommits(more, todo[start..end], rows);
    DescendingCount(todo[start..end]);
    SplitElements(todo, start, end);
    SplitDisjoint(todo, start, end);
    DisjointCount(CommittedIds(events), Elements(todo[start..end]), CommittedIds(events + more));
  }

  lemma DisjointCount(a: set<int>, b: set<int>, both: set<int>)
    requires a !! b && both == a + b
    ensures |both| == |a| + |b|
  {
  }

  lemma SameCount(part: set<int>, whole: set<int>)
    requires part <= whole && |part| == |whole|
    ensures part == whole
  {
    assert whole == part + (whole - part);
    assert |whole - part| == 0;
  }

  lemma NothingRefreshed(assess: Assessor, s: Db)
    ensures Refreshed(assess, s, s, []) && |Present(s, [])| == 0
  {
    assert Present(s, []) == {};
  }

  lemma EmptyHistory()
    ensures CommittedIds([]) == {} && RowsCommitted([]) == 0 && forall n :: BatchesUpTo([], n)
  {
  }

  lemma SplitDescending(todo: seq<int>, start: nat, end: nat)
    requires Descending(todo) && start <= end <= |todo|
    ensures Descending(todo[start..end])
  {
  }

  lemma SubsetOfAll(todo: seq<int>, end: nat)
    requires end <= |todo|
    ensures Elements(todo[..end]) <= Elements(todo)
  {
  }

  /** A quiet batch adds its vacancies to those refreshed, and to the count. */
  lemma QuietStep(assess: Assessor, first: Db, mid: Db, last: Db, todo: seq<int>, start: nat, end: nat)
    requires start <= end <= |todo| && Descending(todo)
    requires Refreshed(assess, first, mid, todo[..start]) && Refreshed(assess, mid, last, todo[start..end])
    ensures Refreshed(assess, first, last, todo[..end])
    ensures |Present(first, todo[..end])| == |Present(first, todo[..start])| + |Present(mid, todo[start..end])|
  {
    hide Refreshed, Present, Elements, Descending;
    assert todo[..end] == todo[..start] + todo[start..end];
    RefreshedInSteps(assess, first, mid, last, todo[..start], todo[start..end]);
    SplitPresent(first, todo, start, end);
    SameJobs(assess, first, mid, todo[..start], todo[start..end]);
  }

  lemma SameJobs(assess: Assessor, before: Db, after: Db, ids: seq<int>, more: seq<int>)
    requires Refreshed(assess, before, after, ids)
    ensures Present(before, more) == Present(after, more)
  {
  }

  lemma SplitPresent(s: Db, todo: seq<int>, start: nat, end: nat)
    requires start <= end <= |todo| && Descending(todo)
    ensures |Present(s, todo[..end])| == |Present(s, todo[..start])| + |Present(s, todo[start..end])|
  {
    hide Descending;
    SplitElements(todo, start, end);
    SplitDisjoint(todo, start, end);
    assert forall ids :: Present(s, ids) == Elements(ids) * s.jobs.Keys;
    DisjointCount(Present(s, todo[..start]), Present(s, todo[start..end]), Present(s, todo[..end]));
  }

  ghost function InState(s: Db, ids: set<int>, c: CacheState): set<int> {
    set id | id in ids && id in s.jobs && IsIn(s, id, c)
  }

  predicate IsIn(s: Db, id: int, c: CacheState)
    requires id in s.jobs
  {
    match c
    case FRESH => UpToDate(s, id)
    case STALE => OutOfDate(s, id)
    case NOT_ASSESSED => id !in s.cache
  }

  lemma StateIsIn(s: Db, id: int, c: CacheState)
    requires id in s.jobs
    ensures JobState(s, id) == c <==> IsIn(s, id, c)
  {
    StateMeaning(s, id);
  }

  /** The vacancies a plan over `ids` takes. */
  ghost function Chosen(s: Db, ids: set<int>, onlyStale: bool): set<int> {
    set id | id in ids && id in s.jobs && (OutOfDate(s, id) || (id !in s.cache && !onlyStale))
  }

  /** What the planning loop has established about the vacancies `ids`. */
  ghost predicate PlanSoFar(s: Db, ids: set<int>, counts: map<CacheState, nat>, todo: seq<int>, onlyStale: bool) {
    && counts.Keys == {FRESH, STALE, NOT_ASSESSED}
    && (forall c :: c in counts ==> counts[c] == |InState(s, ids, c)|)
    && Elements(todo) == Chosen(s, ids, onlyStale)
    && Descending(todo)
  }

  lemma NothingPlanned(s: Db, onlyStale: bool)
    ensures PlanSoFar(s, Elements([]), map[FRESH := 0, STALE := 0, NOT_ASSESSED := 0], [], onlyStale)
  {
    hide IsIn;
    assert forall c :: InState(s, Elements([]), c) == {};
  }

  lemma PlanComplete(s: Db, counts: map<CacheState, nat>, todo: seq<int>, onlyStale: bool)
    requires PlanSoFar(s, s.jobs.Keys, counts, todo, onlyStale)
    ensures Elements(todo) == Open(s, onlyStale)
    ensures Descending(todo) && counts.Keys == {FRESH, STALE, NOT_ASSESSED}
    ensures forall c :: c in counts ==> counts[c] == |InState(s, s.jobs.Keys, c)|
  {
    hide Descending, InState;
  }

  lemma CountOneMore(s: Db, ids: set<int>, id: int, c: CacheState)
    requires id !in ids && id in s.jobs
    ensures |InState(s, ids + {id}, c)| == |InState(s, ids, c)| + (if JobState(s, id) == c then 1 else 0)
  {
    StateIsIn(s, id, c);
    hide JobState, IsIn;
    var before, after := InState(s, ids, c), InState(s, ids + {id}, c);
    if IsIn(s, id, c) {
      assert after == before + {id};
    } else {
      assert after == before;
    }
  }

  lemma ChooseOneMore(s: Db, ids: set<int>, id: int, onlyStale: bool)
    requires id in s.jobs
    ensures Chosen(s, ids + {id}, onlyStale) == Chosen(s, ids, onlyStale) +
      (if JobState(s, id) == STALE || (JobState(s, id) == NOT_ASSESSED && !onlyStale) then {id} else {})
  {
    StateMeaning(s, id);
    hide JobState, OutOfDate;
  }

  lemma PlanStep(s: Db, ids: set<int>, counts: map<CacheState, nat>, todo: seq<int>, id: int, onlyStale: bool)
    requires PlanSoFar(s, ids, counts, todo, onlyStale)
    requires id in s.jobs && id !in ids && forall x :: x in ids ==> id < x
    ensures JobState(s, id) in counts
    ensures var c := JobState(s, id);
      PlanSoFar(s, ids + {id}, counts[c := counts[c] + 1],
                if c == STALE || (c == NOT_ASSESSED && !onlyStale) then todo + [id] else todo, onlyStale)
  {
    hide JobState, InState, OutOfDate, UpToDate, Descending, Elements, Chosen;
    forall c ensures |InState(s, ids + {id}, c)| == |InState(s, ids, c)| + (if JobState(s, id) == c then 1 else 0) {
      CountOneMore(s, ids, id, c);
    }
    ChooseOneMore(s, ids, id, onlyStale);
    DescendingAppend(todo, id);
    ChosenWithin(s, ids, onlyStale);
  }

  lemma ChosenWithin(s: Db, ids: set<int>, onlyStale: bool)
    ensures Chosen(s, ids, onlyStale) <= ids
  {
  }

  lemma CutPlan(todo: seq<int>, n: nat)
    requires n <= |todo| && Descending(todo)
    ensures Descending(todo[..n]) && Elements(todo[..n]) <= Elements(todo)
    ensures |Elements(todo)| == |todo| && |Elements(todo[..n])| == n
  {
    DescendingCount(todo);
    DescendingCount(todo[..n]);
  }

  ghost function Open(s: Db, onlyStale: bool): set<int> {
    if onlyStale then Stale(s) else NotFresh(s)
  }

  /** A run that refreshed the first `n` planned vacancies lowers what is left by `n`. */
  lemma RunLowers(assess: Assessor, before: Db, after: Db, todo: seq<int>, n: nat, onlyStale: bool)
    requires n <= |todo| && Descending(todo) && Refreshed(assess, before, after, todo[..n])
    requires Elements(todo) == Open(before, onlyStale)
    ensures |Present(before, todo[..n])| == n
    ensures |Open(after, onlyStale)| == |todo| - n && |Open(before, onlyStale)| == |todo|
    ensures after.global == before.global && after.jobs == before.jobs
    ensures forall id :: id !in Open(before, onlyStale) ==> Get(after.cache, id) == Get(before.cache, id)
  {
    hide Refreshed, Present, Descending, Elements, Open;
    CutPlan(todo, n);
    OpenAfter(assess, before, after, todo[..n], onlyStale);
    Untouched(assess, before, after, Elements(todo), todo[..n]);
    OpenIsPresent(before, onlyStale);
    PresentIn(before, todo[..n]);
    var left, done := Open(after, onlyStale), Elements(todo[..n]);
    assert Elements(todo) == left + done;
    DisjointCount(left, done, Elements(todo));
  }

  lemma Untouched(assess: Assessor, before: Db, after: Db, all: set<int>, ids: seq<int>)
    requires Refreshed(assess, before, after, ids) && Elements(ids) <= all
    ensures after.global == before.global && after.jobs == before.jobs
    ensures forall id :: id !in all ==> Get(after.cache, id) == Get(before.cache, id)
  {
    assert forall id :: id in ids ==> id in Elements(ids);
  }

  lemma OpenAfter(assess: Assessor, before: Db, after: Db, ids: seq<int>, onlyStale: bool)
    requires Refreshed(assess, before, after, ids)
    ensures Open(after, onlyStale) == Open(before, onlyStale) - Elements(ids)
  {
    hide Refreshed;
    RefreshingLowers(assess, before, after, ids);
  }

  lemma OpenIsPresent(s: Db, onlyStale: bool)
    ensures Open(s, onlyStale) <= s.jobs.Keys
  {
  }

  lemma PresentIn(s: Db, ids: seq<int>)
    requires Elements(ids) <= s.jobs.Keys
    ensures Present(s, ids) == Elements(ids)
  {
    assert forall id :: id in ids ==> id in Elements(ids);
  }

  class CacheDatabase {
    const assess: Assessor
    ghost const origin: Db
    var state: Db
    ghost var history: seq<Event>

    /** The state is what the recorded history of all writers made of the first one. */
    ghost predicate Valid() reads this {
      && ValidTrace(assess, origin, history)
      && state == Replay(assess, origin, history)
    }

    constructor (assess: Assessor, initial: Db)
      ensures Valid() && state == initial && history == []
      ensures this.assess == assess && origin == initial
    {
      this.assess, this.origin, this.state, this.history := assess, initial, initial, [];
    }

    /** Other writers commit; those that need a locked row wait. */
    method Others(ops: seq<ForeignOp>, locked: set<int>)
      requires Valid()
      modifies this
      ensures Valid() && old(history) <= history && OnlyForeign(Since(old(history), history))
      ensures forall id :: id in locked ==>
        Get(state.cache, id) == old(Get(state.cache, id)) && (id in old(state).jobs ==> id in state.jobs)
      ensures ops == [] ==> state == old(state) && history == old(history)
    {
      for i := 0 to |ops|
        invariant Valid() && old(history) <= history && OnlyForeign(Since(old(history), history))
        invariant forall id :: id in locked ==>
          Get(state.cache, id) == old(Get(state.cache, id)) && (id in old(state).jobs ==> id in state.jobs)
        invariant i == 0 ==> state == old(state) && history == old(history)
      {
        if !Blocked(ops[i], locked) {
          AppendForeign(assess, origin, history, ops[i]);
          state := Perform(assess, state, ops[i]);
          history := history + [Foreign(ops[i])];
        }
      }
    }

    /** One attempt at a batch in one transaction. A foreign write to a row the
        batch wants, made after its snapshot, is a serialization failure; a
        vacancy deleted meanwhile fails the foreign key. */
    method AssessBatch(env: nat -> Turn, ids: seq<int>) returns (outcome: Outcome)
      requires Valid()
      modifies this
      ensures Valid() && old(history) <= history
      ensures !outcome.Written? ==> OnlyForeign(Since(old(history), history))
      ensures outcome.Written? ==> EndsInCommit(Since(old(history), history), ids, outcome.rows)
      ensures outcome.Written? ==> Since(old(history), history)[|history| - |old(history)| - 1].seen == old(state)
      ensures outcome.Written? && Descending(ids) ==> outcome.rows == |Present(old(state), ids)|
      ensures (forall k :: IsQuiet(env(k))) ==> outcome.Written? && Refreshed(assess, old(state), state, ids)
      ensures Explained(env, outcome)
    {
      hide Replay, ValidTrace, Assessments, CommitAllowed, Refreshed, Store, Present, Descending;
      var seen := state;
      ghost var start: nat := |history|;
      var pending: map<int, Row> := map[];
      var written: nat := 0;
      NothingYet(assess, seen);
      assert ids[..0] == [];
      for k := 0 to |ids|
        invariant Valid() && old(history) <= history && OnlyForeign(Since(old(history), history))
        invariant pending == Assessments(assess, seen, ids[..k])
        invariant CommitAllowed(state, seen, ids[..k])
        invariant Descending(ids) ==> written == |Present(seen, ids[..k])|
        invariant (forall k :: IsQuiet(env(k))) ==> state == seen
        invariant state == seen || Crowded(env)
      {
        var turn := env(k);
        ghost var before := state;
        Others(turn.ops, pending.Keys);
        StillAllowed(assess, before, state, seen, ids[..k]);
        if turn.fault != Quiet {
          return Broken(turn.fault);
        }
        var id := ids[k];
        if id in seen.jobs {
          if id !in pending && Get(state.cache, id) != Get(seen.cache, id) {
            return Conflicted;
          }
          if id !in state.jobs {
            return Raised;
          }
          OneMore(assess, state, seen, ids, k);
          var visible := if id in pending then Some(pending[id]) else Get(seen.cache, id);
          if StoredKey(visible) == StoredKey(Get(seen.cache, id)) {
            pending := pending[id := Row(Key(seen.global, seen.jobs[id]), assess(seen.global, seen.jobs[id]), 0)];
            written := written + 1;
          }
        } else {
          OneMore(assess, state, seen, ids, k);
        }
      }
      assert ids[..|ids|] == ids;
      var turn := env(|ids|);
      ghost var before := state;
      Others(turn.ops, pending.Keys);
      StillAllowed(assess, before, state, seen, ids);
      if turn.fault != Quiet {
        return Broken(turn.fault);
      }
      assert history[..start] == old(history);
      AppendCommit(assess, origin, history, start, ids);
      QuietCommit(assess, state, ids);
      CommitIsLast(old(history), history, seen, ids, written);
      hide EndsInCommit;
      state := Store(state, pending);
      history := history + [Commit(seen, ids)];
      return Written(written);
    }

    /** A batch with its retries, each on a fresh state. */
    method WriteBatch(env: (nat, nat) -> Turn, ids: seq<int>) returns (outcome: Outcome, ghost attempts: nat)
      requires Valid()
      modifies this
      ensures Valid() && old(history) <= history
      ensures outcome.Written? ==> EndsInCommit(Since(old(history), history), ids, outcome.rows)
      ensures !outcome.Written? ==> OnlyForeign(Since(old(history), history))
      ensures (forall a, k :: IsQuiet(env(a, k))) ==>
        && outcome.Written? && Refreshed(assess, old(state), state, ids)
        && (Descending(ids) ==> outcome.rows == |Present(old(state), ids)|)
      ensures 1 <= attempts <= 3 && (outcome.Conflicted? ==> attempts == 3)
      ensures forall a: nat :: a < attempts - 1 ==> ExplainedAt(env, a, Conflicted)
      ensures ExplainedAt(env, attempts - 1, outcome)
    {
      hide Replay, ValidTrace, Refreshed, Present, Descending, EndsInCommit, Explained, ExplainedAt;
      var attempt: nat := 0;
      attempts := 0;
      while attempt < ATTEMPTS
        invariant attempts == attempt <= ATTEMPTS
        invariant forall a: nat :: a < attempt ==> ExplainedAt(env, a, Conflicted)
        invariant Valid() && old(history) <= history && OnlyForeign(Since(old(history), history))
        invariant (forall a, k :: IsQuiet(env(a, k))) ==> attempt == 0 && state == old(state)
      {
        attempts := attempt + 1;
        var turn := env(attempt, 0);
        Others(turn.ops, {});
        outcome := if turn.fault == Quiet then Conflicted else Broken(turn.fault);
        if turn.fault == Quiet {
          ghost var was := history;
          outcome := AssessBatch((k: nat) => env(attempt, k + 1), ids);
          assert Since(old(history), history) == Since(old(history), was) + Since(was, history);
          if outcome.Written? {
            ForeignThenCommit(Since(old(history), was), Since(was, history), ids, outcome.rows);
          }
        }
        Shifted(env, attempt, outcome);
        if !outcome.Conflicted? {
          return;
        }
        attempt := attempt + 1;
      }
      outcome := Conflicted;
    }

    /** Control is back in the loop: others commit, and an interrupt may strike. */
    method Between(turn: Turn, ghost first: seq<Event>) returns (interrupted: bool)
      requires Valid() && first <= history
      modifies this
      ensures Valid() && old(history) <= history && first <= history
      ensures CommittedIds(Since(first, history)) == CommittedIds(Since(first, old(history)))
      ensures RowsCommitted(Since(first, history)) == RowsCommitted(Since(first, old(history)))
      ensures LastBatchRows(Since(first, history)) == LastBatchRows(Since(first, old(history)))
      ensures forall n :: BatchesUpTo(Since(first, old(history)), n) ==> BatchesUpTo(Since(first, history), n)
      ensures interrupted <==> turn.fault == Interrupt
      ensures turn.ops == [] ==> state == old(state)
    {
      hide CommittedIds, RowsCommitted, LastBatchRows, OnlyForeign, Replay, ValidTrace;
      ghost var was := history;
      Others(turn.ops, {});
      assert Since(first, history) == Since(first, was) + Since(was, history);
      ForeignAddsNothing(Since(first, was), Since(was, history));
      ForeignBatches(Since(first, was), Since(was, history));
      hide BatchesUpTo;
      return turn.fault == Interrupt;
    }

    /** One batch of the plan: what it adds to what was committed since `first`. */
    method WritePart(env: (nat, nat) -> Turn, todo: seq<int>, start: nat, end: nat, done: nat, ghost first: seq<Event>)
      returns (outcome: Outcome, ghost attempts: nat)
      requires Valid() && Descending(todo) && start <= end <= |todo| && first <= history
      requires CommittedIds(Since(first, history)) <= Elements(todo[..start])
      requires done == RowsCommitted(Since(first, history))
      modifies this
      ensures Valid() && old(history) <= history && first <= history
      ensures CommittedIds(Since(first, history)) <= Elements(todo[..end]) <= Elements(todo)
      ensures |CommittedIds(Since(first, history))|
           == |CommittedIds(Since(first, old(history)))| + (if outcome.Written? then end - start else 0)
      ensures RowsCommitted(Since(first, history)) == done + (if outcome.Written? then outcome.rows else 0)
      ensures CountedUpToLast(done, Since(first, history))
      ensures forall n :: BatchesUpTo(Since(first, old(history)), n) && end - start <= n ==> BatchesUpTo(Since(first, history), n)
      ensures (forall a, k :: IsQuiet(env(a, k))) ==>
        && outcome.Written? && Refreshed(assess, old(state), state, todo[start..end])
        && outcome.rows == |Present(old(state), todo[start..end])|
      ensures 1 <= attempts <= 3 && (outcome.Conflicted? ==> attempts == 3)
      ensures ExplainedAt(env, attempts - 1, outcome)
    {
      hide Replay, ValidTrace, Refreshed, Present, CommittedIds, RowsCommitted, LastBatchRows, EndsInCommit, OnlyForeign,
        Elements, Descending, BatchesUpTo;
      ghost var was := history;
      SplitDescending(todo, start, end);
      outcome, attempts := WriteBatch(env, todo[start..end]);
      assert Since(first, history) == Since(first, was) + Since(was, history);
      SubsetOfAll(todo, end);
      if outcome.Written? {
        AfterBatch(Since(first, was), Since(was, history), todo, start, end, outcome.rows);
        UncountedBatch(Since(first, was), Since(was, history), todo[start..end], outcome.rows, done);
        OneMoreBatch(Since(first, was), Since(was, history), todo[start..end], outcome.rows);
      } else {
        AfterGivenUp(Since(first, was), Since(was, history), todo, start, end);
        ForeignBatches(Since(first, was), Since(was, history));
      }
    }

    /** All batches, with the exit status and the two counters reported. */
    method Apply(env: (nat, nat, nat) -> Turn, todo: seq<int>) returns (exit: Exit)
      requires Valid() && Descending(todo)
      modifies this
      ensures Valid() && old(history) <= history
      ensures !exit.Refused?
      ensures exit.Exit? ==>
        && exit.status in {0, 1, 130} && exit.done <= RowsCommitted(Since(old(history), history))
        && CountedUpToLast(exit.done, Since(old(history), history))
        && CommittedIds(Since(old(history), history)) <= Elements(todo)
      ensures ExitExplained(env, exit)
      ensures BatchesUpTo(Since(old(history), history), 50)
      ensures exit.Exit? && exit.status != 130 ==>
        && exit.done == RowsCommitted(Since(old(history), history))
        && |CommittedIds(Since(old(history), history))| + exit.conflicted == |todo|
        && (exit.status == 0 <==> CommittedIds(Since(old(history), history)) == Elements(todo))
      ensures AllQuiet(env) ==>
        && exit == Exit(0, |Present(old(state), todo)|, 0)
        && Refreshed(assess, old(state), state, todo)
    {
      hide Replay, ValidTrace, Refreshed, Present, CommittedIds, RowsCommitted, LastBatchRows, EndsInCommit, OnlyForeign,
        Elements, Descending, StrikesSomewhere, CrowdedSomewhere, Explained, ExplainedAt, BatchesUpTo;
      var done: nat, conflicted: nat, start: nat := 0, 0, 0;
      NothingRefreshed(assess, state);
      EmptyHistory();
      assert todo[..0] == [] && Since(history, history) == [];
      while start < |todo|
        invariant start <= |todo| && Valid() && old(history) <= history
        invariant BatchesUpTo(Since(old(history), history), 50)
        invariant conflicted > 0 ==> StrikesSomewhere(env, Retryable) || CrowdedSomewhere(env)
        invariant done == RowsCommitted(Since(old(history), history))
        invariant CommittedIds(Since(old(history), history)) <= Elements(todo[..start])
        invariant |CommittedIds(Since(old(history), history))| + conflicted == start
        invariant AllQuiet(env) ==>
          && conflicted == 0 && done == |Present(old(state), todo[..start])|
          && Refreshed(assess, old(state), state, todo[..start])
      {
        var end: nat := if start + BATCH_SIZE < |todo| then start + BATCH_SIZE else |todo|;
        ghost var mid := state;
        var outcome, attempts := WritePart((a: nat, k: nat) => env(start / BATCH_SIZE, a, k), todo, start, end, done, old(history));
        PartExplained(env, start / BATCH_SIZE, attempts - 1, outcome);
        if outcome.Raised? {
          return Escaped;
        }
        if outcome.Interrupted? {
          return Exit(130, done, conflicted);
        }
        // the batch is over, its outcome not counted yet
        var interrupted := Between(env(start / BATCH_SIZE, ATTEMPTS, 0), old(history));
        if interrupted {
          StruckBetween(env, start / BATCH_SIZE, 0);
          return Exit(130, done, conflicted);
        }
        match outcome {
          case Conflicted => conflicted := conflicted + (end - start);
          case Written(rows) =>
            if AllQuiet(env) {
              SplitDisjoint(todo, start, end);
              QuietStep(assess, old(state), mid, state, todo, start, end);
            }
            done := done + rows;
        }
        // the progress line is printed
        interrupted := Between(env(start / BATCH_SIZE, ATTEMPTS, 1), old(history));
        if interrupted {
          StruckBetween(env, start / BATCH_SIZE, 1);
          return Exit(130, done, conflicted);
        }
        start := end;
      }
      assert todo[..|todo|] == todo;
      DescendingCount(todo);
      if conflicted == 0 {
        SameCount(CommittedIds(Since(old(history), history)), Elements(todo));
      }
      return Exit(if conflicted > 0 then 1 else 0, done, conflicted);
    }

    /** Counts per cache state, and the vacancies to assess, newest first. */
    method MakePlan(onlyStale: bool) returns (plan: Plan)
      ensures Descending(plan.todo)
      ensures Elements(plan.todo) == Open(state, onlyStale)
      ensures plan.counts.Keys == {FRESH, STALE, NOT_ASSESSED}
      ensures forall c :: c in plan.counts ==> plan.counts[c] == |InState(state, state.jobs.Keys, c)|
    {
      hide JobState, PlanSoFar, Descending, Elements;
      var ids := SortedDescending(state.jobs.Keys);
      var todo: seq<int> := [];
      var counts := map[FRESH := 0, STALE := 0, NOT_ASSESSED := 0];
      NothingPlanned(state, onlyStale);
      assert ids[..0] == [];
      for k := 0 to |ids|
        invariant PlanSoFar(state, Elements(ids[..k]), counts, todo, onlyStale)
      {
        var id := ids[k];
        NextSmallest(ids, k);
        var current := JobState(state, id);
        PlanStep(state, Elements(ids[..k]), counts, todo, id, onlyStale);
        counts := counts[current := counts[current] + 1];
        if current == STALE || (current == NOT_ASSESSED && !onlyStale) {
          todo := todo + [id];
        }
      }
      assert ids[..|ids|] == ids;
      PlanComplete(state, counts, todo, onlyStale);
      plan := Plan(counts, todo);
    }

    /** `run` with `--apply`: plan, cut to the limit, and write in batches. */
    method Run(env: (nat, nat, nat) -> Turn, onlyStale: bool, limit: Option<int>) returns (plan: Plan, exit: Exit)
      requires Valid()
      modifies this
      ensures Valid() && old(history) <= history
      ensures exit.Refused? <==> limit.Some? && limit.value < 1
      ensures exit.Refused? ==> state == old(state) && history == old(history)
      ensures AllQuiet(env) && !exit.Refused? ==>
        var open := Open(old(state), onlyStale);
        var cut: nat := if limit.Some? && limit.value < |open| then limit.value else |open|;
        && exit == Exit(0, cut, 0)
        && |Open(state, onlyStale)| == |open| - cut
        && state.global == old(state.global) && state.jobs == old(state.jobs)
        && (forall id :: id in state.jobs && id !in open ==> Get(state.cache, id) == Get(old(state.cache), id))
    {
      hide Replay, ValidTrace, Open, Refreshed, Present, CommittedIds, RowsCommitted, Elements, Descending;
      if limit.Some? && limit.value < 1 {
        return Plan(map[], []), Refused;
      }
      plan := MakePlan(onlyStale);
      var todo := plan.todo;
      if limit.Some? && limit.value < |todo| {
        todo := todo[..limit.value];
      }
      assert todo == plan.todo[..|todo|];
      CutPlan(plan.todo, |todo|);
      exit := Apply(env, todo);
      if AllQuiet(env) {
        RunLowers(assess, old(state), state, plan.todo, |todo|, onlyStale);
      }
    }
  }
}
