/** A pilot of `scripts/offline_rescore_stage12.py` on which one preview passes the
    population check of the review gate and still changes the database twice. */
module SecondCommitExample {
  import opened PythonText
  import opened RescoreApply
  import opened Wrappers
  import Gate = ReviewGate
  import Population = ReviewPopulation
  import Provenance = ReviewProvenance

  function Ones(n: int): string {
    seq(if n > 0 then n else 0, _ => '1')
  }

  /** A row of an example pilot; only the first one scores differently now. */
  function ExampleRow(id: int): JobRow {
    JobRow(Ones(id), 0, 0, "", "", "", "", "", None, "", "", "", "", None,
           Outcome(if id == 1 then 40 else 50, "MAYBE", 0.5), "")
  }

  function ExampleJobs(n: nat): map<int, JobRow> {
    if n == 0 then map[] else ExampleJobs(n - 1)[n := ExampleRow(n)]
  }

  function ExamplePilot(): Db {
    Db(PILOT_DATABASE, ExampleJobs(PILOT_JOB_COUNT), map[1 := "", 2 := ""], map[1 := Profile([], [], [])], "")
  }

  function ExampleRules(): Rules {
    Rules((s: string) => [], (roles: seq<string>) => "", (roles: seq<string>) => "",
          (c: Context, v: Vacancy) => Outcome(50, "MAYBE", 0.5))
  }

  lemma {:induction false} ExampleRows(n: nat)
    ensures |ExampleJobs(n)| == n
    ensures forall id :: id in ExampleJobs(n) <==> 1 <= id <= n
    ensures forall id :: 1 <= id <= n ==> ExampleJobs(n)[id] == ExampleRow(id)
  {
    hide ExampleRow;
    if n > 0 {
      ExampleRows(n - 1);
    }
  }

  function OnesUpTo(n: nat): set<string> {
    if n == 0 then {} else OnesUpTo(n - 1) + {Ones(n)}
  }

  lemma {:induction false} OnesUpToCount(n: nat)
    ensures |OnesUpTo(n)| == n && forall f :: f in OnesUpTo(n) ==> |f| <= n
    ensures forall id :: 1 <= id <= n ==> Ones(id) in OnesUpTo(n)
    ensures forall f :: f in OnesUpTo(n) ==> exists id :: 1 <= id <= n && f == Ones(id)
  {
    if n > 0 {
      OnesUpToCount(n - 1);
    }
  }

  lemma ExampleFingerprints(n: nat)
    ensures |Fingerprints(ExampleJobs(n))| == n
  {
    ExampleRows(n);
    OnesUpToCount(n);
    var jobs := ExampleJobs(n);
    assert forall id :: ExampleRow(id).fingerprint == Ones(id);
    hide ExampleJobs, ExampleRow, OnesUpTo, Ones;
    forall f | f in OnesUpTo(n) ensures f in Fingerprints(jobs) {
      var id :| 1 <= id <= n && f == Ones(id);
      assert id in jobs && jobs[id].fingerprint == f;
    }
    forall f | f in Fingerprints(jobs) ensures f in OnesUpTo(n) {
      var id :| id in jobs && jobs[id].fingerprint == f;
      assert jobs[id] == ExampleRow(id);
    }
    assert Fingerprints(jobs) == OnesUpTo(n);
  }

  lemma ExampleIsPilot()
    ensures IsPilot(true, ExamplePilot()) && LoadContext(ExampleRules(), ExamplePilot()).Ok?
    ensures forall id :: id in ExamplePilot().jobs <==> 1 <= id <= PILOT_JOB_COUNT
    ensures forall id :: id in ExamplePilot().jobs ==> ExamplePilot().jobs[id] == ExampleRow(id)
  {
    hide ExampleJobs, ExampleRow, ExampleRules, Fingerprints;
    var s := ExamplePilot();
    ExampleRows(PILOT_JOB_COUNT);
    ExampleFingerprints(PILOT_JOB_COUNT);
    assert s.profiles.Keys == {1} && s.runs.Keys == {1, 2};
  }

  lemma ExamplePreview()
    ensures var s := ExamplePilot();
      && PreviewAll(ExampleRules(), s).Ok?
      && (forall id :: id != 1 ==> Stores(s, PreviewAll(ExampleRules(), s).value, id))
      && !Stores(s, PreviewAll(ExampleRules(), s).value, 1)
  {
    hide ExampleJobs, ExamplePilot, IsPilot, SnapshotOf, VacancyOf, LoadContext;
    ExampleIsPilot();
    var s, preview := ExamplePilot(), PreviewAll(ExampleRules(), ExamplePilot()).value;
    assert preview.expected.Keys == s.jobs.Keys;
    assert forall id :: id in s.jobs ==> preview.expected[id].after == Outcome(50, "MAYBE", 0.5);
    assert ExampleRow(1).persisted.score == 40;
    forall id | id != 1 ensures Stores(s, preview, id) {
      if id in s.jobs {
        assert s.jobs[id] == ExampleRow(id);
      }
    }
  }

  /** What the preview shows for review: the jobs in order of their ids. */
  function ExampleResults(): (results: seq<Population.Item>)
    ensures |results| == PILOT_JOB_COUNT
    ensures forall k :: 0 <= k < |results| ==> results[k] == ExampleItem(k + 1)
  {
    seq(PILOT_JOB_COUNT, k requires 0 <= k < PILOT_JOB_COUNT => ExampleItem(k + 1))
  }

  function ExampleItem(id: int): Population.Item {
    Population.Item(
      Provenance.Previewed(id, SnapshotOf(ExampleRules(), ExampleRow(id)), Outcome(50, "MAYBE", 0.5)),
      Population.Explanation([], [], None, "", [], [], [], [], 0, "", "", "", "", []))
  }

  lemma OnesNotBlank(n: int)
    requires n > 0
    ensures Strip(Ones(n)) != "" && |Ones(n)| == n
  {
    assert !IsSpace('1');
    assert RStrip(Ones(n)) == Ones(n);
  }

  lemma ExampleCovered()
    ensures PreviewAll(ExampleRules(), ExamplePilot()).Ok?
    ensures Provenance.Covers(PreviewAll(ExampleRules(), ExamplePilot()).value, Population.Jobs(ExampleResults()))
  {
    hide ExampleJobs, ExamplePilot, ExampleRow, IsPilot, SnapshotOf, VacancyOf, LoadContext;
    ExampleIsPilot();
    var s, preview := ExamplePilot(), PreviewAll(ExampleRules(), ExamplePilot()).value;
    var results := ExampleResults();
    var jobs := Population.Jobs(results);
    assert preview.expected.Keys == s.jobs.Keys;
    forall job | job in jobs
      ensures job.id in preview.expected && preview.expected[job.id] == Expected(job.before, job.after)
    {
      var k :| 0 <= k < |jobs| && jobs[k] == job;
      assert results[k] == ExampleItem(k + 1);
    }
    forall id | id in preview.expected ensures exists job :: job in jobs && job.id == id {
      assert jobs[id - 1] in jobs && results[id - 1] == ExampleItem(id);
    }
  }

  lemma ExampleFromTable()
    ensures Population.FromTable(ExampleResults())
    ensures exists x :: x in ExampleResults() && Population.Reviewable(x)
  {
    hide ExampleRules, Strip, Ones;
    var results := ExampleResults();
    forall k: nat | k < |results|
      ensures Population.ItemId(results[k]) == k + 1 && Population.ItemFingerprint(results[k]) == Ones(k + 1)
      ensures Strip(Ones(k + 1)) != "" && |Ones(k + 1)| == k + 1
    {
      OnesNotBlank(k + 1);
    }
    assert results[0] in results && Population.Reviewable(results[0]);
  }

  /** A second commit that does change the database, of a preview whose export the gate
      accepts as a population: after the first one a writer puts back the old row,
      and everything is again as the preview saw it. */
  lemma RestoredScoresChangeAgain(draw: Population.Draw, repr: real -> string, seed: int, provenance: string)
    requires Population.Samples(draw) && Strip(provenance) != ""
    ensures var s := ExamplePilot();
      PreviewAll(ExampleRules(), s).Ok? &&
      var preview := PreviewAll(ExampleRules(), s).value;
      var history := [Rescore(preview), Foreign(UpdateJob(1, ExampleRow(1)))];
      && Provenance.Covers(preview, Population.Jobs(ExampleResults()))
      && Gate.WellFormed(Population.ReviewExport(draw, repr, ExampleResults(), seed, provenance))
      && Ready(ExampleRules(), true, s, preview)
      && Ready(ExampleRules(), true, Replay(s, history), preview)
      && Replay(s, history + [Rescore(preview)]) != Replay(s, history)
  {
    hide ExamplePilot, ExampleRules, ExampleRow, PreviewAll, Ready, Replay, WriteScores, Stores, IsPilot, ExampleItem,
      Population.ReviewExport, Gate.WellFormed, Strip, Provenance.Covers;
    ExampleIsPilot();
    ExamplePreview();
    ExampleCovered();
    ExampleFromTable();
    Population.ExportIsWellFormed(draw, repr, ExampleResults(), seed, provenance);
    var s, rules := ExamplePilot(), ExampleRules();
    var preview := PreviewAll(rules, s).value;
    PreviewIsReady(rules, true, s, preview);
    PuttingBackUndoes(s, preview, 1);
    Appended(s, [Rescore(preview), Foreign(UpdateJob(1, ExampleRow(1)))], Rescore(preview));
    WrittenStores(s, preview, 1);
  }
}
