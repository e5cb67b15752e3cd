/** The provenance digest of a preview: `_canonical_provenance_value` and
    `compute_review_provenance` of `scripts/offline_rescore_stage12.py`. */
module ReviewProvenance {
  import opened RescoreApply
  import opened Sorting
  import opened Wrappers

  // ---------------------------------------------------------------- Python values and JSON

  /** A `datetime`: local wall-clock microseconds and, when aware, its UTC offset. */
  datatype Timestamp = Timestamp(micros: int, offset: Option<int>)

  /** A naive timestamp is taken to be in UTC already. */
  function Instant(t: Timestamp): int {
    if t.offset.None? then t.micros else t.micros - t.offset.value
  }

  /** The values the serializer distinguishes. `isSubclass` marks a `str` subclass
      such as a `StrEnum`; `strayKeys` a dict with a key that is not a `str`. */
  datatype Value =
    | Null
    | Bool(truth: bool)
    | Int(number: int)
    | Text(text: string, isSubclass: bool)
    | Finite(magnitude: real, negativeZero: bool)
    | NotFinite
    | Date(at: Timestamp)
    | List(items: seq<Value>)
    | Tuple(items: seq<Value>)
    | Dict(entries: map<string, Value>, strayKeys: bool)
    | Unsupported

  /** JSON as `json.dumps(sort_keys=True)` writes it: an object is a map. */
  datatype Json =
    | JNull
    | JBool(truth: bool)
    | JInt(number: int)
    | JString(text: string)
    | JFloat(magnitude: real, negativeZero: bool)
    | JArray(items: seq<Json>)
    | JObject(members: map<string, Json>)

  predicate Reserved(key: string) {
    key != "" && key[0] == '$'
  }

  const DATETIME_TAG := "$datetime_utc"

  /** `iso` is `isoformat(timespec="microseconds")` of an instant in UTC. A refused
      value (TypeError or ValueError in the source) gives None. */
  function Canonical(iso: int -> string, v: Value): Option<Json>
    decreases v
  {
    match v
    case Null => Some(JNull)
    case Bool(b) => Some(JBool(b))
    case Int(n) => Some(JInt(n))
    case Text(text, _) => Some(JString(text))
    case Finite(x, negativeZero) => Some(JFloat(x, negativeZero))
    case NotFinite => None
    case Date(t) => Some(JObject(map[DATETIME_TAG := JString(iso(Instant(t)))]))
    case List(items) =>
      if forall i :: 0 <= i < |items| ==> Canonical(iso, items[i]).Some?
      then Some(JArray(seq(|items|, i requires 0 <= i < |items| => Canonical(iso, items[i]).value)))
      else None
    case Tuple(items) =>
      if forall i :: 0 <= i < |items| ==> Canonical(iso, items[i]).Some?
      then Some(JArray(seq(|items|, i requires 0 <= i < |items| => Canonical(iso, items[i]).value)))
      else None
    case Dict(entries, strayKeys) =>
      if strayKeys || exists key :: key in entries && Reserved(key) then None
      else if forall key :: key in entries ==> Canonical(iso, entries[key]).Some?
      then Some(JObject(map key | key in entries :: Canonical(iso, entries[key]).value))
      else None
    case Unsupported => None
  }

  predicate IsSequence(v: Value) {
    v.List? || v.Tuple?
  }

  /** The documented identifications: list and tuple, `str` and its subclasses,
      timestamps of one instant; everything else only equals itself. */
  predicate Same(a: Value, b: Value)
    decreases a
  {
    match a
    case Text(text, _) => b.Text? && b.text == text
    case Date(t) => b.Date? && Instant(b.at) == Instant(t)
    case List(items) =>
      IsSequence(b) && |items| == |b.items| && forall i :: 0 <= i < |items| ==> Same(items[i], b.items[i])
    case Tuple(items) =>
      IsSequence(b) && |items| == |b.items| && forall i :: 0 <= i < |items| ==> Same(items[i], b.items[i])
    case Dict(entries, _) =>
      b.Dict? && entries.Keys == b.entries.Keys && forall key :: key in entries ==> Same(entries[key], b.entries[key])
    case _ => a == b
  }

  ghost predicate Injective<A(!new), B>(f: A -> B) {
    forall x, y :: f(x) == f(y) ==> x == y
  }

  lemma SequenceCanonical(iso: int -> string, v: Value)
    requires IsSequence(v) && Canonical(iso, v).Some?
    ensures Canonical(iso, v).value.JArray? && |Canonical(iso, v).value.items| == |v.items|
    ensures forall i :: 0 <= i < |v.items| ==>
      Canonical(iso, v.items[i]) == Some(Canonical(iso, v).value.items[i])
  {
  }

  lemma DictCanonical(iso: int -> string, v: Value)
    requires v.Dict? && Canonical(iso, v).Some?
    ensures Canonical(iso, v).value.JObject? && Canonical(iso, v).value.members.Keys == v.entries.Keys
    ensures forall key :: key in v.entries ==>
      !Reserved(key) && Canonical(iso, v.entries[key]) == Some(Canonical(iso, v).value.members[key])
  {
  }

  /** A tagged timestamp never collides with a caller's dict. */
  lemma DateIsNoDict(iso: int -> string, date: Value, dict: Value)
    requires date.Date? && dict.Dict? && Canonical(iso, dict).Some?
    ensures Canonical(iso, date) != Canonical(iso, dict)
  {
    DictCanonical(iso, dict);
    assert DATETIME_TAG in Canonical(iso, date).value.members;
    assert Reserved(DATETIME_TAG);
  }

  /** Two accepted values have the same canonical form exactly when they are the
      same up to the documented identifications. */
  lemma {:induction false} CanonicalInjective(iso: int -> string, a: Value, b: Value)
    requires Injective(iso) && Canonical(iso, a).Some? && Canonical(iso, b).Some?
    ensures Canonical(iso, a) == Canonical(iso, b) <==> Same(a, b)
    decreases a
  {
    if IsSequence(a) && IsSequence(b) {
      SequenceInjective(iso, a, b);
    } else if a.Dict? && b.Dict? {
      DictInjective(iso, a, b);
    } else if a.Date? && b.Dict? {
      DateIsNoDict(iso, a, b);
    } else if a.Dict? && b.Date? {
      DateIsNoDict(iso, b, a);
    } else if a.Date? && b.Date? {
      DateInjective(iso, a.at, b.at);
    } else {
      OtherInjective(iso, a, b);
    }
  }

  lemma DateInjective(iso: int -> string, a: Timestamp, b: Timestamp)
    requires Injective(iso)
    ensures Canonical(iso, Date(a)) == Canonical(iso, Date(b)) <==> Instant(a) == Instant(b)
  {
    var x, y := Canonical(iso, Date(a)).value, Canonical(iso, Date(b)).value;
    assert x.members[DATETIME_TAG] == JString(iso(Instant(a)));
    assert y.members[DATETIME_TAG] == JString(iso(Instant(b)));
  }

  lemma OtherInjective(iso: int -> string, a: Value, b: Value)
    requires Canonical(iso, a).Some? && Canonical(iso, b).Some?
    requires !(IsSequence(a) && IsSequence(b)) && !(a.Dict? && b.Dict?)
    requires !(a.Date? && b.Dict?) && !(a.Dict? && b.Date?) && !(a.Date? && b.Date?)
    ensures Canonical(iso, a) == Canonical(iso, b) <==> Same(a, b)
  {
  }

  lemma {:induction false} SequenceInjective(iso: int -> string, a: Value, b: Value)
    requires Injective(iso) && Canonical(iso, a).Some? && Canonical(iso, b).Some?
    requires IsSequence(a) && IsSequence(b)
    ensures Canonical(iso, a) == Canonical(iso, b) <==> Same(a, b)
    decreases a, 0
  {
    SequenceCanonical(iso, a);
    SequenceCanonical(iso, b);
    if |a.items| == |b.items| {
      forall i | 0 <= i < |a.items|
        ensures Canonical(iso, a.items[i]) == Canonical(iso, b.items[i]) <==> Same(a.items[i], b.items[i])
      {
        CanonicalInjective(iso, a.items[i], b.items[i]);
      }
      var x, y := Canonical(iso, a).value.items, Canonical(iso, b).value.items;
      if Same(a, b) {
        assert forall i :: 0 <= i < |x| ==> x[i] == y[i];
        assert x == y;
      }
    }
  }

  lemma {:induction false} DictInjective(iso: int -> string, a: Value, b: Value)
    requires Injective(iso) && Canonical(iso, a).Some? && Canonical(iso, b).Some?
    requires a.Dict? && b.Dict?
    ensures Canonical(iso, a) == Canonical(iso, b) <==> Same(a, b)
    decreases a, 0
  {
    DictCanonical(iso, a);
    DictCanonical(iso, b);
    if a.entries.Keys == b.entries.Keys {
      forall key | key in a.entries
        ensures Canonical(iso, a.entries[key]) == Canonical(iso, b.entries[key]) <==> Same(a.entries[key], b.entries[key])
      {
        CanonicalInjective(iso, a.entries[key], b.entries[key]);
      }
      var x, y := Canonical(iso, a).value.members, Canonical(iso, b).value.members;
      if Same(a, b) {
        assert forall key :: key in x.Keys ==> x[key] == y[key];
        assert x == y;
      }
    }
  }

  // ---------------------------------------------------------------- the payload

  const PROVENANCE_VERSION := "stage12-human-review-v2"

  /** One previewed job: the row it was scored from and the previewed result. */
  datatype Previewed = Previewed(id: int, before: Snapshot, after: Outcome)

  function PlainText(text: string): Value {
    Text(text, false)
  }

  function OptionalText(text: Option<string>): Value {
    if text.None? then Null else PlainText(text.value)
  }

  function Texts(texts: seq<string>): (values: seq<Value>)
    ensures |values| == |texts| && forall i :: 0 <= i < |texts| ==> values[i] == PlainText(texts[i])
  {
    seq(|texts|, i requires 0 <= i < |texts| => PlainText(texts[i]))
  }

  function UtcDate(instant: int): Value {
    Date(Timestamp(instant, None))
  }

  /** `input_snapshot()` as a tuple of 17 values. */
  function InputValue(s: Snapshot): Value {
    Tuple([PlainText(s.fingerprint), UtcDate(s.firstSeenAt), UtcDate(s.lastSeenAt), PlainText(s.source),
           PlainText(s.title), PlainText(s.company), PlainText(s.location), PlainText(s.url),
           OptionalText(s.postingType), PlainText(s.description), Tuple(Texts(s.skills)),
           Tuple(Texts(s.mustHaveSkills)), Tuple(Texts(s.niceToHaveSkills)), OptionalText(s.skillSource),
           Int(s.score), PlainText(s.recommendation), Finite(s.dataConfidence, false)])
  }

  function AfterValue(o: Outcome): Value {
    List([Int(o.score), PlainText(o.recommendation), Finite(o.dataConfidence, false)])
  }

  function JobValue(job: Previewed): Value {
    Dict(map["id" := Int(job.id), "input" := InputValue(job.before), "after" := AfterValue(job.after)], false)
  }

  function JobValues(jobs: seq<Previewed>): (values: seq<Value>)
    ensures |values| == |jobs| && forall i :: 0 <= i < |jobs| ==> values[i] == JobValue(jobs[i])
  {
    seq(|jobs|, i requires 0 <= i < |jobs| => JobValue(jobs[i]))
  }

  /** `sorted` of a set of strings: some list of exactly its members. */
  datatype Formats = Formats(
    iso: int -> string, sorted: set<string> -> seq<string>, digest: Json -> string)

  function Members(texts: seq<string>): set<string> {
    set text | text in texts
  }

  ghost predicate Faithful(f: Formats) {
    && Injective(f.iso) && Injective(f.digest)
    && forall texts :: Members(f.sorted(texts)) == texts
  }

  function ContextValue(f: Formats, c: Context): Value {
    Dict(map["candidate_skills" := List(Texts(f.sorted(c.skills))), "target_seniority" := PlainText(c.seniority),
             "target_domain" := PlainText(c.domain), "employment_types" := List(Texts(f.sorted(c.employmentTypes)))],
         false)
  }

  function Payload(f: Formats, context: Context, jobs: seq<Previewed>, seed: int): Value {
    Dict(map["version" := PlainText(PROVENANCE_VERSION), "sample_seed" := Int(seed),
             "context" := ContextValue(f, context), "jobs" := List(JobValues(jobs))], false)
  }

  // ---------------------------------------------------------------- what sameness means for the payload

  lemma SameTexts(a: seq<string>, b: seq<string>)
    ensures Same(Tuple(Texts(a)), Tuple(Texts(b))) <==> a == b
    ensures Same(List(Texts(a)), List(Texts(b))) <==> a == b
  {
    if |a| == |b| {
      assert forall i :: 0 <= i < |a| ==> (Same(Texts(a)[i], Texts(b)[i]) <==> a[i] == b[i]);
    }
  }

  lemma SameSequence(xs: seq<Value>, ys: seq<Value>)
    requires |xs| == |ys|
    ensures Same(Tuple(xs), Tuple(ys)) <==> forall i :: 0 <= i < |xs| ==> Same(xs[i], ys[i])
    ensures Same(List(xs), List(ys)) <==> forall i :: 0 <= i < |xs| ==> Same(xs[i], ys[i])
  {
  }

  lemma SamePlain(a: string, b: string)
    ensures Same(PlainText(a), PlainText(b)) <==> a == b
  {
  }

  lemma SameOptional(a: Option<string>, b: Option<string>)
    ensures Same(OptionalText(a), OptionalText(b)) <==> a == b
  {
  }

  lemma SameDate(a: int, b: int)
    ensures Same(UtcDate(a), UtcDate(b)) <==> a == b
  {
  }

  lemma SameInt(a: int, b: int)
    ensures Same(Int(a), Int(b)) <==> a == b
  {
  }

  lemma SameFinite(a: real, b: real)
    ensures Same(Finite(a, false), Finite(b, false)) <==> a == b
  {
  }

  lemma SameIdentity(a: Snapshot, b: Snapshot)
    ensures (forall i :: 0 <= i < 9 ==> Same(InputValue(a).items[i], InputValue(b).items[i])) <==>
      && a.fingerprint == b.fingerprint && a.firstSeenAt == b.firstSeenAt && a.lastSeenAt == b.lastSeenAt
      && a.source == b.source && a.title == b.title && a.company == b.company && a.location == b.location
      && a.url == b.url && a.postingType == b.postingType
  {
    hide Same, PlainText, UtcDate, OptionalText, Texts;
    SamePlain(a.fingerprint, b.fingerprint);
    SameDate(a.firstSeenAt, b.firstSeenAt);
    SameDate(a.lastSeenAt, b.lastSeenAt);
    SamePlain(a.source, b.source);
    SamePlain(a.title, b.title);
    SamePlain(a.company, b.company);
    SamePlain(a.location, b.location);
    SamePlain(a.url, b.url);
    SameOptional(a.postingType, b.postingType);
    var x, y := InputValue(a).items, InputValue(b).items;
    if forall i :: 0 <= i < 9 ==> Same(x[i], y[i]) {
      assert Same(x[0], y[0]) && Same(x[1], y[1]) && Same(x[2], y[2]) && Same(x[3], y[3]) && Same(x[4], y[4]);
      assert Same(x[5], y[5]) && Same(x[6], y[6]) && Same(x[7], y[7]) && Same(x[8], y[8]);
    }
  }

  lemma SameContent(a: Snapshot, b: Snapshot)
    ensures (forall i :: 9 <= i < 17 ==> Same(InputValue(a).items[i], InputValue(b).items[i])) <==>
      && a.description == b.description && a.skills == b.skills && a.mustHaveSkills == b.mustHaveSkills
      && a.niceToHaveSkills == b.niceToHaveSkills && a.skillSource == b.skillSource && a.score == b.score
      && a.recommendation == b.recommendation && a.dataConfidence == b.dataConfidence
  {
    hide Same, PlainText, UtcDate, OptionalText, Texts;
    SamePlain(a.description, b.description);
    SameTexts(a.skills, b.skills);
    SameTexts(a.mustHaveSkills, b.mustHaveSkills);
    SameTexts(a.niceToHaveSkills, b.niceToHaveSkills);
    SameOptional(a.skillSource, b.skillSource);
    SameInt(a.score, b.score);
    SamePlain(a.recommendation, b.recommendation);
    SameFinite(a.dataConfidence, b.dataConfidence);
    var x, y := InputValue(a).items, InputValue(b).items;
    if forall i :: 9 <= i < 17 ==> Same(x[i], y[i]) {
      assert Same(x[9], y[9]) && Same(x[10], y[10]) && Same(x[11], y[11]) && Same(x[12], y[12]);
      assert Same(x[13], y[13]) && Same(x[14], y[14]) && Same(x[15], y[15]) && Same(x[16], y[16]);
    }
  }

  lemma SameInput(a: Snapshot, b: Snapshot)
    ensures Same(InputValue(a), InputValue(b)) <==> a == b
  {
    SameIdentity(a, b);
    SameContent(a, b);
    SameSequence(InputValue(a).items, InputValue(b).items);
    InputLength(a);
    InputLength(b);
    hide Same, InputValue;
  }

  lemma InputLength(s: Snapshot)
    ensures InputValue(s).Tuple? && |InputValue(s).items| == 17
  {
  }

  lemma SameAfter(a: Outcome, b: Outcome)
    ensures Same(AfterValue(a), AfterValue(b)) <==> a == b
  {
    hide Same, PlainText;
    SameInt(a.score, b.score);
    SamePlain(a.recommendation, b.recommendation);
    SameFinite(a.dataConfidence, b.dataConfidence);
    var x, y := AfterValue(a).items, AfterValue(b).items;
    SameSequence(x, y);
    if forall i :: 0 <= i < |x| ==> Same(x[i], y[i]) {
      assert Same(x[0], y[0]) && Same(x[1], y[1]) && Same(x[2], y[2]);
    }
  }

  lemma SameDict(a: map<string, Value>, b: map<string, Value>)
    requires a.Keys == b.Keys
    ensures Same(Dict(a, false), Dict(b, false)) <==> forall key :: key in a ==> Same(a[key], b[key])
  {
  }

  lemma SameJob(a: Previewed, b: Previewed)
    ensures Same(JobValue(a), JobValue(b)) <==> a == b
  {
    hide Same, InputValue, AfterValue;
    var x, y := JobValue(a).entries, JobValue(b).entries;
    assert x.Keys == y.Keys;
    SameDict(x, y);
    SameInput(a.before, b.before);
    SameAfter(a.after, b.after);
    SameInt(a.id, b.id);
    if Same(JobValue(a), JobValue(b)) {
      assert Same(x["id"], y["id"]) && Same(x["input"], y["input"]) && Same(x["after"], y["after"]);
    }
  }

  lemma SameJobs(a: seq<Previewed>, b: seq<Previewed>)
    ensures Same(List(JobValues(a)), List(JobValues(b))) <==> a == b
  {
    hide JobValue;
    if |a| == |b| {
      forall i | 0 <= i < |a| ensures Same(JobValues(a)[i], JobValues(b)[i]) <==> a[i] == b[i] {
        SameJob(a[i], b[i]);
      }
    }
  }

  lemma SameContext(f: Formats, a: Context, b: Context)
    requires Faithful(f)
    ensures Same(ContextValue(f, a), ContextValue(f, b)) <==> a == b
  {
    hide Same, PlainText, Texts;
    var x, y := ContextValue(f, a).entries, ContextValue(f, b).entries;
    assert x.Keys == y.Keys;
    SameDict(x, y);
    SameTexts(f.sorted(a.skills), f.sorted(b.skills));
    SameTexts(f.sorted(a.employmentTypes), f.sorted(b.employmentTypes));
    SamePlain(a.seniority, b.seniority);
    SamePlain(a.domain, b.domain);
    assert Members(f.sorted(a.skills)) == a.skills && Members(f.sorted(b.skills)) == b.skills;
    assert Members(f.sorted(a.employmentTypes)) == a.employmentTypes;
    assert Members(f.sorted(b.employmentTypes)) == b.employmentTypes;
    if Same(ContextValue(f, a), ContextValue(f, b)) {
      assert Same(x["candidate_skills"], y["candidate_skills"]) && Same(x["target_seniority"], y["target_seniority"])
        && Same(x["target_domain"], y["target_domain"]) && Same(x["employment_types"], y["employment_types"]);
    }
  }

  lemma SamePayload(f: Formats, c: Context, jobs: seq<Previewed>, seed: int, d: Context, others: seq<Previewed>, n: int)
    requires Faithful(f)
    ensures Same(Payload(f, c, jobs, seed), Payload(f, d, others, n)) <==> c == d && jobs == others && seed == n
  {
    hide Same, ContextValue, JobValues, PlainText, Faithful;
    var x, y := Payload(f, c, jobs, seed).entries, Payload(f, d, others, n).entries;
    assert x.Keys == y.Keys;
    SameDict(x, y);
    SameContext(f, c, d);
    SameJobs(jobs, others);
    SameInt(seed, n);
    SamePlain(PROVENANCE_VERSION, PROVENANCE_VERSION);
    if Same(Payload(f, c, jobs, seed), Payload(f, d, others, n)) {
      assert Same(x["context"], y["context"]) && Same(x["jobs"], y["jobs"]) && Same(x["sample_seed"], y["sample_seed"]);
    }
  }

  // ---------------------------------------------------------------- the payload is accepted

  lemma AcceptedSequence(iso: int -> string, items: seq<Value>)
    requires forall i :: 0 <= i < |items| ==> Canonical(iso, items[i]).Some?
    ensures Canonical(iso, Tuple(items)).Some? && Canonical(iso, List(items)).Some?
  {
  }

  lemma AcceptedDict(iso: int -> string, entries: map<string, Value>)
    requires forall key :: key in entries ==> !Reserved(key) && Canonical(iso, entries[key]).Some?
    ensures Canonical(iso, Dict(entries, false)).Some?
  {
  }

  lemma AcceptedInput(iso: int -> string, before: Snapshot)
    ensures Canonical(iso, InputValue(before)).Some?
  {
    AcceptedSequence(iso, Texts(before.skills));
    AcceptedSequence(iso, Texts(before.mustHaveSkills));
    AcceptedSequence(iso, Texts(before.niceToHaveSkills));
    AcceptedSequence(iso, InputValue(before).items);
  }

  lemma AcceptedJob(iso: int -> string, job: Previewed)
    ensures Canonical(iso, JobValue(job)).Some?
  {
    hide InputValue;
    AcceptedInput(iso, job.before);
    AcceptedSequence(iso, AfterValue(job.after).items);
    AcceptedDict(iso, JobValue(job).entries);
  }

  /** The payload of a preview is never refused. */
  lemma AcceptedPayload(f: Formats, context: Context, jobs: seq<Previewed>, seed: int)
    ensures Canonical(f.iso, Payload(f, context, jobs, seed)).Some?
  {
    AcceptedSequence(f.iso, Texts(f.sorted(context.skills)));
    AcceptedSequence(f.iso, Texts(f.sorted(context.employmentTypes)));
    AcceptedDict(f.iso, ContextValue(f, context).entries);
    forall i | 0 <= i < |jobs| ensures Canonical(f.iso, JobValues(jobs)[i]).Some? {
      AcceptedJob(f.iso, jobs[i]);
    }
    AcceptedSequence(f.iso, JobValues(jobs));
    hide ContextValue, JobValues;
    AcceptedDict(f.iso, Payload(f, context, jobs, seed).entries);
  }

  // ---------------------------------------------------------------- the digest

  function PreviewedId(job: Previewed): int {
    job.id
  }

  /** `compute_review_provenance`; the payload is never refused. */
  function Provenance(f: Formats, context: Context, results: seq<Previewed>, seed: int): string {
    AcceptedPayload(f, context, SortBy(PreviewedId, results), seed);
    f.digest(Canonical(f.iso, Payload(f, context, SortBy(PreviewedId, results), seed)).value)
  }

  /** The digest names one preview: it is the same exactly for the same context,
      seed, and (the order of the results apart) jobs, inputs and outcomes. */
  lemma ProvenanceNamesOnePreview(f: Formats, c: Context, results: seq<Previewed>, seed: int,
                                  d: Context, others: seq<Previewed>, n: int)
    requires Faithful(f)
    requires DistinctKeys(PreviewedId, results) && DistinctKeys(PreviewedId, others)
    ensures Provenance(f, c, results, seed) == Provenance(f, d, others, n)
      <==> c == d && seed == n && multiset(results) == multiset(others)
  {
    hide Canonical, Payload, Same, SortBy, DistinctKeys;
    var x, y := SortBy(PreviewedId, results), SortBy(PreviewedId, others);
    AcceptedPayload(f, c, x, seed);
    AcceptedPayload(f, d, y, n);
    CanonicalInjective(f.iso, Payload(f, c, x, seed), Payload(f, d, y, n));
    SamePayload(f, c, x, seed, d, y, n);
    SortIgnoresOrder(PreviewedId, results, others);
  }

  /** What apply is given by a preview of the database with these results. */
  ghost predicate Covers(preview: Preview, results: seq<Previewed>) {
    && (forall job :: job in results ==>
          job.id in preview.expected && preview.expected[job.id] == Expected(job.before, job.after))
    && (forall id :: id in preview.expected ==> exists job :: job in results && job.id == id)
  }

  /** A review approved for one digest authorizes one preview only: previews with
      the same provenance make apply expect the same rows and scores. */
  lemma SameProvenanceSamePreview(f: Formats, p: Preview, results: seq<Previewed>, seed: int,
                                  q: Preview, others: seq<Previewed>, n: int)
    requires Faithful(f) && Covers(p, results) && Covers(q, others)
    requires DistinctKeys(PreviewedId, results) && DistinctKeys(PreviewedId, others)
    requires Provenance(f, p.context, results, seed) == Provenance(f, q.context, others, n)
    ensures p == q && seed == n
  {
    ProvenanceNamesOnePreview(f, p.context, results, seed, q.context, others, n);
    SameElements(results, others);
    hide Provenance, DistinctKeys;
    CoveredKeys(p, results, q, others);
    CoveredKeys(q, others, p, results);
    forall id | id in p.expected ensures p.expected[id] == q.expected[id] {
      var job :| job in results && job.id == id;
      assert job in others;
    }
    SameRows(p.expected, q.expected);
  }

  lemma CoveredKeys(p: Preview, results: seq<Previewed>, q: Preview, others: seq<Previewed>)
    requires Covers(p, results) && Covers(q, others)
    requires forall job :: job in results ==> job in others
    ensures p.expected.Keys <= q.expected.Keys
  {
    forall id | id in p.expected ensures id in q.expected {
      var job :| job in results && job.id == id;
      assert job in others;
    }
  }

  lemma SameElements(a: seq<Previewed>, b: seq<Previewed>)
    requires multiset(a) == multiset(b)
    ensures forall job :: job in a <==> job in b
  {
    assert forall job :: job in a <==> job in multiset(a);
  }
}
