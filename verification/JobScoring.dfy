/** The deterministic scorer of `app/agents/job_scorer.py`, with
    `app/agents/data_confidence.py` and `app/agents/evidence_cardinality_classifier.py`,
    in exact arithmetic. */
module JobScoring {
  import opened PythonText

  // ---------------------------------------------------------------- skill names

  /** `ALIASES.get(name, name.replace(" ", "-"))` */
  function Canonical(name: string): string {
    if name == "fast api" || name == "fast-api" then "fastapi"
    else if name == "postgres" || name == "postgresql" then "postgresql"
    else if name == "mongo" || name == "mongo db" then "mongodb"
    else if name == "ci/cd" || name == "ci cd" then "cicd"
    else if name == "github actions" then "github-actions"
    else if name == "rest api" || name == "rest-api" then "rest"
    else Dashed(name)
  }

  /** `name.replace(" ", "-")` */
  function Dashed(name: string): (r: string)
    ensures |r| == |name| && forall i :: 0 <= i < |name| ==> r[i] == if name[i] == ' ' then '-' else name[i]
  {
    seq(|name|, i requires 0 <= i < |name| => if name[i] == ' ' then '-' else name[i])
  }

  /** `normalize_skill`; after stripping, collapsing is the substitution of the source. */
  function Normalize(fold: char -> string, value: string): string {
    Canonical(Collapse(Fold(fold, Strip(value))))
  }

  /** What is needed of `casefold`, character by character: its results are its own
      images, words stay words, and lower-case ASCII, '-' and '/' are kept. */
  ghost predicate CaseFolding(fold: char -> string) {
    && FoldsWords(fold)
    && (forall c, i :: 0 <= i < |fold(c)| ==> fold(fold(c)[i]) == [fold(c)[i]])
    && (forall c :: 'a' <= c <= 'z' || c == '-' || c == '/' ==> fold(c) == [c])
  }

  ghost predicate Folded(fold: char -> string, s: string) {
    forall i :: 0 <= i < |s| ==> fold(s[i]) == [s[i]]
  }

  lemma {:induction false} FoldOfFolded(fold: char -> string, s: string)
    requires Folded(fold, s)
    ensures Fold(fold, s) == s
  {
    if s != "" {
      FoldOfFolded(fold, s[..|s| - 1]);
    }
  }

  lemma {:induction false} FoldIsFolded(fold: char -> string, s: string)
    requires CaseFolding(fold)
    ensures Folded(fold, Fold(fold, s))
  {
    if s != "" {
      FoldIsFolded(fold, s[..|s| - 1]);
    }
  }

  lemma {:induction false} CollapseIsFolded(fold: char -> string, s: string)
    requires Folded(fold, s)
    ensures forall i :: 0 <= i < |Collapse(s)| ==> Collapse(s)[i] == ' ' || fold(Collapse(s)[i]) == [Collapse(s)[i]]
    ensures forall i :: 0 <= i < |Collapse(s)| && IsSpace(Collapse(s)[i]) ==> Collapse(s)[i] == ' '
  {
    if s != "" {
      CollapseIsFolded(fold, s[..|s| - 1]);
    }
  }

  lemma {:induction false} CollapseOfWord(s: string)
    requires NoSpaces(s)
    ensures Collapse(s) == s
  {
    hide IsSpace;
    if s != "" {
      CollapseOfWord(s[..|s| - 1]);
    }
  }

  lemma StripOfWord(s: string)
    requires NoSpaces(s)
    ensures Strip(s) == s
  {
    hide IsSpace;
    if s != "" {
      assert !IsSpace(s[|s| - 1]) && !IsSpace(s[0]);
    }
  }

  predicate IsAlias(name: string) {
    name == "fast api" || name == "fast-api" || name == "postgres" || name == "postgresql" || name == "mongo"
    || name == "mongo db" || name == "ci/cd" || name == "ci cd" || name == "github actions" || name == "rest api"
    || name == "rest-api"
  }

  lemma DashedOrigin(name: string, left: string, right: string)
    requires Dashed(name) == left + "-" + right
    requires (forall i :: 0 <= i < |left| ==> left[i] != '-') && (forall i :: 0 <= i < |right| ==> right[i] != '-')
    ensures name == left + "-" + right || name == left + " " + right
  {
    hide Dashed;
    var n, dashed := |left|, Dashed(name);
    assert dashed[n] == '-';
    forall i | 0 <= i < n ensures name[i] == left[i] {
      assert dashed[i] == left[i];
    }
    forall i | n < i < |name| ensures name[i] == right[i - n - 1] {
      assert dashed[i] == right[i - n - 1];
    }
    var rebuilt := left + [name[n]] + right;
    assert |rebuilt| == |name| && forall i :: 0 <= i < |name| ==> rebuilt[i] == name[i];
  }

  lemma DashedSame(name: string, word: string)
    requires Dashed(name) == word && forall i :: 0 <= i < |word| ==> word[i] != '-'
    ensures name == word
  {
    assert forall i :: 0 <= i < |word| ==> name[i] == word[i];
  }

  lemma NoBlank(s: string, t: string, i: nat)
    requires (forall k :: 0 <= k < |s| ==> s[k] != ' ') && i < |t| && t[i] == ' '
    ensures s != t
  {
  }

  lemma DashedIsNoAlias(name: string)
    requires !IsAlias(name)
    ensures !IsAlias(Dashed(name))
  {
    var out := Dashed(name);
    NoBlank(out, "fast api", 4);
    NoBlank(out, "mongo db", 5);
    NoBlank(out, "ci cd", 2);
    NoBlank(out, "github actions", 6);
    NoBlank(out, "rest api", 4);
    if out == "fast-api" {
      DashedOrigin(name, "fast", "api");
    } else if out == "rest-api" {
      DashedOrigin(name, "rest", "api");
    } else if out == "postgres" || out == "postgresql" || out == "mongo" || out == "ci/cd" {
      DashedSame(name, out);
    }
  }

  lemma CanonicalIsSettled(name: string)
    ensures Canonical(Canonical(name)) == Canonical(name)
  {
    if !IsAlias(name) {
      hide Dashed;
      DashedIsNoAlias(name);
      NoDashNeeded(Dashed(name));
      DashedHasNoBlank(name);
    } else {
      AliasesAreSettled();
    }
  }

  lemma DashedHasNoBlank(name: string)
    ensures Dashed(Dashed(name)) == Dashed(name)
  {
  }

  lemma AliasesAreSettled()
    ensures Canonical("fastapi") == "fastapi" && Canonical("postgresql") == "postgresql"
    ensures Canonical("mongodb") == "mongodb" && Canonical("cicd") == "cicd"
    ensures Canonical("github-actions") == "github-actions" && Canonical("rest") == "rest"
  {
    assert Dashed("fastapi") == "fastapi" && Dashed("mongodb") == "mongodb" && Dashed("cicd") == "cicd";
    assert Dashed("github-actions") == "github-actions" && Dashed("rest") == "rest";
  }

  lemma NoDashNeeded(name: string)
    ensures !IsAlias(name) ==> Canonical(name) == Dashed(name)
  {
  }

  lemma LowerIsFolded(fold: char -> string, s: string)
    requires CaseFolding(fold) && forall i :: 0 <= i < |s| ==> 'a' <= s[i] <= 'z' || s[i] == '-'
    ensures Folded(fold, s) && NoSpaces(s)
  {
  }

  lemma CanonicalIsWord(fold: char -> string, name: string)
    requires CaseFolding(fold)
    requires forall i :: 0 <= i < |name| ==> name[i] == ' ' || (fold(name[i]) == [name[i]] && !IsSpace(name[i]))
    ensures Folded(fold, Canonical(name)) && NoSpaces(Canonical(name))
  {
    if IsAlias(name) {
      LowerIsFolded(fold, "fastapi");
      LowerIsFolded(fold, "postgresql");
      LowerIsFolded(fold, "mongodb");
      LowerIsFolded(fold, "cicd");
      LowerIsFolded(fold, "github-actions");
      LowerIsFolded(fold, "rest");
    } else {
      NoDashNeeded(name);
      hide Canonical, IsSpace;
      LowerIsFolded(fold, "-");
      assert "-"[0] == '-';
    }
  }

  /** Normalizing a normalized name changes nothing. */
  lemma NormalizeIdempotent(fold: char -> string, value: string)
    requires CaseFolding(fold)
    ensures Normalize(fold, Normalize(fold, value)) == Normalize(fold, value)
  {
    hide IsSpace, Canonical, Collapse, Fold, Strip, CaseFolding, Folded, NoSpaces;
    var folded := Fold(fold, Strip(value));
    var name := Collapse(folded);
    FoldIsFolded(fold, Strip(value));
    NameCharacters(fold, folded);
    CanonicalIsWord(fold, name);
    var out := Canonical(name);
    StripOfWord(out);
    FoldOfFolded(fold, out);
    CollapseOfWord(out);
    CanonicalIsSettled(name);
  }

  lemma NameCharacters(fold: char -> string, folded: string)
    requires Folded(fold, folded)
    ensures forall i :: 0 <= i < |Collapse(folded)| ==>
      Collapse(folded)[i] == ' ' || (fold(Collapse(folded)[i]) == [Collapse(folded)[i]] && !IsSpace(Collapse(folded)[i]))
  {
    CollapseIsFolded(fold, folded);
  }

  // ---------------------------------------------------------------- evidence

  function Normalized(fold: char -> string, skills: seq<string>): set<string> {
    set k | 0 <= k < |skills| :: Normalize(fold, skills[k])
  }

  /** `unique_evidence_signals`: the distinct names, the blank one apart. */
  function UniqueEvidence(fold: char -> string, must: seq<string>, nice: seq<string>): set<string> {
    Normalized(fold, must + nice) - {""}
  }

  datatype Cardinality = SUFFICIENT | LOW_CARDINALITY

  const MINIMUM_SIGNALS := 2

  function ClassifyEvidence(fold: char -> string, must: seq<string>, nice: seq<string>): Cardinality {
    if |UniqueEvidence(fold, must, nice)| < MINIMUM_SIGNALS then LOW_CARDINALITY else SUFFICIENT
  }

  lemma NormalizedAgain(fold: char -> string, skills: seq<string>, names: seq<string>)
    requires CaseFolding(fold) && (set name | name in names) == Normalized(fold, skills)
    ensures Normalized(fold, names) == Normalized(fold, skills)
  {
    hide Normalize, CaseFolding;
    forall k | 0 <= k < |names| ensures Normalize(fold, names[k]) == names[k] {
      assert names[k] in Normalized(fold, skills);
      var j :| 0 <= j < |skills| && names[k] == Normalize(fold, skills[j]);
      NormalizeIdempotent(fold, skills[j]);
    }
    assert forall k :: 0 <= k < |names| ==> names[k] in (set name | name in names);
    forall name | name in Normalized(fold, skills) ensures name in Normalized(fold, names) {
      assert name in (set name | name in names);
      var k :| 0 <= k < |names| && names[k] == name;
      assert Normalize(fold, names[k]) == name;
    }
  }

  /** Counting evidence over the resolved, already normalized lists of a scored job
      gives the same set as over the job's own lists: must and nice united. */
  lemma EvidenceOfResolved(fold: char -> string, must: seq<string>, nice: seq<string>, resolvedMust: seq<string>,
                           resolvedNice: seq<string>)
    requires CaseFolding(fold)
    requires (set name | name in resolvedMust) == Normalized(fold, must)
    requires (set name | name in resolvedNice) == Normalized(fold, nice)
    ensures UniqueEvidence(fold, resolvedMust, resolvedNice) == Normalized(fold, must) + Normalized(fold, nice) - {""}
    ensures ClassifyEvidence(fold, resolvedMust, resolvedNice) == ClassifyEvidence(fold, must, nice)
  {
    hide Normalize, CaseFolding;
    NormalizedAgain(fold, must, resolvedMust);
    NormalizedAgain(fold, nice, resolvedNice);
    NormalizedOfSum(fold, resolvedMust, resolvedNice);
    NormalizedOfSum(fold, must, nice);
  }

  lemma NormalizedOfSum(fold: char -> string, a: seq<string>, b: seq<string>)
    ensures Normalized(fold, a + b) == Normalized(fold, a) + Normalized(fold, b)
  {
    hide Normalize;
    var all := a + b;
    forall name | name in Normalized(fold, a) + Normalized(fold, b) ensures name in Normalized(fold, all) {
      if name in Normalized(fold, a) {
        var k :| 0 <= k < |a| && name == Normalize(fold, a[k]);
        assert all[k] == a[k];
      } else {
        var k :| 0 <= k < |b| && name == Normalize(fold, b[k]);
        assert all[|a| + k] == b[k];
      }
    }
  }

  // ---------------------------------------------------------------- data confidence, in hundredths

  const RICH_LENGTH := 2000
  const MEDIUM_LENGTH := 500
  const MAX_CONFIDENCE := 97

  function DescriptionBase(length: nat): int {
    if length == 0 then 10 else if length < MEDIUM_LENGTH then 30 else if length < RICH_LENGTH then 55 else 75
  }

  function SkillsModifier(count: nat): int {
    if count == 0 then -20 else if count < 3 then 0 else if count < 5 then 10 else 18
  }

  /** `calculate_data_confidence`: 0 to 97 hundredths. */
  function DataConfidence(fold: char -> string, description: string, skills: set<string>): (confidence: int)
    ensures 0 <= confidence <= MAX_CONFIDENCE
  {
    var names := set skill | skill in skills && Strip(skill) != "" :: Fold(fold, Strip(skill));
    var sum := DescriptionBase(|Strip(description)|) + SkillsModifier(|names|);
    if sum < 0 then 0 else if sum > MAX_CONFIDENCE then MAX_CONFIDENCE else sum
  }

  // ---------------------------------------------------------------- the score

  datatype Job = Job(title: string, description: string, skills: seq<string>, must: seq<string>, nice: seq<string>)

  datatype Recommendation = APPLY | MAYBE | SKIP | NEEDS_ENRICHMENT

  const MINIMUM_CONFIDENCE := 45
  const MINIMUM_MUST_SIGNALS := 2

  /** `round` of a nonnegative real: to the nearest integer, to the even one at a tie. */
  function Round(x: real): int {
    var below := x.Floor;
    var rest := x - below as real;
    if rest < 0.5 || (rest == 0.5 && below % 2 == 0) then below else below + 1
  }

  function Share(part: set<string>, whole: set<string>): real {
    if whole == {} then 0.5 else |part * whole| as real / |whole| as real
  }

  /** The share of the profile's skills the text mentions; `mentions` searches text. */
  function DescriptionShare(profile: set<string>, mentions: string -> bool): real {
    var hits := set skill | skill in profile && mentions(skill);
    if profile == {} then 0.0 else |hits| as real / |profile| as real
  }

  function RawScore(profile: set<string>, must: set<string>, nice: set<string>, mentions: string -> bool): real {
    Share(profile, must) * 0.70 + Share(profile, nice) * 0.20 + DescriptionShare(profile, mentions) * 0.10
  }

  datatype Scored = Scored(score: int, recommendation: Recommendation, confidence: int, matchedMust: set<string>,
                           missingMust: set<string>)

  function Recommend(score: int, must: set<string>, missing: set<string>, mustShare: real, confidence: int): Recommendation {
    if confidence < MINIMUM_CONFIDENCE then NEEDS_ENRICHMENT
    else if missing != {} && mustShare < 0.6 then SKIP
    else if score >= 80 && |must| < MINIMUM_MUST_SIGNALS then MAYBE
    else if score >= 80 then APPLY
    else if score >= 60 then MAYBE
    else SKIP
  }

  /** `JobScorer.score`. `mentions(job, skill)` is the search of the source in title and
      description; it does not see the skill lists. */
  function Score(fold: char -> string, mentions: (string, string, string) -> bool, profile: set<string>, job: Job): Scored {
    var must, nice := Normalized(fold, job.must), Normalized(fold, job.nice);
    var score := Round(RawScore(profile, must, nice, skill => mentions(job.title, job.description, skill)) * 100.0);
    var confidence := DataConfidence(fold, job.description, Normalized(fold, job.skills) + must + nice);
    Scored(score, Recommend(score, must, must - profile, Share(profile, must), confidence), confidence,
           must * profile, must - profile)
  }

  // ---------------------------------------------------------------- what the score promises

  /** Jobs that differ only in their unclassified skills have the same score, and their
      recommendations differ only when one of them lacks data. */
  lemma UnclassifiedSkillsDecideNothing(fold: char -> string, mentions: (string, string, string) -> bool,
                                        profile: set<string>, a: Job, b: Job)
    requires b == a.(skills := b.skills)
    ensures var x, y := Score(fold, mentions, profile, a), Score(fold, mentions, profile, b);
      && x.score == y.score
      && (x.recommendation == y.recommendation
          || x.recommendation == NEEDS_ENRICHMENT || y.recommendation == NEEDS_ENRICHMENT)
  {
    hide Normalized, RawScore, Share, Round, DataConfidence;
  }

  lemma ShareBounds(part: set<string>, whole: set<string>)
    ensures 0.0 <= Share(part, whole) <= 1.0
  {
    if whole != {} {
      CountInside(part * whole, whole);
      FractionBounds(|part * whole|, |whole|);
    }
  }

  lemma CountInside(part: set<string>, whole: set<string>)
    requires part <= whole
    ensures |part| <= |whole|
  {
    assert whole == part + (whole - part);
  }

  lemma FractionBounds(a: nat, b: nat)
    requires a <= b && b > 0
    ensures 0.0 <= a as real / b as real <= 1.0
  {
  }

  lemma DescriptionShareBounds(profile: set<string>, mentions: string -> bool)
    ensures 0.0 <= DescriptionShare(profile, mentions) <= 1.0
  {
    var hits := set skill | skill in profile && mentions(skill);
    if profile != {} {
      CountInside(hits, profile);
      FractionBounds(|hits|, |profile|);
    }
  }

  lemma RoundBounds(x: real)
    ensures x - 0.5 <= Round(x) as real <= x + 0.5
  {
  }

  /** The score lies between 0 and 100; without must-haves it is at most 65. */
  lemma ScoreBounds(fold: char -> string, mentions: (string, string, string) -> bool, profile: set<string>, job: Job)
    ensures 0 <= Score(fold, mentions, profile, job).score <= 100
    ensures job.must == [] ==> Score(fold, mentions, profile, job).score <= 65
  {
    hide Normalize, DataConfidence, Share, DescriptionShare, Round, Recommend;
    var must, nice := Normalized(fold, job.must), Normalized(fold, job.nice);
    var search := skill => mentions(job.title, job.description, skill);
    ShareBounds(profile, must);
    ShareBounds(profile, nice);
    DescriptionShareBounds(profile, search);
    RoundBounds(RawScore(profile, must, nice, search) * 100.0);
    if job.must == [] {
      assert must == {};
      NoMustShare(profile);
    }
  }

  lemma NoMustShare(profile: set<string>)
    ensures Share(profile, {}) == 0.5
  {
  }

  /** APPLY is based on at least two must-haves, more than 70 percent of them matched. */
  lemma ApplyNeedsEvidence(fold: char -> string, mentions: (string, string, string) -> bool, profile: set<string>, job: Job)
    requires Score(fold, mentions, profile, job).recommendation == APPLY
    ensures var must := Normalized(fold, job.must);
      |must| >= 2 && 100 * |must * profile| > 70 * |must|
  {
    hide Normalize, DataConfidence, DescriptionShare, Round, Normalized;
    var must, nice := Normalized(fold, job.must), Normalized(fold, job.nice);
    var search := skill => mentions(job.title, job.description, skill);
    ShareBounds(profile, nice);
    DescriptionShareBounds(profile, search);
    var raw := RawScore(profile, must, nice, search);
    RoundBounds(raw * 100.0);
    assert raw * 100.0 >= 79.5;
    MoreThanShare(profile, must);
  }

  lemma MoreThanShare(profile: set<string>, must: set<string>)
    requires must != {}
    ensures Share(profile, must) > 0.7 ==> 100 * |must * profile| > 70 * |must|
  {
    assert profile * must == must * profile;
    if Share(profile, must) > 0.7 {
      FractionAbove(|must * profile|, |must|);
    }
  }

  lemma FractionAbove(a: nat, b: nat)
    requires b > 0 && a as real / b as real > 0.7
    ensures 100 * a > 70 * b
  {
    var q, x, y := a as real / b as real, a as real, b as real;
    assert q * y == x && q > 0.7;
    LargerFactor(q, y);
    assert x > 0.7 * y;
    InHundredths(a, b);
  }

  lemma InHundredths(a: int, b: int)
    requires a as real > 0.7 * b as real
    ensures 100 * a > 70 * b
  {
    var m, n := 10 * a, 7 * b;
    assert m as real == 10.0 * a as real && n as real == 7.0 * b as real;
    assert m as real > n as real;
  }

  lemma LargerFactor(q: real, y: real)
    requires q > 0.7 && y > 0.0
    ensures q * y > 0.7 * y
  {
    assert (q - 0.7) * y > 0.0;
  }

  // ---------------------------------------------------------------- what each number means

  /** The aliases of the source, each with the name it stands for. */
  const ALIASES := map[
    "fast api" := "fastapi", "fast-api" := "fastapi", "postgres" := "postgresql", "postgresql" := "postgresql",
    "mongo" := "mongodb", "mongo db" := "mongodb", "ci/cd" := "cicd", "ci cd" := "cicd",
    "github actions" := "github-actions", "rest api" := "rest", "rest-api" := "rest"]

  /** A folded name is replaced by what it is an alias of, and otherwise gets dashes for blanks. */
  lemma CanonicalMeaning(name: string)
    ensures name in ALIASES ==> Canonical(name) == ALIASES[name]
    ensures name !in ALIASES ==>
      |Canonical(name)| == |name|
      && forall i :: 0 <= i < |name| ==> Canonical(name)[i] == if name[i] == ' ' then '-' else name[i]
  {
  }

  /** Evidence suffices exactly when two different skills are named in either list. */
  lemma SufficientMeaning(fold: char -> string, must: seq<string>, nice: seq<string>)
    ensures ClassifyEvidence(fold, must, nice) == SUFFICIENT <==> TwoSignals(fold, must + nice)
  {
    hide Normalize;
    var signals, all := UniqueEvidence(fold, must, nice), must + nice;
    if |signals| >= 2 {
      var a :| a in signals;
      assert |signals - {a}| >= 1;
      var b :| b in signals - {a};
      var i :| 0 <= i < |all| && Normalize(fold, all[i]) == a;
      var j :| 0 <= j < |all| && Normalize(fold, all[j]) == b;
      assert TwoSignals(fold, all);
    }
    if TwoSignals(fold, all) {
      var i, j :| 0 <= i < |all| && 0 <= j < |all| && Normalize(fold, all[i]) != Normalize(fold, all[j])
        && Normalize(fold, all[i]) != "" && Normalize(fold, all[j]) != "";
      var two := {Normalize(fold, all[i]), Normalize(fold, all[j])};
      assert two <= signals;
      CountInside(two, signals);
    }
  }

  ghost predicate TwoSignals(fold: char -> string, skills: seq<string>) {
    exists i, j :: 0 <= i < |skills| && 0 <= j < |skills| && Normalize(fold, skills[i]) != Normalize(fold, skills[j])
      && Normalize(fold, skills[i]) != "" && Normalize(fold, skills[j]) != ""
  }

  /** The distinct skills that are not blank. */
  function DistinctNames(fold: char -> string, skills: set<string>): set<string> {
    set skill | skill in skills && Strip(skill) != "" :: Fold(fold, Strip(skill))
  }

  /** The confidence for a description of this length and so many distinct skills: the
      rows are empty, below 500, below 2000, longer; the columns none, 1 to 2, 3 to 4, more. */
  function ConfidenceTable(length: nat, names: nat): int {
    var column := if names == 0 then 0 else if names <= 2 then 1 else if names <= 4 then 2 else 3;
    if length == 0 then [0, 10, 20, 28][column]
    else if length <= 499 then [10, 30, 40, 48][column]
    else if length <= 1999 then [35, 55, 65, 73][column]
    else [55, 75, 85, 93][column]
  }

  /** The confidence is that of the table; the documented cap of 97 never applies. */
  lemma ConfidenceMeaning(fold: char -> string, description: string, skills: set<string>)
    ensures DataConfidence(fold, description, skills)
         == ConfidenceTable(|Strip(description)|, |DistinctNames(fold, skills)|)
    ensures DataConfidence(fold, description, skills) <= 93
  {
    hide Strip, Fold;
    assert DistinctNames(fold, skills) == set skill | skill in skills && Strip(skill) != "" :: Fold(fold, Strip(skill));
  }

  /** Below 45 hundredths: no description, a short one with less than five skills, or one
      below 2000 characters with none. */
  predicate TooLittle(length: nat, names: nat) {
    length == 0 || (length < 500 && names < 5) || (length < 2000 && names == 0)
  }

  /** Exact rational of matched requirements; one half where nothing is required. */
  ghost predicate IsShare(share: real, matched: nat, required: nat) {
    if required == 0 then share == 0.5 else share * required as real == matched as real
  }

  /** The nearest integer, the even one at a tie. */
  ghost predicate NearestEven(x: real, n: int) {
    && n as real - 0.5 <= x <= n as real + 0.5
    && (x == n as real - 0.5 || x == n as real + 0.5 ==> n % 2 == 0)
  }

  lemma RoundMeaning(x: real)
    ensures NearestEven(x, Round(x))
  {
  }

  /** The score: 70 parts matched must-haves, 20 parts matched nice-to-haves, 10 parts
      profile skills found in the text. */
  ghost predicate IsScore(score: int, matchedMust: nat, must: nat, matchedNice: nat, nice: nat, hits: nat, profile: nat) {
    exists m, n, d ::
      && IsShare(m, matchedMust, must) && IsShare(n, matchedNice, nice)
      && IsPart(d, hits, profile) && Weighs(m, n, d, score)
  }

  ghost predicate IsPart(d: real, hits: nat, profile: nat) {
    if profile == 0 then d == 0.0 else d * profile as real == hits as real
  }

  ghost predicate Weighs(m: real, n: real, d: real, score: int) {
    NearestEven(70.0 * m + 20.0 * n + 10.0 * d, score)
  }

  lemma ShareMeaning(part: set<string>, whole: set<string>)
    ensures IsShare(Share(part, whole), |part * whole|, |whole|)
  {
    if whole != {} {
      Quotient(|part * whole|, |whole|);
    }
  }

  lemma Quotient(a: nat, b: nat)
    requires b > 0
    ensures (a as real / b as real) * b as real == a as real
  {
  }

  function Mentioned(mentions: (string, string, string) -> bool, profile: set<string>, job: Job): set<string> {
    set skill | skill in profile && mentions(job.title, job.description, skill)
  }

  /** The score of a job, and the lists of matched and missing must-haves. */
  lemma ScoreMeaning(fold: char -> string, mentions: (string, string, string) -> bool, profile: set<string>, job: Job)
    ensures var x := Score(fold, mentions, profile, job);
      var must, nice := Normalized(fold, job.must), Normalized(fold, job.nice);
      && IsScore(x.score, |profile * must|, |must|, |profile * nice|, |nice|, |Mentioned(mentions, profile, job)|, |profile|)
      && x.matchedMust == must * profile && x.missingMust == must - profile
      && x.confidence == DataConfidence(fold, job.description, Normalized(fold, job.skills) + must + nice)
  {
    hide Normalize, Normalized, DataConfidence, RawScore, Recommend, Round, IsScore;
    var must, nice := Normalized(fold, job.must), Normalized(fold, job.nice);
    var search := skill => mentions(job.title, job.description, skill);
    assert Hits(profile, search) == Mentioned(mentions, profile, job);
    RawScoreMeaning(profile, must, nice, search);
  }

  function Hits(profile: set<string>, search: string -> bool): set<string> {
    set skill | skill in profile && search(skill)
  }

  lemma HitsMeaning(profile: set<string>, search: string -> bool)
    ensures IsPart(DescriptionShare(profile, search), |Hits(profile, search)|, |profile|)
  {
    if profile != {} {
      Quotient(|Hits(profile, search)|, |profile|);
    }
  }

  lemma RawScoreMeaning(profile: set<string>, must: set<string>, nice: set<string>, search: string -> bool)
    ensures IsScore(Round(RawScore(profile, must, nice, search) * 100.0), |profile * must|, |must|, |profile * nice|, |nice|,
                    |Hits(profile, search)|, |profile|)
  {
    hide Share, DescriptionShare, Round, IsShare, IsPart, NearestEven, Hits;
    var m, n, d := Share(profile, must), Share(profile, nice), DescriptionShare(profile, search);
    ShareMeaning(profile, must);
    ShareMeaning(profile, nice);
    HitsMeaning(profile, search);
    Weighted(m, n, d);
    var raw := RawScore(profile, must, nice, search) * 100.0;
    RoundMeaning(raw);
    assert raw == 70.0 * m + 20.0 * n + 10.0 * d;
    hide RawScore;
    assert IsPart(d, |Hits(profile, search)|, |profile|) && Weighs(m, n, d, Round(raw));
  }

  lemma Weighted(m: real, n: real, d: real)
    ensures (m * 0.70 + n * 0.20 + d * 0.10) * 100.0 == 70.0 * m + 20.0 * n + 10.0 * d
  {
  }

  /** Less than 60 percent of the must-haves are matched. */
  predicate LacksMusts(matched: nat, must: nat) {
    10 * matched < 6 * must
  }

  /** When each recommendation is given. */
  lemma RecommendMeaning(fold: char -> string, mentions: (string, string, string) -> bool, profile: set<string>, job: Job)
    ensures var x := Score(fold, mentions, profile, job);
      var must := Normalized(fold, job.must);
      var names := DistinctNames(fold, Normalized(fold, job.skills) + must + Normalized(fold, job.nice));
      var enough := !TooLittle(|Strip(job.description)|, |names|);
      var lacks := LacksMusts(|profile * must|, |must|);
      && (x.recommendation == NEEDS_ENRICHMENT <==> !enough)
      && (x.recommendation == APPLY <==> enough && !lacks && x.score >= 80 && |must| >= 2)
      && (x.recommendation == MAYBE <==>
            enough && !lacks && (60 <= x.score < 80 || (x.score >= 80 && |must| < 2)))
      && (x.recommendation == SKIP <==> enough && (lacks || x.score < 60))
  {
    hide Normalize, Normalized, Strip, Round, RawScore, Share, DistinctNames, DataConfidence;
    var must := Normalized(fold, job.must);
    ConfidenceMeaning(fold, job.description, Normalized(fold, job.skills) + must + Normalized(fold, job.nice));
    LackMeaning(profile, must);
  }

  lemma LackMeaning(profile: set<string>, must: set<string>)
    ensures must - profile != {} && Share(profile, must) < 0.6 <==> LacksMusts(|profile * must|, |must|)
  {
    var matched := profile * must;
    assert must == matched + (must - profile);
    assert |must| == |matched| + |must - profile|;
    if must != {} {
      SixTenths(|matched|, |must|);
    }
  }

  lemma SixTenths(a: nat, b: nat)
    requires b > 0
    ensures a as real / b as real < 0.6 <==> 10 * a < 6 * b
  {
    var q := a as real / b as real;
    Quotient(a, b);
    var x, y := a as real, b as real;
    if q < 0.6 {
      assert (0.6 - q) * y > 0.0;
      assert x < 0.6 * y;
    } else {
      assert (q - 0.6) * y >= 0.0;
      assert x >= 0.6 * y;
    }
    InTenths(a, b);
  }

  lemma InTenths(a: int, b: int)
    ensures a as real < 0.6 * b as real <==> 10 * a < 6 * b
  {
    var m, n := 10 * a, 6 * b;
    assert m as real == 10.0 * a as real && n as real == 6.0 * b as real;
    assert m as real < n as real <==> m < n;
  }
}
