/** The human review gate of `scripts/offline_rescore_stage12.py`: a reviewed
    CSV must be a permutation of the regenerated export, fully approved. */
module ReviewGate {
  import opened Decimal
  import opened Permutations
  import opened PythonText
  import opened Sorting
  import opened Wrappers

  datatype GateError =
    | Malformed
    | ExpectedPopulation
    | ProvenanceMismatch
    | DuplicateIdentity
    | UnexpectedRow
    | MissingRow
    | Incomplete
    | InvalidValue
    | Rejected
    | Unresolved

  // ---------------------------------------------------------------- the schema

  /** `HUMAN_REVIEW_COLUMNS`. */
  datatype Column =
    | JobId | Fingerprint | Title | Company | Location | PostingType | Score | Recommendation | MatchedSkills
    | MissingMustHave | BaseScore | BaseRecommendation | ResolvedMustHave | ResolvedNiceToHave | MatchedMustHave
    | MatchedOptional | UniqueEvidenceCount | EvidenceCardinality | RoleRelevance | SeniorityClassification
    | PostingClassification | DataConfidence | GateReason | DescriptionOrUrl | ReviewProvenance
    | HumanRelevant | HumanDecision | HumanNotes

  predicate Immutable(c: Column) {
    !c.HumanRelevant? && !c.HumanDecision? && !c.HumanNotes?
  }

  /** A value the exporter hands to the CSV writer; a float comes with its `repr`. */
  datatype Cell = NoneCell | BoolCell(truth: bool) | IntCell(number: int) | FloatCell(repr: string) | TextCell(text: string)

  function CsvCell(cell: Cell): string {
    match cell
    case NoneCell => ""
    case BoolCell(b) => if b then "True" else "False"
    case IntCell(n) => IntText(n)
    case FloatCell(repr) => repr
    case TextCell(text) => text
  }

  /** The text is how the CSV writer writes the value. */
  predicate Writes(cell: Cell, text: string) {
    && (cell.NoneCell? ==> text == "")
    && (cell.BoolCell? ==> text == if cell.truth then "True" else "False")
    && (cell.IntCell? ==> text == IntText(cell.number))
    && (cell.FloatCell? ==> text == cell.repr)
    && (cell.TextCell? ==> text == cell.text)
  }

  lemma CellText(cell: Cell, text: string)
    ensures text == CsvCell(cell) <==> Writes(cell, text)
  {
  }

  type Row = map<Column, string>
  type ExpectedRow = map<Column, Cell>

  // ---------------------------------------------------------------- job ids

  const MAX_JOB_ID := 2_147_483_647
  const MAX_JOB_ID_DIGITS := 10

  function ParseJobId(raw: string): Option<nat> {
    if |raw| <= MAX_JOB_ID_DIGITS && IsCanonical(raw) && 1 <= Value(raw) <= MAX_JOB_ID
    then Some(Value(raw)) else None
  }

  lemma Power10Of10()
    ensures Power10(10) == 10_000_000_000
  {
    assert Power10(2) == 100;
    assert Power10(4) == 10_000;
    assert Power10(6) == 1_000_000;
    assert Power10(8) == 100_000_000;
  }

  /** The submitted text is accepted exactly when it is how Python writes an id in range. */
  lemma ParseJobIdExact(raw: string, id: nat)
    ensures ParseJobId(raw) == Some(id) <==> 1 <= id <= MAX_JOB_ID && raw == IntText(id)
  {
    if ParseJobId(raw) == Some(id) {
      CanonicalIsText(raw);
    }
    if 1 <= id <= MAX_JOB_ID && raw == IntText(id) {
      TextIsCanonical(id);
      ValueAtLeast(raw);
      Power10Of10();
      if |raw| > 10 {
        PowerGrows(10, |raw| - 1);
      }
    }
  }

  // ---------------------------------------------------------------- the expected population

  predicate WellFormedRow(e: ExpectedRow) {
    && (forall c: Column :: c in e)
    && e[JobId].IntCell? && e[JobId].number > 0
    && e[Fingerprint].TextCell? && Strip(e[Fingerprint].text) != ""
  }

  predicate AllWellFormed(expected: seq<ExpectedRow>) {
    forall i :: 0 <= i < |expected| ==> WellFormedRow(expected[i])
  }

  function IdOf(e: ExpectedRow): int
    requires WellFormedRow(e)
  {
    e[JobId].number
  }

  function FingerprintOf(e: ExpectedRow): string
    requires WellFormedRow(e)
  {
    e[Fingerprint].text
  }

  function ProvenanceOf(e: ExpectedRow): Cell
    requires WellFormedRow(e)
  {
    e[ReviewProvenance]
  }

  function ExpectedIds(expected: seq<ExpectedRow>): (ids: seq<int>)
    requires AllWellFormed(expected)
    ensures |ids| == |expected|
    ensures forall i :: 0 <= i < |ids| ==> ids[i] == IdOf(expected[i])
  {
    seq(|expected|, i requires 0 <= i < |expected| => IdOf(expected[i]))
  }

  function ExpectedFingerprints(expected: seq<ExpectedRow>): (fingerprints: seq<string>)
    requires AllWellFormed(expected)
    ensures |fingerprints| == |expected|
    ensures forall i :: 0 <= i < |expected| ==> fingerprints[i] == FingerprintOf(expected[i])
  {
    seq(|expected|, i requires 0 <= i < |expected| => FingerprintOf(expected[i]))
  }

  /** A non-blank text. */
  predicate Named(cell: Cell) {
    cell.TextCell? && Strip(cell.text) != ""
  }

  predicate OneProvenance(expected: seq<ExpectedRow>)
    requires AllWellFormed(expected)
  {
    && (forall i :: 0 <= i < |expected| ==> Named(ProvenanceOf(expected[i])))
    && (forall i, j :: 0 <= i < j < |expected| ==> ProvenanceOf(expected[i]) == ProvenanceOf(expected[j]))
  }

  predicate WellFormed(expected: seq<ExpectedRow>) {
    && expected != []
    && AllWellFormed(expected)
    && NoRepeats(ExpectedIds(expected))
    && NoRepeats(ExpectedFingerprints(expected))
    && OneProvenance(expected)
  }

  /** No count above one, as `Counter` shows it. */
  predicate Distinct<T(==)>(s: seq<T>) {
    forall i :: 0 <= i < |s| ==> multiset(s)[s[i]] == 1
  }

  method ValidateExpected(expected: seq<ExpectedRow>) returns (r: Result<string, GateError>)
    ensures r.Ok? <==> WellFormed(expected)
    ensures r.Ok? ==> ProvenanceOf(expected[0]) == TextCell(r.value)
    ensures r.Err? ==> r.error == ExpectedPopulation
  {
    hide NoRepeats, Distinct, Strip;
    if expected == [] {
      return Err(ExpectedPopulation);
    }
    for i := 0 to |expected|
      invariant forall k :: 0 <= k < i ==> WellFormedRow(expected[k])
    {
      var row := expected[i];
      if !(forall c: Column :: c in row) {
        return Err(ExpectedPopulation);
      }
      if !row[JobId].IntCell? || row[JobId].number <= 0 {
        return Err(ExpectedPopulation);
      }
      if !row[Fingerprint].TextCell? || Strip(row[Fingerprint].text) == "" {
        return Err(ExpectedPopulation);
      }
    }
    hide WellFormedRow;
    DistinctMeansNoRepeats(ExpectedIds(expected));
    DistinctMeansNoRepeats(ExpectedFingerprints(expected));
    if !Distinct(ExpectedIds(expected)) || !Distinct(ExpectedFingerprints(expected)) {
      return Err(ExpectedPopulation);
    }
    var provenance := ProvenanceOf(expected[0]);
    if exists i :: 0 <= i < |expected| && ProvenanceOf(expected[i]) != provenance {
      return Err(ExpectedPopulation);
    }
    if !provenance.TextCell? || Strip(provenance.text) == "" {
      return Err(ExpectedPopulation);
    }
    return Ok(provenance.text);
  }

  lemma DistinctMeansNoRepeats<T>(s: seq<T>)
    ensures Distinct(s) <==> NoRepeats(s)
  {
    CountsShowRepeats(s);
  }

  // ---------------------------------------------------------------- reading the file

  /** A column name found in the header. */
  datatype Header = Known(column: Column) | Unknown(name: string)

  /** A file that is UTF-8 and strict CSV: its header and its records, blank lines included. */
  datatype CsvFile = CsvFile(header: seq<Header>, records: seq<seq<string>>)

  predicate GoodHeader(header: seq<Header>) {
    && NoRepeats(header)
    && (forall c: Column :: Known(c) in header)
    && (forall i :: 0 <= i < |header| ==> header[i].Known?)
  }

  predicate GoodRecords(file: CsvFile) {
    forall i :: 0 <= i < |file.records| ==> file.records[i] == [] || |file.records[i]| == |file.header|
  }

  /** `dict(zip(header, record))` */
  function RowOf(header: seq<Header>, record: seq<string>): (row: Row)
    requires |header| == |record| && forall i :: 0 <= i < |header| ==> header[i].Known?
    ensures forall c :: c in row <==> Known(c) in header
  {
    if header == [] then map[]
    else
      var n := |header| - 1;
      assert header == header[..n] + [header[n]];
      RowOf(header[..n], record[..n])[header[n].column := record[n]]
  }

  /** The order of the columns in the file does not matter: each cell is found by its name. */
  lemma {:induction false} CellByName(header: seq<Header>, record: seq<string>, i: nat)
    requires |header| == |record| && NoRepeats(header) && forall k :: 0 <= k < |header| ==> header[k].Known?
    requires i < |header|
    ensures RowOf(header, record)[header[i].column] == record[i]
  {
    var n := |header| - 1;
    if i < n {
      CellByName(header[..n], record[..n], i);
    }
  }

  predicate Complete(row: Row) {
    forall c: Column :: c in row
  }

  predicate AllComplete(rows: seq<Row>) {
    forall i :: 0 <= i < |rows| ==> Complete(rows[i])
  }

  function RowsOf(header: seq<Header>, records: seq<seq<string>>): (rows: seq<Row>)
    requires GoodHeader(header)
    requires forall i :: 0 <= i < |records| ==> records[i] == [] || |records[i]| == |header|
    ensures AllComplete(rows)
  {
    if records == [] then []
    else
      var n := |records| - 1;
      RowsOf(header, records[..n]) + (if records[n] == [] then [] else [RowOf(header, records[n])])
  }

  predicate Readable(file: Option<CsvFile>) {
    && file.Some? && GoodHeader(file.value.header) && GoodRecords(file.value)
    && RowsOf(file.value.header, file.value.records) != []
  }

  function FileRows(file: Option<CsvFile>): (rows: seq<Row>)
    requires Readable(file)
    ensures rows != [] && AllComplete(rows)
  {
    RowsOf(file.value.header, file.value.records)
  }

  method ReadReviewCsv(file: Option<CsvFile>) returns (r: Result<seq<Row>, GateError>)
    ensures r.Ok? <==> Readable(file)
    ensures r.Ok? ==> r.value == FileRows(file)
    ensures r.Err? ==> r.error == Malformed
  {
    hide NoRepeats, Distinct, RowOf, Complete;
    if file.None? {
      return Err(Malformed);
    }
    var header := file.value.header;
    if header == [] {
      assert file.Some? && GoodHeader(header) ==> Known(JobId) in header;
      return Err(Malformed);
    }
    DistinctMeansNoRepeats(header);
    if !Distinct(header) {
      return Err(Malformed);
    }
    if !(forall c: Column :: Known(c) in header) {
      return Err(Malformed);
    }
    if exists i :: 0 <= i < |header| && header[i].Unknown? {
      return Err(Malformed);
    }
    var rows: seq<Row> := [];
    var records := file.value.records;
    for i := 0 to |records|
      invariant forall k :: 0 <= k < i ==> records[k] == [] || |records[k]| == |header|
      invariant rows == RowsOf(header, records[..i])
    {
      assert records[..i + 1][..i] == records[..i];
      if records[i] != [] {
        if |records[i]| != |header| {
          return Err(Malformed);
        }
        rows := rows + [RowOf(header, records[i])];
      }
    }
    assert records[..|records|] == records;
    if rows == [] {
      return Err(Malformed);
    }
    return Ok(rows);
  }

  // ---------------------------------------------------------------- evidence

  /** Every immutable cell is exactly what the exporter would write. */
  predicate RowMatches(row: Row, e: ExpectedRow)
    requires Complete(row) && WellFormedRow(e)
  {
    forall c: Column :: Immutable(c) ==> Writes(e[c], row[c])
  }

  /** The immutable part of a file row, and of an exported row. */
  function Shown(row: Row): map<Column, string>
    requires Complete(row)
  {
    map c: Column | Immutable(c) :: row[c]
  }

  function Exported(e: ExpectedRow): map<Column, string>
    requires WellFormedRow(e)
  {
    map c: Column | Immutable(c) :: CsvCell(e[c])
  }

  lemma ShownCell(row: Row, c: Column)
    requires Complete(row) && Immutable(c)
    ensures c in Shown(row) && Shown(row)[c] == row[c]
  {
    hide Immutable;
  }

  lemma ExportedCell(e: ExpectedRow, c: Column)
    requires WellFormedRow(e) && Immutable(c)
    ensures c in Exported(e) && Exported(e)[c] == CsvCell(e[c])
  {
    hide Immutable, CsvCell, Strip;
  }

  lemma ShownIsExported(row: Row, e: ExpectedRow)
    requires Complete(row) && WellFormedRow(e)
    ensures Shown(row) == Exported(e) <==> RowMatches(row, e)
  {
    hide CsvCell, Writes, Immutable, Strip;
    forall c: Column ensures row[c] == CsvCell(e[c]) <==> Writes(e[c], row[c]) {
      CellText(e[c], row[c]);
    }
    if Shown(row) == Exported(e) {
      forall c: Column | Immutable(c) ensures row[c] == CsvCell(e[c]) {
        ShownCell(row, c);
        ExportedCell(e, c);
      }
    }
  }

  function ShownRows(rows: seq<Row>): (shown: seq<map<Column, string>>)
    requires AllComplete(rows)
    ensures |shown| == |rows| && forall i :: 0 <= i < |rows| ==> shown[i] == Shown(rows[i])
  {
    seq(|rows|, i requires 0 <= i < |rows| => Shown(rows[i]))
  }

  function ExportedRows(expected: seq<ExpectedRow>): (exported: seq<map<Column, string>>)
    requires AllWellFormed(expected)
    ensures |exported| == |expected| && forall i :: 0 <= i < |expected| ==> exported[i] == Exported(expected[i])
  {
    seq(|expected|, i requires 0 <= i < |expected| => Exported(expected[i]))
  }

  /** The file rows are a permutation of the export, up to the human cells. */
  ghost predicate Permuted(rows: seq<Row>, expected: seq<ExpectedRow>)
    requires AllComplete(rows) && AllWellFormed(expected)
  {
    multiset(ShownRows(rows)) == multiset(ExportedRows(expected))
  }

  function RowId(row: Row): Option<nat>
    requires Complete(row)
  {
    ParseJobId(row[JobId])
  }

  function RowFingerprint(row: Row): string
    requires Complete(row)
  {
    row[Fingerprint]
  }

  function RowProvenance(row: Row): string
    requires Complete(row)
  {
    row[ReviewProvenance]
  }

  lemma MatchedRow(row: Row, e: ExpectedRow)
    requires Complete(row) && WellFormedRow(e) && RowMatches(row, e)
    ensures RowId(row) == (if IdOf(e) <= MAX_JOB_ID then Some(IdOf(e)) else None)
    ensures RowFingerprint(row) == FingerprintOf(e)
    ensures Writes(ProvenanceOf(e), RowProvenance(row))
  {
    hide ParseJobId, IntText, Strip;
    assert Immutable(JobId) && Immutable(Fingerprint) && Immutable(ReviewProvenance);
    assert Writes(e[JobId], row[JobId]) && Writes(e[Fingerprint], row[Fingerprint]);
    IdOfText(row[JobId], IdOf(e));
  }

  lemma IdOfText(raw: string, id: nat)
    requires raw == IntText(id) && id > 0
    ensures ParseJobId(raw) == (if id <= MAX_JOB_ID then Some(id) else None)
  {
    hide ParseJobId, IntText;
    ParseJobIdExact(raw, id);
    if ParseJobId(raw).Some? {
      ParseJobIdExact(raw, ParseJobId(raw).value);
      IntTextInjective(ParseJobId(raw).value, id);
    }
  }

  /** The checks of the gate that do not concern the human cells. */
  ghost predicate Evidence(rows: seq<Row>, expected: seq<ExpectedRow>)
    requires AllComplete(rows) && WellFormed(expected)
  {
    && (forall i :: 0 <= i < |rows| ==> RowId(rows[i]).Some?)
    && (forall i :: 0 <= i < |rows| ==> RowProvenance(rows[i]) == ProvenanceOf(expected[0]).text)
    && (forall i, j :: 0 <= i < j < |rows| ==> RowId(rows[i]) != RowId(rows[j]))
    && (forall i, j :: 0 <= i < j < |rows| ==> RowFingerprint(rows[i]) != RowFingerprint(rows[j]))
    && (forall j :: 0 <= j < |expected| ==> HasRow(rows, IdOf(expected[j])))
    && (forall i :: 0 <= i < |rows| ==> HasExpected(rows[i], expected))
  }

  ghost predicate HasRow(rows: seq<Row>, id: int)
    requires AllComplete(rows)
  {
    exists i :: 0 <= i < |rows| && RowId(rows[i]).Some? && RowId(rows[i]).value == id
  }

  ghost predicate HasExpected(row: Row, expected: seq<ExpectedRow>)
    requires Complete(row) && AllWellFormed(expected)
  {
    exists j :: 0 <= j < |expected| && RowId(row) == Some(IdOf(expected[j])) && RowMatches(row, expected[j])
  }

  predicate IdsInRange(expected: seq<ExpectedRow>)
    requires AllWellFormed(expected)
  {
    forall j :: 0 <= j < |expected| ==> IdOf(expected[j]) <= MAX_JOB_ID
  }

  lemma ExportedId(e: ExpectedRow)
    requires WellFormedRow(e)
    ensures JobId in Exported(e) && Exported(e)[JobId] == IntText(IdOf(e))
  {
    hide Exported, IntText, Strip;
    assert Immutable(JobId);
    ExportedCell(e, JobId);
  }

  lemma SameId(a: Row, b: Row)
    requires Complete(a) && Complete(b) && Shown(a) == Shown(b)
    ensures RowId(a) == RowId(b)
  {
    hide Shown, ParseJobId;
    assert Immutable(JobId);
    ShownCell(a, JobId);
    ShownCell(b, JobId);
  }

  lemma ExportHasNoRepeats(expected: seq<ExpectedRow>)
    requires AllWellFormed(expected) && NoRepeats(ExpectedIds(expected))
    ensures NoRepeats(ExportedRows(expected))
  {
    hide WellFormedRow, Exported, IdOf, IntText;
    var exported := ExportedRows(expected);
    forall i, j | 0 <= i < j < |expected| ensures exported[i] != exported[j] {
      ExportedId(expected[i]);
      ExportedId(expected[j]);
      assert ExpectedIds(expected)[i] != ExpectedIds(expected)[j];
      if exported[i] == exported[j] {
        IntTextInjective(IdOf(expected[i]), IdOf(expected[j]));
      }
    }
  }

  lemma ShownInExport(row: Row, expected: seq<ExpectedRow>)
    requires Complete(row) && AllWellFormed(expected) && HasExpected(row, expected)
    ensures Shown(row) in ExportedRows(expected)
  {
    hide WellFormedRow, Complete, RowMatches, Shown, Exported, RowId, IdOf;
    var j :| 0 <= j < |expected| && RowId(row) == Some(IdOf(expected[j])) && RowMatches(row, expected[j]);
    ShownIsExported(row, expected[j]);
    assert ExportedRows(expected)[j] == Shown(row);
  }

  lemma ExportInShown(rows: seq<Row>, expected: seq<ExpectedRow>, j: nat)
    requires AllComplete(rows) && WellFormed(expected) && Evidence(rows, expected) && j < |expected|
    ensures Exported(expected[j]) in ShownRows(rows) && IdOf(expected[j]) <= MAX_JOB_ID
  {
    hide WellFormedRow, Complete, RowMatches, Shown, Exported, RowId, IdOf, OneProvenance, RowFingerprint, RowProvenance;
    assert HasRow(rows, IdOf(expected[j]));
    var i :| 0 <= i < |rows| && RowId(rows[i]).Some? && RowId(rows[i]).value == IdOf(expected[j]);
    assert HasExpected(rows[i], expected);
    var k :| 0 <= k < |expected| && RowId(rows[i]) == Some(IdOf(expected[k])) && RowMatches(rows[i], expected[k]);
    assert ExpectedIds(expected)[j] == ExpectedIds(expected)[k];
    assert j == k;
    MatchedRow(rows[i], expected[k]);
    ShownIsExported(rows[i], expected[k]);
    assert ShownRows(rows)[i] == Exported(expected[j]);
  }

  lemma EvidenceIsPermuted(rows: seq<Row>, expected: seq<ExpectedRow>)
    requires AllComplete(rows) && WellFormed(expected) && Evidence(rows, expected)
    ensures Permuted(rows, expected) && IdsInRange(expected)
  {
    hide WellFormedRow, Complete, RowMatches, Shown, Exported, RowId, IdOf, OneProvenance, RowFingerprint, RowProvenance,
      HasExpected, HasRow;
    var shown, exported := ShownRows(rows), ExportedRows(expected);
    forall i | 0 <= i < |rows| ensures shown[i] in exported {
      ShownInExport(rows[i], expected);
    }
    forall j | 0 <= j < |expected| ensures exported[j] in shown && IdOf(expected[j]) <= MAX_JOB_ID {
      ExportInShown(rows, expected, j);
    }
    forall i, k | 0 <= i < k < |rows| ensures shown[i] != shown[k] {
      if shown[i] == shown[k] {
        SameId(rows[i], rows[k]);
      }
    }
    ExportHasNoRepeats(expected);
    SameMembers(shown, exported);
  }

  lemma FoundInExport(rows: seq<Row>, expected: seq<ExpectedRow>, i: nat)
    requires AllComplete(rows) && WellFormed(expected) && Permuted(rows, expected) && i < |rows|
    ensures exists j :: 0 <= j < |expected| && ShownRows(rows)[i] == ExportedRows(expected)[j] && RowMatches(rows[i], expected[j])
  {
    hide WellFormedRow, Complete, RowMatches, Shown, Exported;
    var shown, exported := ShownRows(rows), ExportedRows(expected);
    PermutationKeeps(shown, exported);
    assert shown[i] in exported;
    var j :| 0 <= j < |expected| && shown[i] == exported[j];
    ShownIsExported(rows[i], expected[j]);
  }

  /** Distinct file rows come from distinct exported ones. */
  lemma RowsStayDistinct(rows: seq<Row>, expected: seq<ExpectedRow>, i: nat, k: nat)
    requires AllComplete(rows) && WellFormed(expected) && Permuted(rows, expected) && IdsInRange(expected)
    requires i < k < |rows|
    ensures RowId(rows[i]) != RowId(rows[k]) && RowFingerprint(rows[i]) != RowFingerprint(rows[k])
  {
    hide WellFormedRow, Complete, RowMatches, Shown, Exported, RowId, IdOf, FingerprintOf, OneProvenance, RowFingerprint;
    FoundInExport(rows, expected, i);
    FoundInExport(rows, expected, k);
    var shown, exported := ShownRows(rows), ExportedRows(expected);
    var a :| 0 <= a < |expected| && shown[i] == exported[a] && RowMatches(rows[i], expected[a]);
    var b :| 0 <= b < |expected| && shown[k] == exported[b] && RowMatches(rows[k], expected[b]);
    ExportHasNoRepeats(expected);
    PermutationKeeps(shown, exported);
    assert a != b;
    MatchedRow(rows[i], expected[a]);
    MatchedRow(rows[k], expected[b]);
    assert ExpectedIds(expected)[a] != ExpectedIds(expected)[b];
    assert ExpectedFingerprints(expected)[a] != ExpectedFingerprints(expected)[b];
  }

  lemma ExpectedIsFound(rows: seq<Row>, expected: seq<ExpectedRow>, j: nat)
    requires AllComplete(rows) && WellFormed(expected) && Permuted(rows, expected) && IdsInRange(expected)
    requires j < |expected|
    ensures HasRow(rows, IdOf(expected[j]))
  {
    hide WellFormedRow, Complete, RowMatches, Shown, Exported, RowId, IdOf, OneProvenance;
    var shown, exported := ShownRows(rows), ExportedRows(expected);
    PermutationKeeps(shown, exported);
    assert exported[j] in shown;
    var i :| 0 <= i < |rows| && shown[i] == exported[j];
    ShownIsExported(rows[i], expected[j]);
    MatchedRow(rows[i], expected[j]);
  }

  lemma PermutedIsEvidence(rows: seq<Row>, expected: seq<ExpectedRow>)
    requires AllComplete(rows) && WellFormed(expected) && Permuted(rows, expected) && IdsInRange(expected)
    ensures Evidence(rows, expected)
  {
    hide WellFormedRow, Complete, RowMatches, Shown, Exported, RowId, IdOf, RowFingerprint, RowProvenance, HasRow, Permuted,
      ProvenanceOf, NoRepeats, Strip;
    forall i | 0 <= i < |rows|
      ensures RowId(rows[i]).Some? && HasExpected(rows[i], expected)
      ensures RowProvenance(rows[i]) == ProvenanceOf(expected[0]).text
    {
      FoundInExport(rows, expected, i);
      var j :| 0 <= j < |expected| && ShownRows(rows)[i] == ExportedRows(expected)[j]
        && RowMatches(rows[i], expected[j]);
      MatchedRow(rows[i], expected[j]);
      assert ProvenanceOf(expected[j]) == ProvenanceOf(expected[0]);
    }
    forall i, k | 0 <= i < k < |rows|
      ensures RowId(rows[i]) != RowId(rows[k]) && RowFingerprint(rows[i]) != RowFingerprint(rows[k])
    {
      RowsStayDistinct(rows, expected, i, k);
    }
    forall j | 0 <= j < |expected| ensures HasRow(rows, IdOf(expected[j])) {
      ExpectedIsFound(rows, expected, j);
    }
  }

  // ---------------------------------------------------------------- the human cells

  datatype Relevance = YES | NO | UNSURE
  datatype Decision = APPROVE | REJECT | REVIEW

  datatype ReviewedRow = ReviewedRow(
    jobId: nat, fingerprint: string, relevant: Relevance, decision: Decision, notes: string)

  /** `upper` is Python's `str.upper`. */
  function ParseRelevance(upper: string -> string, raw: string): Result<Relevance, GateError> {
    var value := Strip(raw);
    if value == "" then Err(Incomplete)
    else if upper(value) == "YES" then Ok(YES)
    else if upper(value) == "NO" then Ok(NO)
    else if upper(value) == "UNSURE" then Ok(UNSURE)
    else Err(InvalidValue)
  }

  function ParseDecision(upper: string -> string, raw: string): Result<Decision, GateError> {
    var value := Strip(raw);
    if value == "" then Err(Incomplete)
    else if upper(value) == "APPROVE" then Ok(APPROVE)
    else if upper(value) == "REJECT" then Ok(REJECT)
    else if upper(value) == "REVIEW" then Ok(REVIEW)
    else Err(InvalidValue)
  }

  function Reviewed(upper: string -> string, id: nat, row: Row): Result<ReviewedRow, GateError>
    requires Complete(row)
  {
    var relevant := ParseRelevance(upper, row[HumanRelevant]);
    if relevant.Err? then Err(relevant.error)
    else
      var decision := ParseDecision(upper, row[HumanDecision]);
      if decision.Err? then Err(decision.error)
      else Ok(ReviewedRow(id, row[Fingerprint], relevant.value, decision.value, Strip(row[HumanNotes])))
  }

  /** The cell says the word, up to case and surrounding white space. */
  predicate Says(upper: string -> string, cell: string, word: string) {
    Strip(cell) != "" && upper(Strip(cell)) == word
  }

  predicate SaysSome(upper: string -> string, cell: string, words: set<string>) {
    Strip(cell) != "" && upper(Strip(cell)) in words
  }

  /** Both human cells of the row hold one of their words. */
  predicate Answered(upper: string -> string, row: Row)
    requires Complete(row)
  {
    && SaysSome(upper, row[HumanRelevant], {"YES", "NO", "UNSURE"})
    && SaysSome(upper, row[HumanDecision], {"APPROVE", "REJECT", "REVIEW"})
  }

  /** What the row says is recorded under its id: fingerprint, both answers and the notes. */
  predicate Records(upper: string -> string, id: nat, row: Row, r: ReviewedRow)
    requires Complete(row)
  {
    && r.jobId == id && r.fingerprint == row[Fingerprint] && r.notes == Strip(row[HumanNotes])
    && (match r.relevant
        case YES => Says(upper, row[HumanRelevant], "YES")
        case NO => Says(upper, row[HumanRelevant], "NO")
        case UNSURE => Says(upper, row[HumanRelevant], "UNSURE"))
    && (match r.decision
        case APPROVE => Says(upper, row[HumanDecision], "APPROVE")
        case REJECT => Says(upper, row[HumanDecision], "REJECT")
        case REVIEW => Says(upper, row[HumanDecision], "REVIEW"))
  }

  lemma RelevanceMeaning(upper: string -> string, raw: string)
    ensures ParseRelevance(upper, raw).Ok? <==> SaysSome(upper, raw, {"YES", "NO", "UNSURE"})
    ensures ParseRelevance(upper, raw) == Ok(YES) <==> Says(upper, raw, "YES")
    ensures ParseRelevance(upper, raw) == Ok(NO) <==> Says(upper, raw, "NO")
    ensures ParseRelevance(upper, raw) == Ok(UNSURE) <==> Says(upper, raw, "UNSURE")
    ensures ParseRelevance(upper, raw) == Err(Incomplete) <==> Strip(raw) == ""
    ensures ParseRelevance(upper, raw).Err? ==> ParseRelevance(upper, raw).error in {Incomplete, InvalidValue}
  {
    hide Strip;
  }

  lemma DecisionMeaning(upper: string -> string, raw: string)
    ensures ParseDecision(upper, raw).Ok? <==> SaysSome(upper, raw, {"APPROVE", "REJECT", "REVIEW"})
    ensures ParseDecision(upper, raw) == Ok(APPROVE) <==> Says(upper, raw, "APPROVE")
    ensures ParseDecision(upper, raw) == Ok(REJECT) <==> Says(upper, raw, "REJECT")
    ensures ParseDecision(upper, raw) == Ok(REVIEW) <==> Says(upper, raw, "REVIEW")
    ensures ParseDecision(upper, raw) == Err(Incomplete) <==> Strip(raw) == ""
    ensures ParseDecision(upper, raw).Err? ==> ParseDecision(upper, raw).error in {Incomplete, InvalidValue}
  {
    hide Strip;
  }

  /** A blank human cell is reported as incomplete, any other text as invalid. */
  ghost predicate AnswerFault(upper: string -> string, row: Row, e: GateError)
    requires Complete(row)
  {
    || (e == Incomplete && (Strip(row[HumanRelevant]) == "" || Strip(row[HumanDecision]) == ""))
    || (e == InvalidValue
        && ((Strip(row[HumanRelevant]) != "" && !SaysSome(upper, row[HumanRelevant], {"YES", "NO", "UNSURE"}))
            || (Strip(row[HumanDecision]) != "" && !SaysSome(upper, row[HumanDecision], {"APPROVE", "REJECT", "REVIEW"}))))
  }

  /** A row is recorded exactly when both answers are words of their cells, and as they say. */
  lemma ReviewedMeaning(upper: string -> string, id: nat, row: Row, r: ReviewedRow)
    requires Complete(row)
    ensures Reviewed(upper, id, row) == Ok(r) <==> Records(upper, id, row, r)
    ensures Reviewed(upper, id, row).Ok? <==> Answered(upper, row)
    ensures Reviewed(upper, id, row).Err? ==> AnswerFault(upper, row, Reviewed(upper, id, row).error)
  {
    hide Strip, ParseRelevance, ParseDecision, Says, SaysSome;
    RelevanceMeaning(upper, row[HumanRelevant]);
    DecisionMeaning(upper, row[HumanDecision]);
  }

  /** The human cells say YES or NO, and APPROVE, up to case and surrounding white space. */
  predicate HumanApproves(upper: string -> string, row: Row)
    requires Complete(row)
  {
    && upper(Strip(row[HumanRelevant])) in {"YES", "NO"} && Strip(row[HumanRelevant]) != ""
    && upper(Strip(row[HumanDecision])) == "APPROVE" && Strip(row[HumanDecision]) != ""
  }

  lemma ApprovesMeaning(upper: string -> string, id: nat, row: Row)
    requires Complete(row)
    ensures HumanApproves(upper, row) <==>
      && Reviewed(upper, id, row).Ok?
      && Reviewed(upper, id, row).value.decision == APPROVE
      && Reviewed(upper, id, row).value.relevant in {YES, NO}
    ensures Answered(upper, row) <==> Reviewed(upper, id, row).Ok?
  {
    hide Strip, Complete;
  }

  function JobIdOf(row: ReviewedRow): int {
    row.jobId
  }

  function SortById(rows: seq<ReviewedRow>): seq<ReviewedRow> {
    SortBy(JobIdOf, rows)
  }

  // ---------------------------------------------------------------- the gate

  /** The file passes verification: well-formed population, readable file, the
      exported rows in some order, and an answer in every human cell. */
  ghost predicate Verified(upper: string -> string, file: Option<CsvFile>, expected: seq<ExpectedRow>) {
    && WellFormed(expected) && IdsInRange(expected) && Readable(file)
    && Permuted(FileRows(file), expected)
    && forall i :: 0 <= i < |FileRows(file)| ==> Answered(upper, FileRows(file)[i])
  }

  /** The file is the export, permuted, with every row approved. */
  ghost predicate Approved(upper: string -> string, file: Option<CsvFile>, expected: seq<ExpectedRow>) {
    && WellFormed(expected) && IdsInRange(expected) && Readable(file)
    && Permuted(FileRows(file), expected)
    && forall i :: 0 <= i < |FileRows(file)| ==> HumanApproves(upper, FileRows(file)[i])
  }

  ghost predicate ReviewedFrom(upper: string -> string, rows: seq<Row>, reviewed: seq<ReviewedRow>)
    requires AllComplete(rows)
  {
    && |reviewed| == |rows|
    && forall i :: 0 <= i < |rows| ==>
         RowId(rows[i]).Some? && Records(upper, RowId(rows[i]).value, rows[i], reviewed[i])
  }

  /** `{int(key): row for ...}` */
  function ById(expected: seq<ExpectedRow>): map<int, ExpectedRow>
    requires AllWellFormed(expected)
  {
    if expected == [] then map[]
    else
      var n := |expected| - 1;
      ById(expected[..n])[IdOf(expected[n]) := expected[n]]
  }

  lemma {:induction false} ByIdHolds(expected: seq<ExpectedRow>, j: nat)
    requires AllWellFormed(expected) && NoRepeats(ExpectedIds(expected)) && j < |expected|
    ensures IdOf(expected[j]) in ById(expected) && ById(expected)[IdOf(expected[j])] == expected[j]
  {
    hide WellFormedRow, IdOf;
    var n := |expected| - 1;
    if j < n {
      assert ExpectedIds(expected)[j] != ExpectedIds(expected)[n];
      assert forall i, k :: 0 <= i < k < n ==> ExpectedIds(expected)[i] != ExpectedIds(expected)[k];
      ByIdHolds(expected[..n], j);
    }
  }

  lemma {:induction false} ByIdOnly(expected: seq<ExpectedRow>, id: int)
    requires AllWellFormed(expected) && id in ById(expected)
    ensures exists j :: 0 <= j < |expected| && IdOf(expected[j]) == id && ById(expected)[id] == expected[j]
  {
    hide WellFormedRow, IdOf;
    var n := |expected| - 1;
    if id != IdOf(expected[n]) {
      ByIdOnly(expected[..n], id);
      var j :| 0 <= j < n && IdOf(expected[..n][j]) == id && ById(expected[..n])[id] == expected[..n][j];
      assert expected[j] == expected[..n][j];
    }
  }

  lemma Matching(row: Row, id: nat, expected: seq<ExpectedRow>)
    requires Complete(row) && WellFormed(expected) && RowId(row) == Some(id) && id in ById(expected)
    ensures WellFormedRow(ById(expected)[id])
    ensures HasExpected(row, expected) <==> RowMatches(row, ById(expected)[id])
  {
    hide WellFormedRow, IdOf, Complete, RowMatches, RowId, OneProvenance;
    ByIdOnly(expected, id);
    if HasExpected(row, expected) {
      var j :| 0 <= j < |expected| && RowId(row) == Some(IdOf(expected[j])) && RowMatches(row, expected[j]);
      ByIdHolds(expected, j);
    }
  }

  /** The ids of all rows, or nothing when one does not parse. */
  method ParseIds(rows: seq<Row>) returns (ids: Option<seq<nat>>)
    requires AllComplete(rows)
    ensures ids.Some? <==> forall i :: 0 <= i < |rows| ==> RowId(rows[i]).Some?
    ensures ids.Some? ==> |ids.value| == |rows| && forall i :: 0 <= i < |rows| ==> RowId(rows[i]) == Some(ids.value[i])
  {
    hide RowId, Complete;
    var parsed: seq<nat> := [];
    for i := 0 to |rows|
      invariant |parsed| == i && forall k :: 0 <= k < i ==> RowId(rows[k]) == Some(parsed[k])
    {
      var id := RowId(rows[i]);
      if id.None? {
        return None;
      }
      parsed := parsed + [id.value];
    }
    return Some(parsed);
  }

  /** The error names what is wrong with the rows taken together: an id that is none,
      another provenance, a repeated id or fingerprint, a row that is not expected,
      an expected row that is missing. */
  ghost predicate IdentityFault(rows: seq<Row>, expected: seq<ExpectedRow>, e: GateError)
    requires AllComplete(rows) && WellFormed(expected)
  {
    match e
    case Malformed => exists i :: 0 <= i < |rows| && RowId(rows[i]).None?
    case ProvenanceMismatch =>
      exists i :: 0 <= i < |rows| && RowProvenance(rows[i]) != ProvenanceOf(expected[0]).text
    case DuplicateIdentity =>
      exists i, j :: 0 <= i < j < |rows|
        && (RowId(rows[i]) == RowId(rows[j]) || RowFingerprint(rows[i]) == RowFingerprint(rows[j]))
    case UnexpectedRow => exists i :: 0 <= i < |rows| && NotExpected(rows[i], expected)
    case MissingRow => exists j :: 0 <= j < |expected| && !HasRow(rows, IdOf(expected[j]))
    case _ => false
  }

  ghost predicate NotExpected(row: Row, expected: seq<ExpectedRow>)
    requires Complete(row) && AllWellFormed(expected)
  {
    forall j :: 0 <= j < |expected| ==> RowId(row) != Some(IdOf(expected[j]))
  }

  /** The checks that look at all rows together: identities and population. */
  method CheckIdentities(rows: seq<Row>, ids: seq<nat>, provenance: string, expected: seq<ExpectedRow>)
    returns (failure: Option<GateError>)
    requires AllComplete(rows) && WellFormed(expected) && ProvenanceOf(expected[0]) == TextCell(provenance)
    requires |ids| == |rows| && forall i :: 0 <= i < |rows| ==> RowId(rows[i]) == Some(ids[i])
    ensures failure.Some? ==> !Evidence(rows, expected) && IdentityFault(rows, expected, failure.value)
    ensures failure.None? ==> forall i :: 0 <= i < |ids| ==> ids[i] in ById(expected)
    ensures failure.None? ==>
      (Evidence(rows, expected) <==> forall i :: 0 <= i < |rows| ==> HasExpected(rows[i], expected))
  {
    hide RowId, Complete, WellFormedRow, HasExpected, HasRow, Distinct, NoRepeats, RowFingerprint, RowProvenance, IdOf,
      ProvenanceOf, ById, IdentityFault, NotExpected;
    if i :| 0 <= i < |rows| && RowProvenance(rows[i]) != provenance {
      OtherProvenance(rows, i, expected);
      return Some(ProvenanceMismatch);
    }
    DistinctMeansNoRepeats(ids);
    if !Distinct(ids) {
      RepeatedId(rows, ids, expected);
      return Some(DuplicateIdentity);
    }
    var fingerprints := seq(|rows|, i requires 0 <= i < |rows| => RowFingerprint(rows[i]));
    DistinctMeansNoRepeats(fingerprints);
    if !Distinct(fingerprints) {
      RepeatedFingerprint(rows, fingerprints, expected);
      return Some(DuplicateIdentity);
    }
    var byId := ById(expected);
    if exists i :: 0 <= i < |ids| && ids[i] !in byId {
      var i :| 0 <= i < |ids| && ids[i] !in byId;
      Unexpected(rows[i], ids[i], expected);
      NotExpectedFault(rows, i, expected);
      return Some(UnexpectedRow);
    }
    if exists id :: id in byId && id !in ids {
      var id :| id in byId && id !in ids;
      ByIdOnly(expected, id);
      NotAmong(rows, ids, id);
      var j :| 0 <= j < |expected| && IdOf(expected[j]) == id;
      MissingFault(rows, j, expected);
      return Some(MissingRow);
    }
    forall j | 0 <= j < |expected| ensures HasRow(rows, IdOf(expected[j])) {
      ByIdHolds(expected, j);
      assert IdOf(expected[j]) in ids;
      var i :| 0 <= i < |ids| && ids[i] == IdOf(expected[j]);
      HasRowAt(rows, i, ids[i]);
    }
    IdentitiesHold(rows, ids, fingerprints, provenance, expected);
    return None;
  }

  lemma OtherProvenance(rows: seq<Row>, i: nat, expected: seq<ExpectedRow>)
    requires AllComplete(rows) && WellFormed(expected) && i < |rows|
    requires RowProvenance(rows[i]) != ProvenanceOf(expected[0]).text
    ensures IdentityFault(rows, expected, ProvenanceMismatch)
  {
    hide RowProvenance, Complete, WellFormedRow, ProvenanceOf;
  }

  lemma NotExpectedFault(rows: seq<Row>, i: nat, expected: seq<ExpectedRow>)
    requires AllComplete(rows) && WellFormed(expected) && i < |rows| && NotExpected(rows[i], expected)
    ensures IdentityFault(rows, expected, UnexpectedRow)
  {
    hide NotExpected, Complete, WellFormedRow;
  }

  lemma MissingFault(rows: seq<Row>, j: nat, expected: seq<ExpectedRow>)
    requires AllComplete(rows) && WellFormed(expected) && j < |expected| && !HasRow(rows, IdOf(expected[j]))
    ensures IdentityFault(rows, expected, MissingRow)
  {
    hide HasRow, Complete, WellFormedRow, IdOf;
  }

  lemma FaultKinds(rows: seq<Row>, expected: seq<ExpectedRow>, e: GateError)
    requires AllComplete(rows) && WellFormed(expected) && IdentityFault(rows, expected, e)
    ensures e !in {ExpectedPopulation, Incomplete, InvalidValue, Rejected, Unresolved}
  {
  }

  lemma RepeatedId(rows: seq<Row>, ids: seq<nat>, expected: seq<ExpectedRow>)
    requires AllComplete(rows) && WellFormed(expected)
    requires |ids| == |rows| && forall i :: 0 <= i < |rows| ==> RowId(rows[i]) == Some(ids[i])
    requires !NoRepeats(ids)
    ensures !Evidence(rows, expected) && IdentityFault(rows, expected, DuplicateIdentity)
  {
    hide RowId, Complete, WellFormedRow, OneProvenance, RowFingerprint;
    var i, j :| 0 <= i < j < |ids| && ids[i] == ids[j];
    assert RowId(rows[i]) == RowId(rows[j]);
  }

  lemma RepeatedFingerprint(rows: seq<Row>, fingerprints: seq<string>, expected: seq<ExpectedRow>)
    requires AllComplete(rows) && WellFormed(expected)
    requires |fingerprints| == |rows| && forall i :: 0 <= i < |rows| ==> fingerprints[i] == RowFingerprint(rows[i])
    requires !NoRepeats(fingerprints)
    ensures !Evidence(rows, expected) && IdentityFault(rows, expected, DuplicateIdentity)
  {
    hide RowFingerprint, Complete, WellFormedRow, OneProvenance, RowId;
    var i, j :| 0 <= i < j < |rows| && fingerprints[i] == fingerprints[j];
    assert RowFingerprint(rows[i]) == RowFingerprint(rows[j]);
  }

  lemma IdentitiesHold(rows: seq<Row>, ids: seq<nat>, fingerprints: seq<string>, provenance: string,
                       expected: seq<ExpectedRow>)
    requires AllComplete(rows) && WellFormed(expected) && ProvenanceOf(expected[0]) == TextCell(provenance)
    requires |ids| == |rows| && forall i :: 0 <= i < |rows| ==> RowId(rows[i]) == Some(ids[i])
    requires |fingerprints| == |rows| && forall i :: 0 <= i < |rows| ==> fingerprints[i] == RowFingerprint(rows[i])
    requires NoRepeats(ids) && NoRepeats(fingerprints)
    requires forall i :: 0 <= i < |rows| ==> RowProvenance(rows[i]) == provenance
    requires forall j :: 0 <= j < |expected| ==> HasRow(rows, IdOf(expected[j]))
    ensures Evidence(rows, expected) <==> forall i :: 0 <= i < |rows| ==> HasExpected(rows[i], expected)
  {
    hide RowId, Complete, WellFormedRow, HasExpected, HasRow, RowFingerprint, RowProvenance, IdOf, ProvenanceOf;
    assert forall i, j :: 0 <= i < j < |rows| ==> ids[i] != ids[j] && fingerprints[i] != fingerprints[j];
  }

  lemma HasRowAt(rows: seq<Row>, i: nat, id: nat)
    requires AllComplete(rows) && i < |rows| && RowId(rows[i]) == Some(id)
    ensures HasRow(rows, id)
  {
  }

  lemma NotAmong(rows: seq<Row>, ids: seq<nat>, id: int)
    requires AllComplete(rows) && |ids| == |rows| && forall i :: 0 <= i < |rows| ==> RowId(rows[i]) == Some(ids[i])
    requires id !in ids
    ensures !HasRow(rows, id)
  {
    hide RowId, Complete;
  }

  lemma Unexpected(row: Row, id: nat, expected: seq<ExpectedRow>)
    requires Complete(row) && WellFormed(expected) && RowId(row) == Some(id) && id !in ById(expected)
    ensures !HasExpected(row, expected) && NotExpected(row, expected)
  {
    hide WellFormedRow, IdOf, Complete, RowMatches, RowId, OneProvenance;
    forall j | 0 <= j < |expected| ensures IdOf(expected[j]) != id {
      ByIdHolds(expected, j);
    }
  }

  /** The comparison cell by cell, as the source does it. */
  predicate SameCells(row: Row, e: ExpectedRow)
    requires Complete(row) && WellFormedRow(e)
  {
    forall c: Column :: Immutable(c) ==> row[c] == CsvCell(e[c])
  }

  lemma EqualCells(row: Row, e: ExpectedRow)
    requires Complete(row) && WellFormedRow(e)
    ensures RowMatches(row, e) <==> SameCells(row, e)
  {
    hide CsvCell, Writes, Immutable, Strip;
    forall c: Column ensures row[c] == CsvCell(e[c]) <==> Writes(e[c], row[c]) {
      CellText(e[c], row[c]);
    }
  }

  method ReviewOne(upper: string -> string, row: Row, id: nat, expected: seq<ExpectedRow>)
    returns (r: Result<ReviewedRow, GateError>)
    requires Complete(row) && WellFormed(expected) && RowId(row) == Some(id) && id in ById(expected)
    ensures r.Ok? <==> HasExpected(row, expected) && Answered(upper, row)
    ensures r.Ok? ==> Records(upper, id, row, r.value)
    ensures r.Err? ==>
      (r.error == ProvenanceMismatch && !HasExpected(row, expected)) || AnswerFault(upper, row, r.error)
  {
    hide RowId, Complete, NoRepeats, OneProvenance, WellFormedRow, HasExpected, ById, RowMatches, SameCells, Reviewed,
      Answered, Records, AnswerFault, Strip;
    Matching(row, id, expected);
    var e := ById(expected)[id];
    EqualCells(row, e);
    if !SameCells(row, e) {
      return Err(ProvenanceMismatch);
    }
    r := Reviewed(upper, id, row);
    ghost var made := if r.Ok? then r.value else ReviewedRow(0, "", NO, REJECT, "");
    ReviewedMeaning(upper, id, row, made);
  }

  /** The error names a fault of some row: it differs from every expected row with its
      id, or one of its human cells is blank or no word of its kind. */
  ghost predicate RowFault(upper: string -> string, rows: seq<Row>, expected: seq<ExpectedRow>, e: GateError)
    requires AllComplete(rows) && AllWellFormed(expected)
  {
    exists i :: 0 <= i < |rows|
      && ((e == ProvenanceMismatch && !HasExpected(rows[i], expected)) || AnswerFault(upper, rows[i], e))
  }

  /** The loop that compares each row with its expected one and reads the human cells. */
  method ReviewRows(upper: string -> string, rows: seq<Row>, ids: seq<nat>, expected: seq<ExpectedRow>)
    returns (r: Result<seq<ReviewedRow>, GateError>)
    requires AllComplete(rows) && WellFormed(expected)
    requires |ids| == |rows| && forall i :: 0 <= i < |rows| ==> RowId(rows[i]) == Some(ids[i]) && ids[i] in ById(expected)
    ensures r.Ok? <==> forall i :: 0 <= i < |rows| ==> HasExpected(rows[i], expected) && Answered(upper, rows[i])
    ensures r.Ok? ==> ReviewedFrom(upper, rows, r.value)
    ensures r.Err? ==> RowFault(upper, rows, expected, r.error)
  {
    hide RowId, Complete, NoRepeats, OneProvenance, WellFormedRow, HasExpected, ById, Records, Answered, AnswerFault;
    var result: seq<ReviewedRow> := [];
    for i := 0 to |rows|
      invariant |result| == i
      invariant forall k :: 0 <= k < i ==> HasExpected(rows[k], expected) && Answered(upper, rows[k])
      invariant forall k :: 0 <= k < i ==> Records(upper, ids[k], rows[k], result[k])
    {
      var one := ReviewOne(upper, rows[i], ids[i], expected);
      if one.Err? {
        return Err(one.error);
      }
      result := result + [one.value];
    }
    return Ok(result);
  }

  /** A refusal names a fault that the population or the file has. */
  ghost predicate Refuses(upper: string -> string, file: Option<CsvFile>, expected: seq<ExpectedRow>, e: GateError) {
    if e == ExpectedPopulation then !WellFormed(expected)
    else
      WellFormed(expected) &&
      if !Readable(file) then e == Malformed
      else IdentityFault(FileRows(file), expected, e) || RowFault(upper, FileRows(file), expected, e)
  }

  /** `verify_human_review_bytes` */
  method VerifyReview(upper: string -> string, file: Option<CsvFile>, expected: seq<ExpectedRow>)
    returns (r: Result<seq<ReviewedRow>, GateError>, ghost reviewed: seq<ReviewedRow>)
    ensures r.Ok? <==> Verified(upper, file, expected)
    ensures r.Ok? ==> ReviewedFrom(upper, FileRows(file), reviewed) && r.value == SortById(reviewed)
    ensures r.Err? ==> Refuses(upper, file, expected, r.error) && r.error != Rejected && r.error != Unresolved
  {
    hide RowId, Complete, NoRepeats, OneProvenance, WellFormedRow, HasExpected, Readable, Evidence, Permuted, ById,
      RowMatches, Records, Answered, IdsInRange, SortBy, FileRows, IdentityFault;
    reviewed := [];
    var validated := ValidateExpected(expected);
    if validated.Err? {
      return Err(validated.error), reviewed;
    }
    var read := ReadReviewCsv(file);
    if read.Err? {
      return Err(read.error), reviewed;
    }
    var rows := read.value;
    VerifiedMeans(upper, file, expected);
    hide Verified;
    var parsed := ParseIds(rows);
    if parsed.None? {
      NoIdNoEvidence(rows, expected);
      UnparsedId(rows, expected);
      return Err(Malformed), reviewed;
    }
    var ids := parsed.value;
    var failure := CheckIdentities(rows, ids, validated.value, expected);
    if failure.Some? {
      FaultKinds(rows, expected, failure.value);
      return Err(failure.value), reviewed;
    }
    r := ReviewRows(upper, rows, ids, expected);
    if r.Ok? {
      reviewed := r.value;
      r := Ok(SortById(r.value));
    }
  }

  lemma UnparsedId(rows: seq<Row>, expected: seq<ExpectedRow>)
    requires AllComplete(rows) && WellFormed(expected) && exists i :: 0 <= i < |rows| && RowId(rows[i]).None?
    ensures IdentityFault(rows, expected, Malformed)
  {
    hide RowId, Complete, WellFormedRow;
  }

  lemma NoIdNoEvidence(rows: seq<Row>, expected: seq<ExpectedRow>)
    requires AllComplete(rows) && WellFormed(expected)
    requires exists i :: 0 <= i < |rows| && RowId(rows[i]).None?
    ensures !Evidence(rows, expected)
  {
  }

  /** Checking the evidence row by row is checking for a permutation. */
  lemma VerifiedMeans(upper: string -> string, file: Option<CsvFile>, expected: seq<ExpectedRow>)
    requires WellFormed(expected) && Readable(file)
    ensures Verified(upper, file, expected) <==>
      && Evidence(FileRows(file), expected)
      && forall i :: 0 <= i < |FileRows(file)| ==> Answered(upper, FileRows(file)[i])
  {
    hide NoRepeats, OneProvenance, WellFormedRow, Readable, Evidence, Permuted, Answered, FileRows, IdsInRange, Complete;
    if Evidence(FileRows(file), expected) {
      EvidenceIsPermuted(FileRows(file), expected);
    }
    if Permuted(FileRows(file), expected) && IdsInRange(expected) {
      PermutedIsEvidence(FileRows(file), expected);
    }
  }

  predicate IsApproval(row: ReviewedRow) {
    row.decision == APPROVE && (row.relevant == YES || row.relevant == NO)
  }

  /** `require_full_approval` */
  function RequireFullApproval(rows: seq<ReviewedRow>): (failure: Option<GateError>)
    ensures failure.None? <==> forall i :: 0 <= i < |rows| ==> IsApproval(rows[i])
    ensures failure == Some(Rejected) <==> exists i :: 0 <= i < |rows| && rows[i].decision == REJECT
    ensures failure.Some? ==> failure.value in {Rejected, Unresolved}
  {
    if exists i :: 0 <= i < |rows| && rows[i].decision == REJECT then Some(Rejected)
    else if exists i :: 0 <= i < |rows| && !IsApproval(rows[i]) then Some(Unresolved)
    else None
  }

  lemma ApprovedIsVerified(upper: string -> string, file: Option<CsvFile>, expected: seq<ExpectedRow>)
    requires Approved(upper, file, expected)
    ensures Verified(upper, file, expected)
  {
    hide WellFormed, Readable, Permuted, Answered, IdsInRange, FileRows, Complete, HumanApproves, Reviewed;
    forall i | 0 <= i < |FileRows(file)| ensures Answered(upper, FileRows(file)[i]) {
      ApprovesMeaning(upper, 0, FileRows(file)[i]);
    }
  }

  lemma SortedApproval(sorted: seq<ReviewedRow>, reviewed: seq<ReviewedRow>)
    requires multiset(sorted) == multiset(reviewed)
    ensures (forall i :: 0 <= i < |sorted| ==> IsApproval(sorted[i]))
      <==> (forall i :: 0 <= i < |reviewed| ==> IsApproval(reviewed[i]))
  {
    hide IsApproval;
    PermutationKeeps(sorted, reviewed);
    assert forall i :: 0 <= i < |sorted| ==> sorted[i] in reviewed;
    assert forall i :: 0 <= i < |reviewed| ==> reviewed[i] in sorted;
  }

  lemma RecordApproves(upper: string -> string, id: nat, row: Row, r: ReviewedRow)
    requires Complete(row) && Records(upper, id, row, r)
    ensures HumanApproves(upper, row) <==> IsApproval(r)
    ensures r.decision == REJECT <==> Says(upper, row[HumanDecision], "REJECT")
  {
    hide Strip;
  }

  lemma ApprovalByRow(upper: string -> string, rows: seq<Row>, reviewed: seq<ReviewedRow>)
    requires AllComplete(rows) && ReviewedFrom(upper, rows, reviewed)
    ensures (forall i :: 0 <= i < |rows| ==> HumanApproves(upper, rows[i]))
      <==> (forall i :: 0 <= i < |reviewed| ==> IsApproval(reviewed[i]))
  {
    hide Complete, HumanApproves, Records, RowId;
    forall i | 0 <= i < |rows| ensures HumanApproves(upper, rows[i]) <==> IsApproval(reviewed[i]) {
      RecordApproves(upper, RowId(rows[i]).value, rows[i], reviewed[i]);
    }
    assert forall i :: 0 <= i < |reviewed| ==> (HumanApproves(upper, rows[i]) <==> IsApproval(reviewed[i]));
  }

  /** Some row's decision says REJECT. */
  ghost predicate SaysReject(upper: string -> string, rows: seq<Row>)
    requires AllComplete(rows)
  {
    exists i :: 0 <= i < |rows| && Says(upper, rows[i][HumanDecision], "REJECT")
  }

  lemma RejectByRow(upper: string -> string, rows: seq<Row>, reviewed: seq<ReviewedRow>, sorted: seq<ReviewedRow>)
    requires AllComplete(rows) && ReviewedFrom(upper, rows, reviewed) && multiset(sorted) == multiset(reviewed)
    ensures SaysReject(upper, rows) <==> exists i :: 0 <= i < |sorted| && sorted[i].decision == REJECT
  {
    hide HumanApproves, Records, RowId, Says;
    PermutationKeeps(sorted, reviewed);
    PermutationKeeps(reviewed, sorted);
    forall i | 0 <= i < |rows|
      ensures reviewed[i].decision == REJECT <==> Says(upper, rows[i][HumanDecision], "REJECT")
      ensures reviewed[i] in sorted
    {
      RecordApproves(upper, RowId(rows[i]).value, rows[i], reviewed[i]);
    }
    if i :| 0 <= i < |sorted| && sorted[i].decision == REJECT {
      assert sorted[i] in reviewed;
      var k :| 0 <= k < |reviewed| && reviewed[k] == sorted[i];
      assert Says(upper, rows[k][HumanDecision], "REJECT");
    }
    if i :| 0 <= i < |rows| && Says(upper, rows[i][HumanDecision], "REJECT") {
      var k :| 0 <= k < |sorted| && sorted[k] == reviewed[i];
    }
  }

  /** `enforce_human_review_gate` on the decoded file. */
  method EnforceGate(upper: string -> string, file: Option<CsvFile>, expected: seq<ExpectedRow>)
    returns (r: Result<seq<ReviewedRow>, GateError>, ghost reviewed: seq<ReviewedRow>)
    ensures r.Ok? <==> Approved(upper, file, expected)
    ensures r.Ok? ==> ReviewedFrom(upper, FileRows(file), reviewed) && r.value == SortById(reviewed)
    ensures r == Err(Rejected) || r == Err(Unresolved) <==>
      Verified(upper, file, expected) && !Approved(upper, file, expected)
    ensures r == Err(Rejected) <==> Verified(upper, file, expected) && SaysReject(upper, FileRows(file))
    ensures r.Err? && r.error != Rejected && r.error != Unresolved ==> Refuses(upper, file, expected, r.error)
  {
    hide WellFormed, Readable, Permuted, Answered, IdsInRange, SortBy, FileRows, Complete, RowId, HumanApproves, Records,
      Refuses, SaysReject;
    r, reviewed := VerifyReview(upper, file, expected);
    if r.Err? {
      if Approved(upper, file, expected) {
        ApprovedIsVerified(upper, file, expected);
      }
      return;
    }
    SortFacts(JobIdOf, reviewed);
    SortedApproval(r.value, reviewed);
    ApprovalByRow(upper, FileRows(file), reviewed);
    RejectByRow(upper, FileRows(file), reviewed, r.value);
    var failure := RequireFullApproval(r.value);
    if failure.Some? {
      r := Err(failure.value);
    }
  }

  /** The row is the review of one expected job. */
  ghost predicate ReviewsOne(row: ReviewedRow, expected: seq<ExpectedRow>)
    requires AllWellFormed(expected)
  {
    exists j :: 0 <= j < |expected| && row.jobId == IdOf(expected[j]) && row.fingerprint == FingerprintOf(expected[j])
  }

  lemma ReviewedOne(upper: string -> string, row: Row, expected: seq<ExpectedRow>, reviewed: ReviewedRow)
    requires Complete(row) && WellFormed(expected) && HasExpected(row, expected)
    requires RowId(row).Some? && Records(upper, RowId(row).value, row, reviewed)
    ensures ReviewsOne(reviewed, expected)
  {
    hide Complete, Records, RowId, RowMatches, IdOf, FingerprintOf, WellFormedRow, OneProvenance, NoRepeats, RowFingerprint;
    var j :| 0 <= j < |expected| && RowId(row) == Some(IdOf(expected[j])) && RowMatches(row, expected[j]);
    MatchedRow(row, expected[j]);
    ReviewedId(upper, row, RowId(row).value, reviewed);
  }

  lemma DistinctReviewed(upper: string -> string, rows: seq<Row>, expected: seq<ExpectedRow>, reviewed: seq<ReviewedRow>)
    requires AllComplete(rows) && WellFormed(expected) && Evidence(rows, expected)
    requires ReviewedFrom(upper, rows, reviewed)
    ensures DistinctKeys(JobIdOf, reviewed)
  {
    hide NoRepeats, Complete, Records, RowId, HasExpected, HasRow, RowFingerprint, RowProvenance, WellFormedRow,
      OneProvenance;
    forall i, j | 0 <= i < j < |reviewed| ensures JobIdOf(reviewed[i]) != JobIdOf(reviewed[j]) {
      ReviewedId(upper, rows[i], RowId(rows[i]).value, reviewed[i]);
      ReviewedId(upper, rows[j], RowId(rows[j]).value, reviewed[j]);
      assert RowId(rows[i]) != RowId(rows[j]);
    }
  }

  /** What a verified review returns: one row per expected job, in ascending
      order of the ids, each with that job's id and fingerprint. */
  lemma ReviewedPopulation(upper: string -> string, file: Option<CsvFile>, expected: seq<ExpectedRow>,
                           reviewed: seq<ReviewedRow>)
    requires Verified(upper, file, expected) && ReviewedFrom(upper, FileRows(file), reviewed)
    ensures var sorted := SortById(reviewed);
      && |sorted| == |expected|
      && StrictlyOrdered(JobIdOf, sorted)
      && (forall k :: 0 <= k < |sorted| ==> ReviewsOne(sorted[k], expected))
  {
    hide NoRepeats, Readable, Answered, IdsInRange, FileRows, Complete, Records, RowId, HasExpected, HasRow, ReviewsOne,
      RowFingerprint, RowProvenance, WellFormedRow, OneProvenance, SortBy, DistinctKeys, StrictlyOrdered, Ordered;
    var rows, sorted := FileRows(file), SortById(reviewed);
    VerifiedMeans(upper, file, expected);
    PermutationKeeps(ShownRows(rows), ExportedRows(expected));
    SortFacts(JobIdOf, reviewed);
    PermutationKeeps(sorted, reviewed);
    DistinctReviewed(upper, rows, expected, reviewed);
    SortStrictly(JobIdOf, reviewed);
    forall i | 0 <= i < |reviewed| ensures ReviewsOne(reviewed[i], expected) {
      ReviewedOne(upper, rows[i], expected, reviewed[i]);
    }
    forall k | 0 <= k < |sorted| ensures ReviewsOne(sorted[k], expected) {
      assert sorted[k] in reviewed;
    }
  }

  lemma ReviewedId(upper: string -> string, row: Row, id: nat, r: ReviewedRow)
    requires Complete(row) && Records(upper, id, row, r)
    ensures r.jobId == id && r.fingerprint == RowFingerprint(row)
  {
    hide Says, Strip;
  }
}
