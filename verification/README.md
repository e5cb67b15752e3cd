# Verified model of a job-application assistant

This Dafny project models five parts of the application and proves what they promise.

1. **Offline rescore** (`scripts/offline_rescore_stage12.py`). A preview scores every vacancy, a human
   reviews an export of it, the approved bytes are made durable, and one transaction writes three columns
   per vacancy. Modules: `RescoreApply` and `SecondCommitExample` (the transaction against competing
   writers), `ReviewProvenance` (the digest naming one preview), `ReviewPopulation` (who is exported for
   review), `ReviewGate` (the reviewed file), `ApprovalEvidence` (the audit files).
2. **Matcher, CV draft and letter** (`app/agents/candidate_job_matcher.py`, `app/agents/cv_adapter.py`,
   `app/agents/bewerbung_renderer.py`). Modules: `RequiredText`, `SubjectRestoration`, `ResidualText`,
   `ResidualMeaning`, `ShownParentheses` and `ParenthesisExample` (required text no typed requirement evaluated), `FailClosed`
   (from that text to the scores), `ExperienceDuration`, `MatchScores`, `CandidateMatcher`, `MatchMeaning`
   and `MatchContents` (what a match says about each need, and its scores, rows, claims and warnings),
   `CvAdapter` and `DraftMeaning` (the draft and what it shows), `LetterRenderer` and `LetterMeaning` (the
   letter and what it says), and `TrustPipeline`, which composes all three documents.
3. **Source rewriter** (`scripts/strip_review_attribution.py`). Modules: `AttributionStripper` (lines and
   texts), `AttributionMeaning` (what is removed, in terms of characters), `SourceSplicing` (edits spliced
   into a source file).
4. **Assessment cache** (`scripts/stage21_assess_vacancies.py`, `app/services/fit_cache.py`). Module:
   `AssessmentCache`.
5. **Scoring and classification** (`app/agents/job_scorer.py`, `app/agents/data_confidence.py`,
   `app/agents/evidence_cardinality_classifier.py`, `app/agents/email_classifier.py`,
   `app/agents/application_response_classifier.py`, `scripts/build_job_ad_common_stems.py`). Modules:
   `JobScoring`, `MailClassification`, `StemPrinter`.

`Wrappers`, `Sequences`, `Permutations`, `Sorting`, `Ordering`, `Decimal`, `PythonText`, `CandidateTrust`,
`CandidateProfile` and `MatchModel` hold what several of these share.

How to read it. Code that computes is a function; code that loops or mutates is a method proved equal to a
specification function, and the promises are lemmas about that function or clauses of the method. The two
databases and the file system are classes whose state is tied to a ghost history of every committed step;
other writers are an arbitrary environment that acts before each statement. Regular expressions, word
lists, the case table, the scoring rules behind the scripts and the language model provider are arbitrary
functions, so every statement holds for all of them. Beside that, what each operation computes is
described without its own functions, down to row fields, characters, texts and numbers: the members named
`...Meaning`, `...Outcome`, `...Reads` and `...IsDescribed`. `dafny verify dfyconfig.toml` checks the project.

Four promises do not hold as written. Each has a lemma with a failing input and one with the exact
condition.

- The merged duration counts the distinct covered days: `ExperienceDuration.FutureStartLosesDays`,
  `MergedDaysExact`.
- Unevaluated required text always keeps the required score below 100 (module documentation of the
  matcher): `FailClosed.HundredWithLineLeft`, `HundredDespiteUnevaluated`; with at most 99 required
  requirements it does, `FailClosed.FullMarksMeansEvaluated`.
- A preview is applied once: `SecondCommitExample.RestoredScoresChangeAgain`, `RescoreApply.SecondCommit`.
- A parenthesis taken over into a residual text holds nothing but technologies (comment of the matcher):
  `ParenthesisExample.LanguageInParenthesis`, `ShownParentheses.TechnologiesOnlyIff`.

That untrusted facts have no influence needs row ids to be unique, as the database keeps them;
`CvAdapter.DuplicateIdsBreakTrust` shows what two rows under one id would do.

## Model

| member | source | states |
|---|---|---|
| RescoreApply.Database.ApplyRescore | scripts/offline_rescore_stage12.py:863-1026 | In every interleaving with other writers: a rollback leaves only what the others did; a commit is one event, the last one, and on PostgreSQL the state directly before it still has the previewed context, the pilot counts, and every previewed row with each of its 17 columns and lists reading as previewed and a recomputation, from the row's own fields, equal to the preview. Without failing statements it commits exactly when that already held when the context was read, and a refusal names what is wrong in that state: context, row set, pilot, or the first drifted or differently scored row. |
| RescoreApply.Database.LockRows | scripts/offline_rescore_stage12.py:911-934 | On success all previewed rows were found and, on PostgreSQL, they and the pilot counts are those of the state in which the locks were taken; it refuses only if the preview was not ready there. |
| RescoreApply.Database.ScoreRows | scripts/offline_rescore_stage12.py:936-995 | The row loop produces exactly the previewed outcomes, and gets through only if every previewed row is undrifted and recomputes to them; it refuses only if some row does not. |
| RescoreApply.Database.Recheck | scripts/offline_rescore_stage12.py:1016-1022 | The last recheck runs on the transaction's own view and passes only if the pilot counts still hold at commit. |
| RescoreApply.Database.Others | scripts/offline_rescore_stage12.py:182-200 | Whatever other writers commit, the tables and rows the held locks protect stay as they were when the locks were taken. |
| RescoreApply.CommitMeaning | scripts/offline_rescore_stage12.py:970-974 | After a commit every previewed row stores the evaluation of its own present fields under the present context; no other column, row or table differs, and the pilot counts hold. |
| RescoreApply.ApprovedPopulation | scripts/offline_rescore_stage12.py:1042-1060 | A preview of exactly the pilot's number of jobs commits on exactly the previewed set of jobs. |
| RescoreApply.ReadyIffUndrifted | scripts/offline_rescore_stage12.py:542-567 | For a real preview, apply is ready exactly when the scoring context and the pilot counts are as previewed and each of the 17 input values of every previewed row, named field by field, is the one the preview saw; without drift the recomputation cannot disagree. |
| RescoreApply.SnapshotMeaning | scripts/offline_rescore_stage12.py:542-567 | A snapshot is the row's if and only if its fingerprint, both timestamps, source, title, company, location, URL, posting type, description, three parsed lists, skill source and three score columns all agree. |
| RescoreApply.DriftMeaning | scripts/offline_rescore_stage12.py:947-951 | Two states of a row count as undrifted exactly when these 17 values are equal one by one. |
| RescoreApply.VacancyMeaning | scripts/offline_rescore_stage12.py:591-608 | The recomputation sees exactly the vacancy fields of the row: an outcome is its evaluation if and only if it is the evaluation of these fields. |
| RescoreApply.ContextMeaning | scripts/offline_rescore_stage12.py:610-641 | The scoring context is read exactly from the one profile with id 1; no profile and several profiles are the two refusals. |
| RescoreApply.PilotMeaning | scripts/offline_rescore_stage12.py:1087-1133 | The identity check passes exactly with 222 jobs of pairwise distinct fingerprints, one profile and two runs, in the pilot's database on PostgreSQL. |
| RescoreApply.PreviewMeaning | scripts/offline_rescore_stage12.py:782-860 | A preview is the one of a state exactly when it holds that state's context and, for every job and no other, its present input values and their evaluation. |
| RescoreApply.PreviewIsReady | scripts/offline_rescore_stage12.py:782-860 | With nobody interfering, the preview of the pilot is ready to be applied to it and covers all 222 jobs. |
| RescoreApply.OnlyScoresChange | scripts/offline_rescore_stage12.py:162 | In every history, deleting all rescores leaves every row and every value outside the three score columns the same. |
| RescoreApply.NeverTwice | scripts/offline_rescore_stage12.py:863-1026 | After a commit, whatever other writers and other previews did since: writing the same preview again changes nothing exactly when every previewed row still carries its scores, and otherwise an event in between gave such a row other scores. |
| RescoreApply.AppliedIsFixed | scripts/offline_rescore_stage12.py:970-974 | Writing a preview leaves a database as it is exactly when every previewed row stores its scores. |
| RescoreApply.SecondCommit | scripts/offline_rescore_stage12.py:863-1026 | Over arbitrary events in between, other previews included, a second commit of a preview changes the database exactly when some previewed row no longer stores its scores; that is when the preview rescores some row at all, and each such row was put back to its former scores in between. |
| SecondCommitExample.RestoredScoresChangeAgain | scripts/offline_rescore_stage12.py:947-951 | A concrete pilot whose preview the gate accepts as a population, and a history in which a writer puts back one row: the same preview is ready again and changes the database a second time. |
| RescoreApply.AgainOnlyIfUnchanged | scripts/offline_rescore_stage12.py:947-951 | Directly after its own commit a preview would be accepted again if and only if it had changed nothing. |
| RescoreApply.OwnWorkKeepsPilot | scripts/offline_rescore_stage12.py:1087-1133 | Writing scores never changes the outcome of the identity check. |
| RescoreApply.WritersReachAll | scripts/offline_rescore_stage12.py:863-1026 | Nothing is assumed of the other writers: between any two statements they can bring about any state of the same database with at most the one profile. |
| ReviewProvenance.CanonicalInjective | scripts/offline_rescore_stage12.py:1238-1273 | Two accepted values have the same canonical form exactly when they are equal up to list/tuple, string subclasses and timestamps of one instant. |
| ReviewProvenance.DateIsNoDict | scripts/offline_rescore_stage12.py:1232-1235 | A tagged timestamp never equals the canonical form of a caller's dictionary. |
| ReviewProvenance.SameInput | scripts/offline_rescore_stage12.py:1308 | The 17 serialized input values identify the snapshot. |
| ReviewProvenance.SamePayload | scripts/offline_rescore_stage12.py:1296-1313 | Two payloads are the same up to these identifications exactly when context, sample seed and the list of jobs with inputs and outcomes are equal. |
| ReviewProvenance.AcceptedPayload | scripts/offline_rescore_stage12.py:1314-1320 | The payload of a preview is never refused by the strict serializer. |
| ReviewProvenance.ProvenanceNamesOnePreview | scripts/offline_rescore_stage12.py:1276-1321 | Equal digests if and only if same context, same seed and the same jobs, inputs and outcomes, whatever the order of the results. |
| ReviewProvenance.SameProvenanceSamePreview | scripts/offline_rescore_stage12.py:1285-1288 | Previews with the same digest make apply expect the same context, rows and scores, so a foreign or stale review authorizes nothing else. |
| ReviewPopulation.SelectedMeaning | scripts/offline_rescore_stage12.py:1332-1348 | The export holds every APPLY, every MAYBE and every SKIP scoring at least 60, plus a sample of at most 20 other skips, each job once, in ascending order of ids; its size is exactly that count. |
| ReviewPopulation.GroupedDistinct | scripts/offline_rescore_stage12.py:1343-1347 | The assertion that no job is selected by two groups can never fail. |
| ReviewPopulation.BuildReviewRows | scripts/offline_rescore_stage12.py:1324-1391 | The row-building loop yields the specified export, and its four counters add up to the rows, the first three to all outcomes that must be reviewed. |
| ReviewPopulation.ExportIsWellFormed | scripts/offline_rescore_stage12.py:1445-1486 | The export of a preview passes the population check of the gate exactly when some previewed job is APPLY, MAYBE or SKIP. |
| ReviewPopulation.ApprovalCoversOutcomes | scripts/offline_rescore_stage12.py:1626-1642 | If the gate approves a file for the export, every previewed APPLY, MAYBE and high-score SKIP has an approving row with its id and fingerprint. |
| ReviewPopulation.MatchesIffReads | scripts/offline_rescore_stage12.py:1349-1391 | A submitted row matches an exported one exactly when each of its cells reads the job's own value: the id and scores in decimal, the confidence in its shortest representation, missing values empty, free text guarded. |
| ReviewPopulation.ApprovedFileReads | scripts/offline_rescore_stage12.py:1546-1652 | The gate approves a file for the export of a preview exactly when the rows of the file are, in any order, one for each selected job, every cell reads that job's value, and each row says APPROVE. |
| ReviewPopulation.CommittedOutcomesWereApproved | scripts/offline_rescore_stage12.py:1884-1910 | Across export, gate and transaction: after a commit every previewed job whose stored outcome needs a review was approved by a row naming its id and its present fingerprint. |
| ReviewGate.ParseJobIdExact | scripts/offline_rescore_stage12.py:1415-1429 | A submitted id is accepted exactly when it is the decimal text of a number from 1 to 2147483647. |
| ReviewGate.ValidateExpected | scripts/offline_rescore_stage12.py:1445-1486 | Accepts exactly the non-empty populations with complete rows, positive distinct ids, non-blank distinct fingerprints and one non-blank provenance; a refusal is the population error. |
| ReviewGate.ReadReviewCsv | scripts/offline_rescore_stage12.py:1498-1530 | Accepts exactly files whose header is a permutation of the columns and whose records are blank or of the header's width, with at least one row. |
| ReviewGate.CellByName | scripts/offline_rescore_stage12.py:1522-1525 | The order of the columns does not matter: every cell is found under its column's name. |
| ReviewGate.EvidenceIsPermuted | scripts/offline_rescore_stage12.py:1563-1604 | If all row, identity and population checks pass, the file's immutable cells are a permutation of the export and all ids are in range. |
| ReviewGate.PermutedIsEvidence | scripts/offline_rescore_stage12.py:1563-1604 | Conversely, every permutation of the export with ids in range passes all of those checks. |
| ReviewGate.CheckIdentities | scripts/offline_rescore_stage12.py:1565-1594 | The checks over all rows together fail only on files that are no permutation of the export; once they pass, what is left to check is each row against its expected one. |
| ReviewGate.ReviewRows | scripts/offline_rescore_stage12.py:1596-1617 | The row loop succeeds exactly when every row equals an expected one cell by cell and both human cells parse, and then returns what the rows say. |
| ReviewGate.ApprovesMeaning | scripts/offline_rescore_stage12.py:1533-1543 | A row counts as approved exactly when its two human cells parse to YES or NO and to APPROVE. |
| ReviewGate.ReviewedMeaning | scripts/offline_rescore_stage12.py:1596-1617 | A row is read as a decision exactly when both human cells, stripped and in upper case, spell one of YES, NO, UNSURE and one of APPROVE, REJECT, REVIEW, and then as what they spell; an empty cell is incomplete, any other text invalid. |
| ReviewGate.VerifyReview | scripts/offline_rescore_stage12.py:1546-1618 | Verification succeeds exactly for well-formed populations with ids in range and readable files whose rows, cell text by cell text, are a permutation of the export with every human cell answered; the result is the reviewed rows sorted by id, and each refusal carries the error of the first check that fails. |
| ReviewGate.RequireFullApproval | scripts/offline_rescore_stage12.py:1626-1642 | Passes exactly when every row is approved; the rejection error is raised exactly when some row is REJECT. |
| ReviewGate.EnforceGate | scripts/offline_rescore_stage12.py:1645-1652 | The gate accepts exactly the fully approved permutations of the export; it refuses as rejected exactly the verified files with a REJECT, as unresolved the other verified ones, and the rest with the error of the failing check. |
| ReviewGate.ReviewedPopulation | scripts/offline_rescore_stage12.py:1618 | The returned rows are in strictly ascending order of ids and in bijection with the expected population, with its ids and fingerprints. |
| ApprovalEvidence.FileSystem.ReadAtMost | scripts/offline_rescore_stage12.py:1682-1689 | Reading in chunks of any size returns exactly the first `limit` bytes. |
| ApprovalEvidence.FileSystem.SyncExisting | scripts/offline_rescore_stage12.py:1655-1696 | An existing artifact is accepted exactly when every call proceeds, the path still names the file first seen, and that file is regular, has one link and holds exactly the intended bytes; it is synced in this call and its content is never changed. |
| ApprovalEvidence.FileSystem.WriteNew | scripts/offline_rescore_stage12.py:1707-1710 | A new artifact succeeds exactly when writing and syncing proceed; a failure may leave a regular one-link file with a prefix of the bytes, or all of them unsynced, and touches no other. |
| ApprovalEvidence.FileSystem.CreateExclusive | scripts/offline_rescore_stage12.py:1699-1718 | Success means the path holds exactly the bytes, synced in this call; undisturbed, it is reached exactly when the path is free or names a regular one-link file with these bytes. A pre-existing artifact is still the same file and is never rewritten. |
| ApprovalEvidence.FileSystem.Preserve | scripts/offline_rescore_stage12.py:1730-1762 | Success means both the reviewed bytes and the manifest are in place and were synced in this call; undisturbed, it is reached exactly when each of the two paths is free or already names such a file. |
| ApprovalEvidence.FileSystem.AttemptApply | scripts/offline_rescore_stage12.py:1884-1910 | Apply starts only if the submitted bytes pass the review gate and, in this attempt, both audit files were found or made exact and synced; undisturbed, it starts exactly when the bytes pass and each audit path is free or names a regular one-link file with the exact bytes. Refused bytes leave every file as it was; no file that existed is rewritten; evidence of earlier applies stays. |
| ApprovalEvidence.FileSystem.Run | scripts/offline_rescore_stage12.py:1645-1762 | Over any sequence of attempts with failing or dying system calls and machine crashes, every apply ever started was fully approved for the export it was submitted for, and still has its exact evidence at the end. |
| AttributionStripper.UnmatchedConcat | scripts/strip_review_attribution.py:104-115 | The unmatched parentheses of a concatenation are determined by those of its parts. |
| AttributionStripper.ClosesAnEarlierLine | scripts/strip_review_attribution.py:104-115 | The scan answers exactly whether some closing parenthesis has no opener in the text. |
| AttributionStripper.SplitLabel | scripts/strip_review_attribution.py:67-101 | The index-scanning loops find exactly the specified lead, label and rest. |
| AttributionStripper.LabelIsBalanced | scripts/strip_review_attribution.py:88-101 | A label has balanced parentheses, and every earlier colon in it stands inside a parenthesis. |
| AttributionStripper.InnermostComplete | scripts/strip_review_attribution.py:57 | The left-to-right search misses no innermost parenthetical. |
| AttributionStripper.RunPass | scripts/strip_review_attribution.py:154-162 | One right-to-left pass removes exactly the provenance parentheticals found before it, and reports a change exactly when the line got shorter. |
| AttributionStripper.DropParentheticals | scripts/strip_review_attribution.py:150-164 | The fixpoint loop terminates with the specified line. |
| AttributionStripper.DropPassStable | scripts/strip_review_attribution.py:163-164 | A pass changes nothing exactly when none of the parentheticals is provenance. |
| AttributionStripper.DropAllFacts | scripts/strip_review_attribution.py:150-164 | Dropping only deletes, keeps every unmatched parenthesis and leaves no provenance parenthetical, nested ones included. |
| AttributionStripper.DropLeadingColonFacts | scripts/strip_review_attribution.py:118-127 | Dropping the colon a removed leading tag leaves only deletes, keeps every unmatched parenthesis, and creates no provenance parenthetical. |
| AttributionStripper.StripLabels | scripts/strip_review_attribution.py:176-182 | The label loop terminates with all leading provenance labels removed. |
| AttributionStripper.RewriteText | scripts/strip_review_attribution.py:167-184 | The text loop computes the specified cleaned text. |
| AttributionStripper.CleanLineFacts | scripts/strip_review_attribution.py:171-183 | Cleaning a line only deletes, keeps its unmatched parentheses, so one spanning lines is never broken, and leaves nothing to remove. |
| AttributionStripper.CleanLineFixpoint | scripts/strip_review_attribution.py:171-183 | A line is left alone exactly when it has no provenance parenthetical, no removable label and is no untrimmed empty comment. |
| AttributionStripper.CleanTextByLine | scripts/strip_review_attribution.py:171-184 | The cleaned text has the same number of lines, each the cleaned one. |
| AttributionStripper.CleanTextIdempotent | scripts/strip_review_attribution.py:167-184 | Cleaning twice is cleaning once, and a text is a fixpoint exactly when every line is clean. |
| AttributionStripper.CleanTextOnlyDeletes | scripts/strip_review_attribution.py:167-184 | The cleaned text is a subsequence of the text and keeps the unmatched parentheses of every line and of the whole. |
| AttributionMeaning.ParensMeaning | scripts/strip_review_attribution.py:104-115 | Counting agrees with the scan: no closing parenthesis lacks an opener exactly when no prefix holds more closing than opening ones. |
| AttributionMeaning.LabelMeaning | scripts/strip_review_attribution.py:67-101 | A label is removed exactly when the line carries it: behind indentation, comment marker, docstring opener, list mark and bold marker, a text balanced in parentheses up to the first colon outside them, followed by a blank or the end, provenance once its parentheses are blanked, with a rest that closes no parenthesis of an earlier line. |
| AttributionMeaning.PassMeaning | scripts/strip_review_attribution.py:154-162 | One pass removes exactly the characters inside provenance parentheticals and the spaces directly before them, except the indentation of a line they start, and keeps all others in order. |
| AttributionMeaning.CleanLineMeaning | scripts/strip_review_attribution.py:167-184 | What cleaning does to a line, step by step in terms of its characters: passes until no provenance parenthetical is left, the stray colon only after such a removal, the labels one by one until none is left, and the white space behind a lonely #. |
| AttributionMeaning.UntouchedMeaning | scripts/strip_review_attribution.py:167-184 | A line is left alone exactly when it has no such parenthetical and no such label, and no white space follows a lonely #, with all three written out in its characters. |
| SourceSplicing.SpliceRightToLeft | scripts/strip_review_attribution.py:247-249 | Splicing disjoint edits from the right equals substituting all of them at once. |
| SourceSplicing.SpliceAll | scripts/strip_review_attribution.py:247-249 | Sorting and splicing depends only on the set of edits. |
| SourceSplicing.KeptIsDisjoint | scripts/strip_review_attribution.py:239-246 | After docstring edits win, the kept spans are pairwise disjoint, and they are exactly the docstring edits and the comment edits that overlap none. |
| SourceSplicing.CollectionOrderIrrelevant | scripts/strip_review_attribution.py:241-246 | Collecting the same edits in another order keeps the same set. |
| SourceSplicing.DocEditsFacts | scripts/strip_review_attribution.py:222-225 | Docstring edits are disjoint and each only deletes within its span. |
| SourceSplicing.CommentEditsFacts | scripts/strip_review_attribution.py:227-238 | Comment edits are disjoint, also when one takes its whole line and newline, and each only deletes. |
| SourceSplicing.DocstringEdits | scripts/strip_review_attribution.py:221-225 | Each docstring is replaced by its own cleaned text, from where it starts to where it ends in the source, and there is no other docstring edit. |
| SourceSplicing.CommentEditMeaning | scripts/strip_review_attribution.py:227-238 | A comment goes with its whole line and newline exactly when it stands alone on it and cleaning leaves a bare # of something that was more; otherwise its span is replaced by its cleaned text. |
| SourceSplicing.KeptMeaning | scripts/strip_review_attribution.py:207-246 | An edit is kept exactly when it replaces a docstring by its cleaned text, or cleans a comment that overlaps no docstring, with all places given by row and column. |
| SourceSplicing.CleanedFacts | scripts/strip_review_attribution.py:207-249 | For every cleaner that only deletes, the kept edits are disjoint, the cleaned source is a subsequence of the source, and every character outside the kept edits survives in order. |
| SourceSplicing.CleanSource | scripts/strip_review_attribution.py:207-249 | Collecting, keeping and splicing computes the simultaneous substitution of exactly the kept edits, as the places of the docstrings and comments define them; the result only deletes and every character outside the edits survives. |
| AssessmentCache.ReplayKeepsTruth | app/services/fit_cache.py:380-425 | In every history every cached row holds the assessment of the inputs its key names. |
| AssessmentCache.FreshMeansCurrent | app/services/fit_cache.py:329-332 | In every history a FRESH row holds the assessment of the current inputs of its vacancy. |
| AssessmentCache.StateIsIn | app/services/fit_cache.py:329-332 | A vacancy without a cached row is not assessed; with one it is fresh when the row was computed from its present inputs by the present version, and stale otherwise. |
| AssessmentCache.LaterRowsSurvive | scripts/stage21_assess_vacancies.py:203-205 | A row another writer stored after a batch's observation is still there, unchanged, after the batch commits. |
| AssessmentCache.CacheDatabase.AssessBatch | scripts/stage21_assess_vacancies.py:196-221 | Against any writers and faults, one attempt either leaves only the others' work or commits as the last event what it computed from the one state it saw, and returns the number of vacancies still present there. |
| AssessmentCache.CacheDatabase.WriteBatch | scripts/stage21_assess_vacancies.py:282-291 | Of up to three attempts at most one commits; giving up with a conflict means that all three were made; it leaves only the others' work. |
| AssessmentCache.CacheDatabase.Apply | scripts/stage21_assess_vacancies.py:294-321 | Under faults at every point, the one between a commit and its counter included: the reported rows never exceed the committed ones, are exact unless the run was interrupted, and then miss at most the last batch; exit 0 means every planned vacancy was in a committed batch, and unless interrupted committed and conflicted vacancies add up to the plan. |
| AssessmentCache.CacheDatabase.MakePlan | scripts/stage21_assess_vacancies.py:182-193 | The plan lists exactly the vacancies that are stale or, unless restricted, not assessed, newest first, and counts every cache state exactly. |
| AssessmentCache.RefreshingLowers | scripts/stage21_assess_vacancies.py:206-220 | Refreshing a list takes exactly these vacancies out of the stale and out of the not-fresh ones. |
| AssessmentCache.RunLowers | scripts/stage21_assess_vacancies.py:256-257 | Refreshing the first n planned vacancies lowers the open work by exactly n and touches no row that was not open. |
| AssessmentCache.CacheDatabase.Run | scripts/stage21_assess_vacancies.py:224-279 | With nobody interfering a run lowers the open work by min(limit, open), an unlimited run leaves none, and rows that were not open are untouched; a limit below 1 is refused without a write. |
| RequiredText.Mask | app/agents/candidate_job_matcher.py:1056-1060 | The in-place blanking loop turns exactly the characters inside evaluated spans into blanks. |
| RequiredText.SplitClauses | app/agents/candidate_job_matcher.py:1062-1086 | The clauses are exactly the stretches between the boundaries that are no part of a hyphen ellipsis. |
| RequiredText.ClausesCover | app/agents/candidate_job_matcher.py:1062-1086 | Clauses and counting boundaries cover the line: whatever no counting boundary reaches into lies in one clause. |
| RequiredText.TokenInClause | app/agents/candidate_job_matcher.py:1075 | A token of the masked line that no counting boundary reaches into is a token of a clause, if tokens do not depend on the text around them. |
| RequiredText.WordInIdentity | app/agents/candidate_job_matcher.py:1247-1249 | A word of a text is still found, folded and without trailing punctuation, in the identity the text is deduplicated by. |
| SubjectRestoration.StepBack | app/agents/candidate_job_matcher.py:1174-1204 | Every step back strictly lowers the start of the phrase and never passes the start of the clause, so the unbounded loop ends. |
| SubjectRestoration.PhraseStart | app/agents/candidate_job_matcher.py:1174-1205 | Where no step is left, the subject starts between the start of the clause and the phrase. |
| SubjectRestoration.ShowLeading | app/agents/candidate_job_matcher.py:1174-1204 | The loop stops exactly at that start and has restored every technology between it and the head. |
| SubjectRestoration.ShowTrailing | app/agents/candidate_job_matcher.py:1160-1173 | All technologies after the head in its clause are shown, and a following parenthesis with its technologies exactly when nothing but list separators is left in it once evaluated text is blanked. |
| SubjectRestoration.ClauseText | app/agents/candidate_job_matcher.py:1120-1206 | The text of a clause shows all its kept words and, for every experience phrase, its technologies before and after the head; only white space, technologies and parentheses around evaluated text are taken back from the blanked text. |
| SubjectRestoration.RestoredText | app/agents/candidate_job_matcher.py:1236-1244 | A stretch of the line with exactly its evaluated technologies restored. |
| SubjectRestoration.WordShown | app/agents/candidate_job_matcher.py:1206 | A word left after masking occurs in every collapsed text that shows its place. |
| ResidualText.EssentialMeaning | app/agents/candidate_job_matcher.py:1088-1116 | The words of a clause that must be reported are exactly its kept words, and all words of an unowned clause that has a head but keeps nothing, unless it is a bare knowledge head sharing its right neighbour's complement. |
| ResidualText.SilentMeaning | app/agents/candidate_job_matcher.py:1097-1116 | A clause leaves no text exactly when nothing in it is kept and it is owned, has no head, or shares its right complement without an experience head. |
| ResidualText.MaterialMustReport | app/agents/candidate_job_matcher.py:1089 | Every material word left after masking is among the words that must be reported. |
| ResidualText.ClauseTexts | app/agents/candidate_job_matcher.py:1088-1116 | Each clause yields at most one text, none exactly when nothing is kept and the clause does not stand on its own, and the text holds every word that must be reported, also where a complement or a technology is shared with a neighbour. |
| ResidualText.ResidualClauses | app/agents/candidate_job_matcher.py:1039-1117 | Of a whole line, every word that must be reported, bare heads of independent clauses included, is held by some text, and no text shows anything the line's display does not. |
| ResidualText.Report | app/agents/candidate_job_matcher.py:1276-1282 | A text becomes a new requirement or one more line of evidence of the one with its identity; nothing reported before is changed. |
| ResidualText.Unevaluated | app/agents/candidate_job_matcher.py:1252-1283 | No required text is silently lost: a line without evaluated span is reported whole; of any other line every material token of every clause, and every word that must be reported, bare heads included, is held by a requirement that cites the line; one requirement per identity; and every requirement comes from some line and shows nothing else. |
| ResidualText.ExposesNothingElse | app/agents/candidate_job_matcher.py:1142-1206 | The visible characters of a residual text stand in its line at strictly increasing places, each unevaluated, in an evaluated technology, or a parenthesis every inner character of which is evaluated or part of a list separator. |
| ResidualMeaning.ClauseMeaning | app/agents/candidate_job_matcher.py:1062-1086 | A clause has the tokens of its stretch of the masked line, is owned exactly when an evaluated span reaches into it, and names as compounds exactly its experience heads with a technology directly before them or after them in the clause. |
| ResidualMeaning.CountingMeaning | app/agents/candidate_job_matcher.py:1064-1068 | A comma or conjunction counts as a boundary exactly unless a hyphen stands directly before it; parentheses always count. |
| ResidualMeaning.QualifiedMeaning | app/agents/candidate_job_matcher.py:983-986 | The qualified words of a clause are exactly those the classifier names, given its words with a hyphen in front of each compound. |
| ResidualMeaning.StepMeaning | app/agents/candidate_job_matcher.py:1174-1204 | Each step back from an experience phrase is the first that applies: over a technology of which only blanked-out characters and spaces stand before the phrase, over a hyphen ellipsis, or, once coordinated, over a leading word that is no stop word. |
| ResidualMeaning.PhraseMeaning | app/agents/candidate_job_matcher.py:1174-1205 | The subject of a phrase starts where a chain of such steps ends that cannot be extended. |
| ResidualMeaning.PairMeaning | app/agents/candidate_job_matcher.py:1164-1173 | A parenthesis is taken over exactly when the pattern finds it there and every character left in it belongs to a list separator. |
| ResidualMeaning.LeftSharedMeaning | app/agents/candidate_job_matcher.py:1213-1233 | A clause shares a technology on its left exactly when it follows a clause joined by a conjunction, both are made of heads alone, it has an experience head, and a technology stands before the first head of that clause; the earliest such technology is where the text starts. |
| ResidualMeaning.ViewMeaning | app/agents/candidate_job_matcher.py:1088-1117 | What a clause leaves: its kept words with their subjects; if it stands alone, the stretch up to the shared complement on the right or from the shared technology on the left, or else all its words; otherwise nothing. |
| ResidualMeaning.IdentityMeaning | app/agents/candidate_job_matcher.py:1247-1249 | The identity of a text is its folded form with single spaces, cut behind its last character that is no space and none of . ! ? ; : and comma. |
| ShownParentheses.TechnologiesOnlyIff | app/agents/candidate_job_matcher.py:1164-1173 | Every parenthesis the texts of a line take over behind an experience phrase is shown as it is written exactly when nothing visible was evaluated in any of them but technologies. |
| ShownParentheses.AsWrittenIff | app/agents/candidate_job_matcher.py:1164-1173 | The same for each single parenthesis: it lies inside the view of its clause, whose text is one of the line's, and is shown as written exactly when it holds technologies only. |
| ShownParentheses.NothingButTechnologies | app/agents/candidate_job_matcher.py:1142-1206 | Under that condition the visible characters of every text of the line are, in order, unevaluated, in a technology, or a parenthesis around technologies. |
| ShownParentheses.WordsGrow | app/agents/candidate_job_matcher.py:1146-1173 | After any number of qualified words the display shows each parenthesis taken over for them with its technologies, and beside their ends only white space and technologies are new in it. |
| ParenthesisExample.LanguageInParenthesis | app/agents/candidate_job_matcher.py:1164-1173 | Of "Erfahrung mit SQL (Deutsch B2)" with SQL and the language evaluated, "Erfahrung mit SQL ( )" is left: the parenthesis is taken over although it holds no technology, against the comment. |
| ParenthesisExample.ExampleIsRead | app/agents/candidate_job_matcher.py:867-876 | Patterns and word lists that read the line this way, and are regular, exist. |
| FailClosed.MatchVacancy | app/agents/candidate_job_matcher.py:1360-1509 | Whatever the profile says, UNKNOWN, REQUIRED requirements of the match that cite the line hold the whole text of each required line without evaluated span, and of any other line every word that must be reported, with the condition spelled out in the words and heads of the clause. |
| FailClosed.FullMarksMeansEvaluated | app/agents/candidate_job_matcher.py:124-126 | With 1 to 99 required requirements, typed or not, the required score is 100 exactly when every required line is fully evaluated and every typed required requirement is a MATCH. |
| FailClosed.HundredDespiteUnevaluated | app/agents/candidate_job_matcher.py:124-126 | When every typed required requirement is a MATCH, the required score of the match is 100 exactly when there are at least 199 of them for each unevaluated text. |
| FailClosed.HundredWithLineLeft | app/agents/candidate_job_matcher.py:124-126 | A vacancy requiring 199 different skills, a profile that has them all, and one line no typed requirement evaluated: the match keeps the line as unknown and shows 100, with every vocabulary. |
| FailClosed.NothingUnevaluated | app/agents/candidate_job_matcher.py:1252-1283 | Required lines leave no requirement exactly when each of them has an evaluated span and every clause keeps nothing and is owned, without head, or shares its right complement without an experience head. |
| ExperienceDuration.ComputeMergedDays | app/agents/candidate_job_matcher.py:689-702 | The sweep with its running interval computes the specified number. |
| ExperienceDuration.MergedDaysExact | app/agents/candidate_job_matcher.py:689-702 | The sweep never counts too much, and it counts exactly the distinct covered days if and only if no period that ends before it starts begins after all earlier ones have ended. |
| ExperienceDuration.MergedDaysOfRealPeriods | app/agents/candidate_job_matcher.py:689-702 | Periods with start not after end are counted exactly as the size of their union. |
| ExperienceDuration.FutureStartLosesDays | app/agents/candidate_job_matcher.py:829 | A current job starting after the reference day makes the sweep report 7 of 10 covered days. |
| ExperienceDuration.ComputeDurationStatus | app/agents/candidate_job_matcher.py:814-841 | The loop over the alternatives computes the specified status. |
| ExperienceDuration.MatchIsCovered | app/agents/candidate_job_matcher.py:825-831 | MATCH implies that one alternative's own fully dated rows cover years times 365 distinct days; days of different alternatives are never summed. |
| ExperienceDuration.MatchIffCovered | app/agents/candidate_job_matcher.py:814-841 | For real periods MATCH holds exactly then. |
| ExperienceDuration.CoversMeaning | app/agents/candidate_job_matcher.py:825-831 | Rows cover the years exactly when there are some, all have a start and an end or are current, and 365 times the years distinct days are worked. |
| ExperienceDuration.DurationMeaning | app/agents/candidate_job_matcher.py:814-841 | For real periods the status is MATCH if an alternative covers the years, otherwise UNKNOWN if an alternative has an undated row, and PARTIAL otherwise. |
| MatchScores.RoundIsNearest | app/agents/candidate_job_matcher.py:1337-1340 | Rounding gives a nearest integer, the even one at a tie. |
| MatchScores.ScoresBounded | app/agents/candidate_job_matcher.py:1420-1463 | All five scores lie in 0..100. |
| MatchScores.OverallIsNearest | app/agents/candidate_job_matcher.py:1461-1463 | The overall score is the nearest integer to the 60/20/20 blend; there is never a tie. |
| MatchScores.FullMarks | app/agents/candidate_job_matcher.py:1337-1347 | The required score is 100 exactly when at most one half point per hundred required requirements is missing. |
| MatchScores.FullMarksMeansAllMatch | app/agents/candidate_job_matcher.py:1420-1422 | With 1 to 99 required requirements it is 100 exactly when every one is a MATCH. |
| MatchScores.HundredDespiteUnknown | app/agents/candidate_job_matcher.py:124-126 | With 200 required requirements one unevaluated one still shows 100, against the documented promise. |
| MatchScores.ScoresMonotone | app/agents/candidate_job_matcher.py:1343-1357 | Improving statuses never lowers the required, preferred, coverage or overall score. |
| CandidateMatcher.MatchIgnoresUntrusted | app/agents/candidate_job_matcher.py:1360-1509 | Deleting every untrusted fact from a profile leaves the whole match unchanged. |
| CandidateMatcher.MatchedSkillIsSupported | app/agents/candidate_job_matcher.py:437-569 | A matched SKILL requirement, single or grouped, cites a trusted skill as its first evidence. |
| CandidateMatcher.SkillStatusMeaning | app/agents/candidate_job_matcher.py:503-569 | A single skill requirement is a MATCH exactly when a trusted skill has its name, UNKNOWN exactly when one is only related to it, and MISSING otherwise. |
| CandidateMatcher.CategoryStatusMeaning | app/agents/candidate_job_matcher.py:437-495 | A grouped requirement is a MATCH exactly when a trusted skill is one of its own examples, and UNKNOWN otherwise. |
| CandidateMatcher.RelevantProjectIsRow | app/agents/candidate_job_matcher.py:1322-1334 | Every relevant project carries the id of one of the rows it was selected from. |
| CandidateMatcher.MoreSkillsNeverHurt | app/agents/candidate_job_matcher.py:437-569 | Adding trusted skills never lowers any of the five scores. |
| CandidateMatcher.MatchScoresBounded | app/agents/candidate_job_matcher.py:1415-1463 | All five scores of every match lie in 0..100. |
| CandidateMatcher.NeverMatchUnclear | app/agents/candidate_job_matcher.py:766-791 | A requirement naming no technology, or several without a clear relation, is never a MATCH. |
| CandidateMatcher.ExperienceMatchMeaning | app/agents/candidate_job_matcher.py:705-811 | An EXPERIENCE MATCH means that for one alternative exactly the trusted rows using its subjects (all subjects, or one of them for "or") cover the required years on their own. |
| CandidateMatcher.ExperienceMatchIff | app/agents/candidate_job_matcher.py:705-811 | For real periods MATCH holds exactly then. |
| MatchMeaning.EveryNeedListed | app/agents/candidate_job_matcher.py:1375-1420 | The four requirement lists of a match together hold exactly one entry for each need of the vacancy. |
| MatchMeaning.SkillOutcome | app/agents/candidate_job_matcher.py:503-569 | Each skill need is in exactly the list of its status: MATCH citing the first trusted skill of its name, else UNKNOWN citing exactly the first rows of each related name, else MISSING. |
| MatchMeaning.CategoryOutcome | app/agents/candidate_job_matcher.py:437-495 | Each grouped need is listed as MATCH citing exactly the first trusted skills named like one of its examples, or as UNKNOWN when there is none. |
| MatchMeaning.LanguageStatusMeaning | app/agents/candidate_job_matcher.py:572-640 | A language need is MISSING exactly when no record has its name; otherwise the first such record decides: UNKNOWN without a level, MATCH when its level is not below the required one in A1 < A2 < B1 < B2 < C1 < C2 < NATIVE, PARTIAL otherwise. |
| MatchMeaning.LanguageOutcome | app/agents/candidate_job_matcher.py:572-640 | In the computed match each language need stands, so judged by the trusted languages, in the list of its status and in no other. |
| MatchMeaning.EducationStatusMeaning | app/agents/candidate_job_matcher.py:643-684 | An education need is MISSING without completed education, MATCH when no field is asked for or a completed one names such a field, and UNKNOWN otherwise, citing exactly these rows. |
| MatchMeaning.EducationOutcome | app/agents/candidate_job_matcher.py:643-684 | In the computed match the education need stands, so judged by the trusted education, in the list of its status and in no other. |
| MatchMeaning.ExperienceStatusMeaning | app/agents/candidate_job_matcher.py:705-841 | The status of an experience need, case by case in terms of which subjects the rows use, which rows are undated and which days they cover. |
| MatchMeaning.ExperienceOutcome | app/agents/candidate_job_matcher.py:705-841 | In the computed match the experience need stands with that status, citing exactly the rows that use a whole alternative, or, when none does, those using some subject while every subject is used. |
| MatchContents.ScoresMeaning | app/agents/candidate_job_matcher.py:1343-1463 | The required, preferred and coverage scores are the nearest percentages of the points of the listed requirements (MATCH 1, PARTIAL one half; weights 3, 1 and one half), 50, 100 and 50 when there is nothing to measure, and the overall score is the nearest integer to 0.6, 0.2 and 0.2 of required, preferred and support. |
| MatchContents.SupportMeaning | app/agents/candidate_job_matcher.py:1427-1459 | The support score is the nearest percentage of the single required skills that some relevant row backs; a stated experience requirement leaves it when matched, halves it when partly met and sets it to 0 otherwise. |
| MatchContents.RowsMeaning | app/agents/candidate_job_matcher.py:1302-1334 | The relevant experiences and projects are exactly the trusted rows with a technology the vacancy names, in order, each with those technologies; education and languages are the completed and asked-for trusted rows. |
| MatchContents.ClaimsMeaning | app/agents/candidate_job_matcher.py:1512-1566 | The safe claims hold exactly one claim for each row that is evidence of a requirement not missing, or relevant; evidence comes before a relevant row of the same source, and each claim states the row's own text. |
| MatchContents.WarningsMeaning | app/agents/candidate_job_matcher.py:1569-1598 | A warning is given exactly for each missing or unknown required requirement, for a profile without any trusted row, and for skills absent from the stored extraction. |
| CandidateProfile.TrustedTwice | app/agents/candidate_job_matcher.py:342-347 | Filtering for trusted rows twice changes nothing. |
| CandidateProfile.TrustedInOrder | app/agents/candidate_job_matcher.py:342-347 | The trusted rows are exactly the usable ones, once each and in order. |
| CandidateProfile.TrustedLookup | app/agents/cv_adapter.py:197 | With unique ids a trusted row is found under its id in the unfiltered list just as in the filtered one. |
| CvAdapter.SelectSkills | app/agents/cv_adapter.py:192-229 | The selection loop computes the specified list, required skills first. |
| CvAdapter.SkillsRequiredFirst | app/agents/cv_adapter.py:192-229 | In the selected list no skill comes before one of higher importance. |
| CvAdapter.SelectProjects | app/agents/cv_adapter.py:272-299 | The selection loop computes the specified list, most matched skills first. |
| CvAdapter.ProjectsMostMatchedFirst | app/agents/cv_adapter.py:272-299 | In the selected list no project comes before one with more matched skills. |
| CvAdapter.SelectLanguages | app/agents/cv_adapter.py:356-373 | The loop pairs each trusted language with the first requirement citing it. |
| CvAdapter.DraftIgnoresUntrusted | app/agents/cv_adapter.py:376-438 | Deleting every untrusted fact leaves the draft unchanged although rows are looked up by id in the unfiltered profile. |
| CvAdapter.NothingSelectedIsSkipped | app/agents/cv_adapter.py:209-217 | The defensive skips never happen: every matched skill and relevant project gets its line. |
| CvAdapter.DuplicateIdsBreakTrust | app/agents/cv_adapter.py:197 | In a computed match over a profile with two rows under one id, the draft shows the untrusted row in place of the matched trusted one, with every vocabulary; so unique ids are needed. |
| DraftMeaning.HeaderMeaning | app/agents/cv_adapter.py:160-189 | Header and summary hold exactly the usable top-level values of the profile, trimmed and not blank, with their origin. |
| DraftMeaning.SkillsMeaning | app/agents/cv_adapter.py:192-229 | The skill lines are one for each matched skill requirement, required before preferred before the rest and otherwise as matched, each showing the trusted row the requirement cites. |
| DraftMeaning.ProjectsMeaning | app/agents/cv_adapter.py:272-299 | The project lines are one for each relevant project, most matched technologies first and otherwise as listed, each showing the trusted row and its matched technologies. |
| DraftMeaning.ExperienceMeaning | app/agents/cv_adapter.py:232-269 | All trusted experiences are shown, current ones first, then by later start, undated last, ties as stored; an experience is highlighted exactly when it is relevant, with the technologies it is relevant for. |
| DraftMeaning.EducationMeaning | app/agents/cv_adapter.py:302-340 | All trusted education is shown by its last known day, undated last, and all trusted certifications as stored. |
| DraftMeaning.LanguagesMeaning | app/agents/cv_adapter.py:343-373 | Every trusted language is shown with the text and status of the first matched, partly matched or unknown requirement that cites it, and with none if no requirement does. |
| DraftMeaning.WarningsMeaning | app/agents/cv_adapter.py:376-438 | The warnings are exactly those that apply to the draft, in their fixed order; projects are put first exactly when no experience but some project is shown. |
| LetterRenderer.BuildEvidence | app/agents/bewerbung_renderer.py:149-262 | One pass fills packet and registry consistently: same claim ids, same order, same limits. |
| LetterRenderer.ResolveParagraph | app/agents/bewerbung_renderer.py:294-302 | A paragraph resolves exactly when its ids together with all earlier ones are known and never repeated; a refusal names the first id that cannot be used, as unknown or as repeated. |
| LetterRenderer.ResolvePlan | app/agents/bewerbung_renderer.py:281-303 | A plan resolves exactly when all its claim ids are known and none is used twice, and then to the registered records; a refusal names the paragraph of the first id that cannot be used. |
| LetterRenderer.RenderEvidenceParagraph | app/agents/bewerbung_renderer.py:433-474 | The loops over the four kinds of records compute the specified sentences, joined by spaces. |
| LetterRenderer.SentencesMeaning | app/agents/bewerbung_renderer.py:433-474 | The evidence paragraph has one sentence for all skills and one for each other record, in the order skills, experience, projects, languages, and each names what its records state. |
| LetterRenderer.SentencesNameRecords | app/agents/bewerbung_renderer.py:433-474 | Every sentence of an evidence paragraph names one of its records, and every record is named by a sentence. |
| LetterRenderer.ComposeLetter | app/agents/bewerbung_renderer.py:477-529 | Evidence, provider, validation, resolution and rendering compose to the specified letter, or to none when the plan is refused. |
| LetterMeaning.EntriesMeaning | app/agents/bewerbung_renderer.py:149-262 | A letter may use all skill lines of the draft, its first three projects, its first three experiences with matched skills and the first five languages the vacancy gives a reason for, best reason first; each entry has its own claim id, text and record. |
| LetterMeaning.PacketMeaning | app/agents/bewerbung_renderer.py:241-262 | The provider is given the header values, the vacancy, these claims and the texts of the requirements, with missing and unknown ones as forbidden. |
| LetterMeaning.PlanMeaning | app/models/bewerbung.py:137-179 | A plan is valid exactly with one to four paragraphs, at most four claim ids in each and ten in all, ids of one to a hundred characters, some in every evidence paragraph and none in a generic one. |
| LetterMeaning.SentencesAreWritten | app/agents/bewerbung_renderer.py:433-474 | The exact wording of an evidence paragraph: the skills in one sentence with the focus of the vacancy, each experience with its own technologies, each project with up to four technologies and the first two citable highlights, each language with its level. |
| LetterMeaning.LetterIsDescribed | app/agents/bewerbung_renderer.py:149-529 | From draft to letter, for every provider: the plan made of the packet is refused exactly when it is no plan, not valid, names a claim it was not given or one twice; otherwise subject, opening, each paragraph and closing read exactly as its structure and the records of its claims say. |
| TrustPipeline.UntrustedFactsHaveNoInfluence | app/agents/candidate_job_matcher.py:1360-1509 | For every vacancy, profile with unique row ids and provider, deleting all untrusted facts leaves match, CV draft and letter unchanged. |
| TrustPipeline.OnlyTrustedFactsMatter | app/agents/cv_adapter.py:376-438 | Two profiles that agree on their trusted facts get the same three documents. |
| TrustPipeline.LetterStatesTrustedRows | app/agents/bewerbung_renderer.py:281-303 | Whatever a provider answers, every record a claim id can name states a trusted row of the profile. |
| TrustPipeline.LetterSentencesAreTrusted | app/agents/bewerbung_renderer.py:477-529 | Whatever a provider answers, each paragraph of a letter's body is the fixed general sentence or is rendered from records stating trusted rows, one for each claim: every sentence names such a row, and every one of them is named. |
| JobScoring.NormalizeIdempotent | app/agents/job_scorer.py:38-40 | Normalizing a normalized skill name changes nothing, aliases included. |
| JobScoring.CanonicalMeaning | app/agents/job_scorer.py:18-40 | Each alias has its own canonical name; in any other name exactly the spaces become hyphens. |
| JobScoring.SufficientMeaning | app/agents/evidence_cardinality_classifier.py:53-77 | Evidence is sufficient exactly when must-haves and nice-to-haves together name two different skills. |
| JobScoring.ConfidenceMeaning | app/agents/data_confidence.py:27-59 | The confidence, as a table over the length of the description and the number of distinct skill names; it never exceeds 93. |
| JobScoring.ScoreMeaning | app/agents/job_scorer.py:93-112 | The score is the nearest integer to 70 times the matched share of the must-haves, 20 times that of the nice-to-haves, each one half when there are none, and 10 times the share of profile skills found in the text; matched and missing must-haves split the normalized ones. |
| JobScoring.RecommendMeaning | app/agents/job_scorer.py:119-135 | Each recommendation holds exactly under its own condition on evidence, missing must-haves and the thresholds 80 and 60. |
| JobScoring.EvidenceOfResolved | app/agents/evidence_cardinality_classifier.py:53-77 | Counting evidence over already normalized lists gives must united with nice, without blanks, and the same cardinality class. |
| JobScoring.UnclassifiedSkillsDecideNothing | app/agents/job_scorer.py:49-148 | Jobs differing only in unclassified skills get the same score, and recommendations differ only if one of them needs enrichment. |
| JobScoring.ScoreBounds | app/agents/job_scorer.py:93-112 | The score lies in 0..100 and, without must-haves, is at most 65. |
| JobScoring.ApplyNeedsEvidence | app/agents/job_scorer.py:119-135 | APPLY implies at least two must-haves of which more than 70 percent are matched. |
| MailClassification.ClauseSpanOf | app/agents/email_classifier.py:349-369 | The loop with its early exit computes the specified span. |
| MailClassification.ClauseIsTight | app/agents/email_classifier.py:361-369 | For boundaries in order, the clause reaches exactly from the last boundary before the mention to the first one after it. |
| MailClassification.ClauseMeaning | app/agents/email_classifier.py:349-369 | A span is the clause of a mention if and only if it reaches from the last boundary before the mention, or the start, to the first one after it, or the end. |
| MailClassification.AnyMention | app/agents/email_classifier.py:391-403 | The inner loop answers exactly whether some mention in the sentence is not suppressed. |
| MailClassification.MatchedCategories | app/agents/email_classifier.py:372-404 | The nested loops map each category to the first sentence with an unsuppressed mention of it. |
| MailClassification.MatchedMeaning | app/agents/email_classifier.py:372-404 | A category is matched exactly when some sentence has an unsuppressed mention of it. |
| MailClassification.RejectionResolves | app/agents/email_classifier.py:407-415 | A matched rejection resolves to the conflict result exactly when a contradicting category is matched too, and to REJECTION otherwise. |
| MailClassification.RejectionIsStable | app/agents/email_classifier.py:407-415 | Once a rejection is matched, further sentences leave it or produce the conflict result, the latter exactly when some sentence mentions a contradicting category. |
| MailClassification.RejectionSurvivesMoreText | app/agents/email_classifier.py:425-484 | A mail classified by a matched rejection keeps that result when sentences are added to its body, or becomes the low-confidence conflict, exactly when some sentence mentions a contradicting category. |
| MailClassification.ClassifyEmail | app/agents/email_classifier.py:425-484 | The classifier computes the specified category: phrases before automation before general signals. |
| MailClassification.ClassificationMeaning | app/agents/email_classifier.py:407-484 | The category as a table over what is said and signalled: conflict, rejection, the specific phrases in their order of precedence, automation, then the general signals, each with its confidence. |
| MailClassification.ResponseMeaning | app/agents/application_response_classifier.py:83-201 | The response to each mail, by category, with the affirmed phrases that refine it, over the mail's own lines only. |
| MailClassification.ClassifyResponse | app/agents/application_response_classifier.py:159-201 | The classifier with its refinements computes the specified response. |
| MailClassification.StripQuotedHistory | app/agents/application_response_classifier.py:134-142 | The loop with its break and continue keeps the specified lines. |
| MailClassification.OwnMeaning | app/agents/application_response_classifier.py:134-142 | What is kept are exactly the lines that are not quoted and stand before the first quote header, in order. |
| MailClassification.QuotedLineIgnored | app/agents/application_response_classifier.py:139-140 | A quoted line anywhere is as if it were not there. |
| MailClassification.HistoryIgnored | app/agents/application_response_classifier.py:137-138 | Everything after a quote header is as if it were not there. |
| MailClassification.AffirmativeMatch | app/agents/application_response_classifier.py:83-89 | Returns the first match whose own clause holds no negation before it, and none exactly when there is none. |
| MailClassification.QuotedLinesDecideNothing | app/agents/application_response_classifier.py:134-151 | Any two bodies, HTML or not, whose lines are the same once quoted lines and everything from the first quote header on are cut, get the same result. |
| MailClassification.HistoryDecidesNothing | app/agents/application_response_classifier.py:137-138 | In particular two bodies whose lines agree up to a quote header. |
| MailClassification.RejectedMeansRejection | app/agents/application_response_classifier.py:102-116 | The response is a rejection exactly when a rejection phrase is matched in the cleaned mail and no contradicting one is. |
| StemPrinter.Render | scripts/build_job_ad_common_stems.py:60-69 | The wrapping loop computes the specified body. |
| StemPrinter.SplitBack | scripts/build_job_ad_common_stems.py:70-74 | Splitting the printed body at white space returns exactly the stems, in order. |
| StemPrinter.LinesNarrow | scripts/build_job_ad_common_stems.py:63-67 | No line is wider than 96 characters exactly when no single stem is too long for a line. |
| StemPrinter.GeneratedLinesNarrow | app/agents/description_similarity.py:118-121 | Stems of the generated vocabulary always fit. |

## Left out

- Regular expressions, Unicode normalization, case tables and word lists: arbitrary functions with only what their callers rely on (matches in order, in range, not overlapping; a parenthesis is found without parentheses in it; case folding works character by character).
- The requirement and skill extractors, `evaluate_job_score`, `assess_job` and the seniority and domain rules: arbitrary functions of the inputs they are given. What they hand to the matcher (skill, category, language, education and experience needs, evaluated and technology spans) is a value.
- `_skill_requirements`, `_category_requirements`, `_technology_spans` and `_evaluated_spans`: the merging of the vacancy's requirements before matching is not part of this model.
- Reason sentences, warnings' wording and the ranking of reasons: wording only.
- `_is_provenance` of the rewriter: any predicate on fragments, so its vocabulary is not part of this model.
- Parsing and tokenizing of Python source, UTF-8 byte columns, `same_code` and the command line of the rewriter: the parser's promises (docstrings apart, at most one comment per line) are the precondition of `SourceSplicing.CleanSource`.
- Floating point: scores are exact rationals or reals; `round` is half-even on exact values. Rounding errors of binary floats near a tie are not part of this model.
- CSV quoting, SHA-256 and JSON text: the review file is a table of cells or unreadable, and the digest is an injective function of the canonical value. A stored list that is no JSON is not part of this model.
- RescoreApply.Database.ApplyRescore: on SQLite the lock is a documented no-op, so there only atomicity is stated, not the population and drift guarantees.
- RescoreApply.Database.Others: a writer that changes rows of the candidate's child tables without touching the locked profile row is not part of this model; the final recheck of the context would see it only before the commit.
- ReviewPopulation.CommittedOutcomesWereApproved: positive distinct ids and distinct non-blank fingerprints of the previewed jobs are what the `jobs` table guarantees; `random.Random.sample` is any choice of distinct positions.
- ReviewPopulation.BuildReviewRows: the explanatory evidence of a job is a value of the preview; how `_compute_review_evidence` derives it is not part of this model.
- ReviewGate.ValidateExpected: rows with columns outside the schema cannot occur, because the column type lists exactly the schema.
- ReviewProvenance.CanonicalInjective: dictionary keys that are string subclasses and timestamps that overflow on conversion to UTC are not part of this model.
- ApprovalEvidence.FileSystem.Run: durability of directory entries (only file contents are synced by the source) and third parties touching an artifact after it was certified are not part of this model.
- AssessmentCache.FreshMeansCurrent: the key is taken to cover the inputs of the assessment; which columns the hash covers is not part of this model.
- SubjectRestoration.ShowSubject: the subject's restored characters are kept in an immutable string instead of a character list; the order of the single assignments is not part of this model.
- Monotonicity under added experience rows or added profile skills in the job scorer: not what the code does, since an undated row can lower a duration result and a larger profile can lower the description share.
- Before/after exports, the legacy "before" evidence, snapshots of SQLite files, dry runs, argument parsing, engines, printing and exit codes other than those of the cache filler: plumbing.
- Network clients, Telegram and desktop launchers, collectors, migrations and `write_updates` of the refresh script: single-branch or not guaranteed by the code.
