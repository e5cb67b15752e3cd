/** Deterministic mail classification: `app/agents/email_classifier.py` and
    `app/agents/application_response_classifier.py`. */
module MailClassification {
  import opened Wrappers

  datatype Category =
    | OFFER | REJECTION | INTERVIEW_RESCHEDULE | INTERVIEW_INVITATION | WITHDRAWAL_OR_POSITION_CLOSED
    | REQUEST_FOR_INFORMATION | APPLICATION_RECEIVED | GENERAL_RECRUITER_MESSAGE | AUTOMATED_NOTIFICATION | OTHER | UNKNOWN

  datatype Confidence = HIGH | MEDIUM | LOW

  /** A match of a pattern in a text. */
  datatype Span = Span(start: nat, end: nat)

  /** The patterns: any functions. A match list is in order of position. */
  datatype Patterns = Patterns(
    sentences: string -> seq<string>,
    mentions: (Category, string) -> seq<Span>,
    clauseBoundaries: string -> seq<Span>,
    negates: string -> bool,
    openEnded: string -> bool,
    pending: string -> bool,
    automatedSender: string -> bool,
    automatedPhrase: string -> bool,
    generalRecruiter: string -> bool)

  // ---------------------------------------------------------------- clauses

  /** `_clause_span`, over the boundaries of the sentence. */
  method ClauseSpanOf(sentence: string, boundaries: seq<Span>, mention: Span) returns (clause: Span)
    ensures clause == ClauseSpan(sentence, boundaries, mention)
  {
    var start, end := 0, |sentence|;
    for k := 0 to |boundaries|
      invariant end == |sentence|
      invariant ClauseFrom(sentence, boundaries, mention, k, start) == ClauseSpan(sentence, boundaries, mention)
    {
      if boundaries[k].start < mention.start {
        start := boundaries[k].end;
      } else if boundaries[k].start >= mention.end {
        end := boundaries[k].start;
        return Span(start, end);
      }
    }
    return Span(start, end);
  }

  function ClauseFrom(sentence: string, boundaries: seq<Span>, mention: Span, k: nat, start: nat): Span
    requires k <= |boundaries|
    decreases |boundaries| - k
  {
    if k == |boundaries| then Span(start, |sentence|)
    else if boundaries[k].start < mention.start
    then ClauseFrom(sentence, boundaries, mention, k + 1, boundaries[k].end)
    else if boundaries[k].start >= mention.end then Span(start, boundaries[k].start)
    else ClauseFrom(sentence, boundaries, mention, k + 1, start)
  }

  function ClauseSpan(sentence: string, boundaries: seq<Span>, mention: Span): Span {
    ClauseFrom(sentence, boundaries, mention, 0, 0)
  }

  predicate InOrder(boundaries: seq<Span>) {
    && (forall k :: 0 <= k < |boundaries| ==> boundaries[k].start <= boundaries[k].end)
    && (forall j, k :: 0 <= j < k < |boundaries| ==> boundaries[j].end <= boundaries[k].start)
  }

  /** `start` is the beginning of the sentence or the end of one of the first `n`
      boundaries that start before the mention. */
  ghost predicate StartsAtBoundary(boundaries: seq<Span>, mention: Span, n: nat, start: nat)
    requires n <= |boundaries|
  {
    start == 0 || exists j :: 0 <= j < n && boundaries[j].end == start && boundaries[j].start < mention.start
  }

  /** No boundary cuts the clause off from the mention. */
  ghost predicate Uncut(sentence: string, boundaries: seq<Span>, mention: Span, c: Span) {
    forall j :: 0 <= j < |boundaries| ==>
      && (boundaries[j].start < mention.start ==> boundaries[j].end <= c.start)
      && (mention.end <= boundaries[j].start < |sentence| ==> c.end <= boundaries[j].start)
  }

  lemma {:induction false} ClauseFromTight(sentence: string, boundaries: seq<Span>, mention: Span, k: nat, start: nat)
    requires InOrder(boundaries) && k <= |boundaries| && mention.start <= mention.end <= |sentence|
    requires forall j :: 0 <= j < k ==> boundaries[j].start < mention.end
    requires forall j :: 0 <= j < k && boundaries[j].start < mention.start ==> boundaries[j].end <= start
    requires StartsAtBoundary(boundaries, mention, k, start)
    ensures var c := ClauseFrom(sentence, boundaries, mention, k, start);
      && StartsAtBoundary(boundaries, mention, |boundaries|, c.start) && mention.end <= c.end
      && Uncut(sentence, boundaries, mention, c)
    decreases |boundaries| - k
  {
    if k < |boundaries| {
      if boundaries[k].start < mention.start {
        NextStart(boundaries, mention, k);
        hide Uncut, StartsAtBoundary;
        ClauseFromTight(sentence, boundaries, mention, k + 1, boundaries[k].end);
      } else if boundaries[k].start < mention.end {
        StartsLater(boundaries, mention, k, k + 1, start);
        hide Uncut, StartsAtBoundary;
        ClauseFromTight(sentence, boundaries, mention, k + 1, start);
      } else {
        StartsLater(boundaries, mention, k, |boundaries|, start);
        hide StartsAtBoundary;
      }
    }
  }

  lemma NextStart(boundaries: seq<Span>, mention: Span, k: nat)
    requires k < |boundaries| && boundaries[k].start < mention.start
    ensures StartsAtBoundary(boundaries, mention, k + 1, boundaries[k].end)
  {
  }

  lemma StartsLater(boundaries: seq<Span>, mention: Span, k: nat, n: nat, start: nat)
    requires k <= n <= |boundaries| && StartsAtBoundary(boundaries, mention, k, start)
    ensures StartsAtBoundary(boundaries, mention, n, start)
  {
  }

  /** The clause of a mention is the stretch between the last boundary that starts
      before it and the first that starts after it; negation is looked for only there. */
  lemma ClauseIsTight(sentence: string, boundaries: seq<Span>, mention: Span)
    requires InOrder(boundaries) && mention.start <= mention.end <= |sentence|
    ensures var c := ClauseSpan(sentence, boundaries, mention);
      && StartsAtBoundary(boundaries, mention, |boundaries|, c.start) && mention.end <= c.end
      && Uncut(sentence, boundaries, mention, c)
  {
    ClauseFromTight(sentence, boundaries, mention, 0, 0);
  }

  function Text(s: string, span: Span): string {
    if span.start <= span.end <= |s| then s[span.start..span.end] else ""
  }

  // ---------------------------------------------------------------- matched categories

  /** The mention does not count: its clause negates it, or it is an open-ended
      rejection phrase in a sentence about a pending decision. */
  predicate Suppressed(p: Patterns, category: Category, sentence: string, mention: Span) {
    || p.negates(Text(sentence, ClauseSpan(sentence, p.clauseBoundaries(sentence), mention)))
    || (category == REJECTION && p.openEnded(Text(sentence, mention)) && p.pending(sentence))
  }

  predicate Mentions(p: Patterns, category: Category, sentence: string) {
    var found := p.mentions(category, sentence);
    exists k :: 0 <= k < |found| && !Suppressed(p, category, sentence, found[k])
  }

  const SPECIFIC: seq<Category> :=
    [OFFER, REJECTION, INTERVIEW_RESCHEDULE, INTERVIEW_INVITATION, WITHDRAWAL_OR_POSITION_CLOSED,
     REQUEST_FOR_INFORMATION, APPLICATION_RECEIVED]

  predicate IsSpecific(c: Category) {
    c == OFFER || c == REJECTION || c == INTERVIEW_RESCHEDULE || c == INTERVIEW_INVITATION
    || c == WITHDRAWAL_OR_POSITION_CLOSED || c == REQUEST_FOR_INFORMATION || c == APPLICATION_RECEIVED
  }

  /** The first sentence that mentions the category. */
  function FirstMention(p: Patterns, category: Category, sentences: seq<string>): Option<string> {
    if sentences == [] then None
    else
      var n := |sentences| - 1;
      var earlier := FirstMention(p, category, sentences[..n]);
      if earlier.Some? then earlier
      else if Mentions(p, category, sentences[n]) then Some(sentences[n]) else None
  }

  /** Each category with an unsuppressed mention, with the first sentence holding one. */
  ghost predicate Matches(p: Patterns, sentences: seq<string>, matches: map<Category, string>) {
    forall c ::
      if IsSpecific(c) && FirstMention(p, c, sentences).Some?
      then c in matches && matches[c] == FirstMention(p, c, sentences).value
      else c !in matches
  }

  /** `_matched_categories`: the nested loops of the source. */
  method MatchedCategories(p: Patterns, sentences: seq<string>) returns (matches: map<Category, string>)
    ensures Matches(p, sentences, matches)
  {
    hide Mentions;
    matches := map[];
    for k := 0 to |sentences|
      invariant Matches(p, sentences[..k], matches)
    {
      assert sentences[..k + 1][..k] == sentences[..k];
      ghost var before := matches;
      for i := 0 to |SPECIFIC|
        invariant forall c :: c in matches <==> c in before || (c in SPECIFIC[..i] && Mentions(p, c, sentences[k]))
        invariant forall c :: c in matches ==> matches[c] == if c in before then before[c] else sentences[k]
      {
        var category := SPECIFIC[i];
        assert SPECIFIC[..i + 1] == SPECIFIC[..i] + [category];
        if category in matches {
          continue;
        }
        var found := AnyMention(p, category, sentences[k]);
        if found {
          matches := matches[category := sentences[k]];
        }
      }
      AllSpecific();
      assert SPECIFIC[..|SPECIFIC|] == SPECIFIC;
    }
    assert sentences[..|sentences|] == sentences;
  }

  lemma AllSpecific()
    ensures forall c :: c in SPECIFIC <==> IsSpecific(c)
  {
    assert SPECIFIC[0] == OFFER && SPECIFIC[1] == REJECTION && SPECIFIC[2] == INTERVIEW_RESCHEDULE;
    assert SPECIFIC[3] == INTERVIEW_INVITATION && SPECIFIC[4] == WITHDRAWAL_OR_POSITION_CLOSED;
    assert SPECIFIC[5] == REQUEST_FOR_INFORMATION && SPECIFIC[6] == APPLICATION_RECEIVED;
  }

  /** Every mention in the sentence is looked at until one counts. */
  method AnyMention(p: Patterns, category: Category, sentence: string) returns (found: bool)
    ensures found <==> Mentions(p, category, sentence)
  {
    var mentions := p.mentions(category, sentence);
    for k := 0 to |mentions|
      invariant forall j :: 0 <= j < k ==> Suppressed(p, category, sentence, mentions[j])
    {
      var clause := ClauseSpanOf(sentence, p.clauseBoundaries(sentence), mentions[k]);
      if p.negates(Text(sentence, clause)) {
        continue;
      }
      if category == REJECTION && p.openEnded(Text(sentence, mentions[k])) && p.pending(sentence) {
        continue;
      }
      return true;
    }
    return false;
  }

  lemma {:induction false} FirstMentionMeaning(p: Patterns, category: Category, sentences: seq<string>)
    ensures FirstMention(p, category, sentences).Some? <==>
      exists k :: 0 <= k < |sentences| && Mentions(p, category, sentences[k])
  {
    hide Mentions;
    if sentences != [] {
      var n := |sentences| - 1;
      FirstMentionMeaning(p, category, sentences[..n]);
      if exists k :: 0 <= k < n && Mentions(p, category, sentences[..n][k]) {
        var k :| 0 <= k < n && Mentions(p, category, sentences[..n][k]);
        assert Mentions(p, category, sentences[k]);
      }
    }
  }

  /** A category is matched exactly when some sentence mentions it unsuppressed. */
  lemma MatchedMeaning(p: Patterns, sentences: seq<string>, matches: map<Category, string>, c: Category)
    requires Matches(p, sentences, matches) && IsSpecific(c)
    ensures c in matches <==> exists k :: 0 <= k < |sentences| && Mentions(p, c, sentences[k])
  {
    hide Mentions;
    FirstMentionMeaning(p, c, sentences);
  }

  // ---------------------------------------------------------------- resolution

  predicate ContradictsRejection(c: Category) {
    c == OFFER || c == INTERVIEW_INVITATION || c == INTERVIEW_RESCHEDULE
  }

  predicate Conflict(matched: set<Category>) {
    REJECTION in matched && exists c :: c in matched && ContradictsRejection(c)
  }

  function FirstOf(precedence: seq<Category>, matched: set<Category>): Option<Category> {
    if precedence == [] then None
    else if precedence[0] in matched then Some(precedence[0])
    else FirstOf(precedence[1..], matched)
  }

  /** `_resolve_category` */
  function Resolve(matched: set<Category>): (Category, Confidence) {
    if Conflict(matched) then (OTHER, LOW)
    else
      var first := FirstOf(SPECIFIC, matched);
      if first.Some? then (first.value, HIGH) else (UNKNOWN, LOW)
  }

  lemma RejectionResolves(matched: set<Category>)
    requires REJECTION in matched
    ensures Resolve(matched) == if Conflict(matched) then (OTHER, LOW) else (REJECTION, HIGH)
  {
    assert ContradictsRejection(OFFER);
    if !Conflict(matched) {
      assert SPECIFIC[0] == OFFER && SPECIFIC[1..][0] == REJECTION;
      assert FirstOf(SPECIFIC[1..], matched) == Some(REJECTION);
    }
  }

  lemma MoreSentencesKeep(p: Patterns, sentences: seq<string>, more: seq<string>, before: map<Category, string>,
                          after: map<Category, string>)
    requires Matches(p, sentences, before) && Matches(p, sentences + more, after)
    ensures before.Keys <= after.Keys
  {
    hide Mentions, FirstMention;
    forall c | c in before ensures c in after {
      FirstMentionMeaning(p, c, sentences);
      FirstMentionMeaning(p, c, sentences + more);
      var k :| 0 <= k < |sentences| && Mentions(p, c, sentences[k]);
      assert Mentions(p, c, (sentences + more)[k]);
    }
  }

  /** Once a rejection is matched, further sentences leave it a rejection or turn it
      into the conflict result, and the latter exactly when they add a contradiction. */
  lemma RejectionIsStable(p: Patterns, sentences: seq<string>, more: seq<string>, before: map<Category, string>,
                          after: map<Category, string>)
    requires Matches(p, sentences, before) && Matches(p, sentences + more, after) && REJECTION in before
    ensures Resolve(after.Keys) == (REJECTION, HIGH) || Resolve(after.Keys) == (OTHER, LOW)
    ensures Resolve(after.Keys).0 == OTHER <==> exists c, k ::
      ContradictsRejection(c) && 0 <= k < |sentences + more| && Mentions(p, c, (sentences + more)[k])
  {
    hide Mentions, FirstMention, Resolve;
    MoreSentencesKeep(p, sentences, more, before, after);
    RejectionResolves(after.Keys);
    if Conflict(after.Keys) {
      var c :| c in after.Keys && ContradictsRejection(c);
      MatchedMeaning(p, sentences + more, after, c);
    }
    if c, k :| ContradictsRejection(c) && 0 <= k < |sentences + more| && Mentions(p, c, (sentences + more)[k]) {
      MatchedMeaning(p, sentences + more, after, c);
    }
  }

  // ---------------------------------------------------------------- a whole mail

  datatype Classified = Classified(category: Category, confidence: Confidence, automated: bool)

  /** `classify_email`: phrases first, then automation, then a general signal. */
  method ClassifyEmail(p: Patterns, subject: string, body: string, senderLocal: string) returns (r: Classified)
    ensures r == Classification(p, subject, body, senderLocal)
  {
    var text := subject + "\n" + body;
    var matches := MatchedCategories(p, p.sentences(text));
    KeysAreMatched(p, p.sentences(text), matches);
    var (category, confidence) := Resolve(matches.Keys);
    var automated := p.automatedSender(senderLocal) || p.automatedPhrase(text);
    if category == UNKNOWN {
      if automated {
        category, confidence := AUTOMATED_NOTIFICATION, MEDIUM;
      } else if p.generalRecruiter(text) {
        category, confidence := GENERAL_RECRUITER_MESSAGE, LOW;
      }
    }
    return Classified(category, confidence, automated);
  }

  /** The matched set, as a set. */
  function Matched(p: Patterns, sentences: seq<string>): set<Category> {
    set c: Category | IsSpecific(c) && FirstMention(p, c, sentences).Some?
  }

  lemma KeysAreMatched(p: Patterns, sentences: seq<string>, matches: map<Category, string>)
    requires Matches(p, sentences, matches)
    ensures matches.Keys == Matched(p, sentences)
  {
    hide FirstMention, IsSpecific;
  }

  function Classification(p: Patterns, subject: string, body: string, senderLocal: string): Classified {
    var text := subject + "\n" + body;
    var resolved := Resolve(Matched(p, p.sentences(text)));
    var automated := p.automatedSender(senderLocal) || p.automatedPhrase(text);
    if resolved.0 != UNKNOWN then Classified(resolved.0, resolved.1, automated)
    else if automated then Classified(AUTOMATED_NOTIFICATION, MEDIUM, automated)
    else if p.generalRecruiter(text) then Classified(GENERAL_RECRUITER_MESSAGE, LOW, automated)
    else Classified(resolved.0, resolved.1, automated)
  }

  /** A mail whose rejection is matched stays a rejection, or becomes the conflict
      result, when its text gains sentences; the latter exactly when some sentence
      mentions a contradicting category. */
  lemma RejectionSurvivesMoreText(p: Patterns, subject: string, body: string, longer: string, more: seq<string>,
                                  senderLocal: string)
    requires p.sentences(subject + "\n" + longer) == p.sentences(subject + "\n" + body) + more
    requires REJECTION in Matched(p, p.sentences(subject + "\n" + body))
    ensures var r, sentences := Classification(p, subject, longer, senderLocal), p.sentences(subject + "\n" + longer);
      && ((r.category == REJECTION && r.confidence == HIGH) || (r.category == OTHER && r.confidence == LOW))
      && (r.category == OTHER <==> exists c, k ::
            ContradictsRejection(c) && 0 <= k < |sentences| && Mentions(p, c, sentences[k]))
  {
    var short, long := p.sentences(subject + "\n" + body), p.sentences(subject + "\n" + longer);
    hide Mentions, FirstMention, Resolve, IsSpecific;
    var before := map c | c in Matched(p, short) :: FirstMention(p, c, short).value;
    var after := map c | c in Matched(p, long) :: FirstMention(p, c, long).value;
    assert before.Keys == Matched(p, short) && after.Keys == Matched(p, long);
    RejectionIsStable(p, short, more, before, after);
  }

  // ---------------------------------------------------------------- quoted history

  /** A line is a quote header, a quoted line, or the sender's own. */
  datatype Lines = Lines(isHeader: string -> bool, isQuoted: string -> bool)

  /** `strip_quoted_history`: own lines up to the first quote header. */
  function Own(q: Lines, lines: seq<string>): seq<string> {
    if lines == [] || q.isHeader(lines[0]) then []
    else (if q.isQuoted(lines[0]) then [] else [lines[0]]) + Own(q, lines[1..])
  }

  /** `strip_quoted_history`, as the loop the source runs. */
  method StripQuotedHistory(q: Lines, lines: seq<string>) returns (kept: seq<string>)
    ensures kept == Own(q, lines)
  {
    kept := [];
    var k := 0;
    while k < |lines|
      invariant k <= |lines| && kept + Own(q, lines[k..]) == Own(q, lines)
    {
      if q.isHeader(lines[k]) {
        break;
      }
      if !q.isQuoted(lines[k]) {
        kept := kept + [lines[k]];
      }
      k := k + 1;
    }
  }

  /** A quoted line is as if it were not there. */
  lemma {:induction false} QuotedLineIgnored(q: Lines, before: seq<string>, quoted: string, after: seq<string>)
    requires q.isQuoted(quoted) && !q.isHeader(quoted)
    ensures Own(q, before + [quoted] + after) == Own(q, before + after)
  {
    if before == [] {
      assert [] + [quoted] + after == [quoted] + after && ([quoted] + after)[1..] == after && [] + after == after;
    } else {
      QuotedLineIgnored(q, before[1..], quoted, after);
      assert (before + [quoted] + after)[1..] == before[1..] + [quoted] + after;
      assert (before + after)[1..] == before[1..] + after;
    }
  }

  /** What follows a quote header is as if it were not there. */
  lemma {:induction false} HistoryIgnored(q: Lines, before: seq<string>, header: string, after: seq<string>)
    requires q.isHeader(header)
    ensures Own(q, before + [header] + after) == Own(q, before)
  {
    if before == [] {
      assert ([] + [header] + after)[0] == header;
    } else {
      HistoryIgnored(q, before[1..], header, after);
      assert (before + [header] + after)[1..] == before[1..] + [header] + after;
    }
  }

  /** The lines before the first quote header. */
  function BeforeHeader(q: Lines, lines: seq<string>): seq<string> {
    if lines == [] || q.isHeader(lines[0]) then [] else [lines[0]] + BeforeHeader(q, lines[1..])
  }

  /** The lines without the quoted ones; a quoted quote header is a header. */
  function WithoutQuoted(q: Lines, lines: seq<string>): seq<string> {
    if lines == [] then []
    else (if q.isQuoted(lines[0]) && !q.isHeader(lines[0]) then [] else [lines[0]]) + WithoutQuoted(q, lines[1..])
  }

  /** Exactly the lines before the first header that are not quoted are kept. */
  lemma {:induction false} OwnMeaning(q: Lines, lines: seq<string>)
    ensures Own(q, lines) == WithoutQuoted(q, BeforeHeader(q, lines))
  {
    if lines != [] && !q.isHeader(lines[0]) {
      OwnMeaning(q, lines[1..]);
      assert BeforeHeader(q, lines)[1..] == BeforeHeader(q, lines[1..]);
    }
  }

  /** The lines agree once quoted lines are taken out and everything from the first
      quote header on is cut off. */
  predicate SameMessage(q: Lines, a: seq<string>, b: seq<string>) {
    BeforeHeader(q, WithoutQuoted(q, a)) == BeforeHeader(q, WithoutQuoted(q, b))
  }

  /** What is kept is what both cuts leave, in either order. */
  lemma {:induction false} UnquotedIsOwn(q: Lines, lines: seq<string>)
    ensures BeforeHeader(q, WithoutQuoted(q, lines)) == Own(q, lines)
  {
    if lines != [] {
      UnquotedIsOwn(q, lines[1..]);
      var rest := WithoutQuoted(q, lines[1..]);
      assert ([lines[0]] + rest)[1..] == rest && [] + rest == rest;
    }
  }

  // ---------------------------------------------------------------- responses to an application

  datatype Response =
    | ReceiptConfirmation | RequestForInformation | InterviewInvitation | TechnicalInterviewInvitation | Rejected
    | Offered | UnderReviewNotice | OtherApplicationMessage | Unclassified

  /** Text preparation and the patterns of the second stage: any functions. */
  datatype Preparation = Preparation(
    subject: string -> string, normalForm: string -> string, looksLikeHtml: string -> bool, htmlToText: string -> string,
    lines: string -> seq<string>, history: Lines, tidy: seq<string> -> string,
    technicalMarkers: string -> seq<Span>, technicalInvitations: string -> seq<Span>,
    clauseStarts: (string, nat) -> seq<nat>, markerNegates: string -> bool, underReview: string -> bool)

  function ResponseOf(c: Category): Response {
    match c
    case APPLICATION_RECEIVED => ReceiptConfirmation
    case REQUEST_FOR_INFORMATION => RequestForInformation
    case INTERVIEW_INVITATION => InterviewInvitation
    case INTERVIEW_RESCHEDULE => InterviewInvitation
    case REJECTION => Rejected
    case OFFER => Offered
    case UNKNOWN => Unclassified
    case _ => OtherApplicationMessage
  }

  /** The text between the last clause start and the match carries no negation. */
  predicate Affirmed(t: Preparation, text: string, found: Span) {
    var starts := t.clauseStarts(text, found.start);
    var from := if starts == [] then 0 else starts[|starts| - 1];
    !t.markerNegates(Text(text, Span(from, found.start)))
  }

  predicate AnyAffirmed(t: Preparation, text: string, found: seq<Span>) {
    exists k :: 0 <= k < |found| && Affirmed(t, text, found[k])
  }

  predicate FirstAffirmed(t: Preparation, text: string, found: seq<Span>, k: nat)
    requires k < |found|
  {
    Affirmed(t, text, found[k]) && forall j :: 0 <= j < k ==> !Affirmed(t, text, found[j])
  }

  /** `_affirmative_match`: the first match that no clause-scoped negation precedes. */
  method AffirmativeMatch(t: Preparation, text: string, found: seq<Span>) returns (first: Option<Span>)
    ensures first.Some? <==> AnyAffirmed(t, text, found)
    ensures first.Some? ==> exists k :: 0 <= k < |found| && found[k] == first.value && FirstAffirmed(t, text, found, k)
  {
    for k := 0 to |found|
      invariant forall j :: 0 <= j < k ==> !Affirmed(t, text, found[j])
    {
      if Affirmed(t, text, found[k]) {
        assert FirstAffirmed(t, text, found, k);
        return Some(found[k]);
      }
    }
    return None;
  }

  /** The lines of a body; one taken for HTML is converted first. */
  function BodyLines(t: Preparation, body: string): seq<string> {
    var text := t.normalForm(body);
    t.lines(if t.looksLikeHtml(text) then t.htmlToText(text) else text)
  }

  /** `normalize_body` */
  function CleanBody(t: Preparation, body: string): string {
    t.tidy(Own(t.history, BodyLines(t, body)))
  }

  predicate NoLifecycle(c: Category) {
    c == UNKNOWN || c == GENERAL_RECRUITER_MESSAGE || c == AUTOMATED_NOTIFICATION
  }

  datatype ResponseResult = ResponseResult(response: Response, confidence: Confidence, base: Category)

  function ResponseFor(p: Patterns, t: Preparation, subject: string, body: string, senderLocal: string): ResponseResult {
    var base := Classification(p, t.subject(subject), CleanBody(t, body), senderLocal);
    var text := t.subject(subject) + "\n" + CleanBody(t, body);
    if ResponseOf(base.category) == InterviewInvitation && AnyAffirmed(t, text, t.technicalMarkers(text))
    then ResponseResult(TechnicalInterviewInvitation, base.confidence, base.category)
    else if NoLifecycle(base.category) && AnyAffirmed(t, text, t.technicalInvitations(text))
    then ResponseResult(TechnicalInterviewInvitation, HIGH, base.category)
    else if NoLifecycle(base.category) && t.underReview(text) then ResponseResult(UnderReviewNotice, HIGH, base.category)
    else ResponseResult(ResponseOf(base.category), base.confidence, base.category)
  }

  /** `classify_application_response` */
  method ClassifyResponse(p: Patterns, t: Preparation, subject: string, body: string, senderLocal: string)
    returns (r: ResponseResult)
    ensures r == ResponseFor(p, t, subject, body, senderLocal)
  {
    var kept := StripQuotedHistory(t.history, BodyLines(t, body));
    var cleanSubject, cleanBody := t.subject(subject), t.tidy(kept);
    var base := ClassifyEmail(p, cleanSubject, cleanBody, senderLocal);
    var text := cleanSubject + "\n" + cleanBody;
    if ResponseOf(base.category) == InterviewInvitation {
      var marker := AffirmativeMatch(t, text, t.technicalMarkers(text));
      if marker.Some? {
        return ResponseResult(TechnicalInterviewInvitation, base.confidence, base.category);
      }
    }
    if NoLifecycle(base.category) {
      var technical := AffirmativeMatch(t, text, t.technicalInvitations(text));
      if technical.Some? {
        return ResponseResult(TechnicalInterviewInvitation, HIGH, base.category);
      }
      if t.underReview(text) {
        return ResponseResult(UnderReviewNotice, HIGH, base.category);
      }
    }
    return ResponseResult(ResponseOf(base.category), base.confidence, base.category);
  }

  /** Two bodies whose lines differ in any quoted lines, in anything after the
      first quote header, or in both, get the same result. */
  lemma QuotedLinesDecideNothing(p: Patterns, t: Preparation, subject: string, a: string, b: string, senderLocal: string)
    requires SameMessage(t.history, BodyLines(t, a), BodyLines(t, b))
    ensures ResponseFor(p, t, subject, a, senderLocal) == ResponseFor(p, t, subject, b, senderLocal)
  {
    hide Classification, AnyAffirmed, Own, BeforeHeader, WithoutQuoted;
    UnquotedIsOwn(t.history, BodyLines(t, a));
    UnquotedIsOwn(t.history, BodyLines(t, b));
  }

  /** In particular those that differ only after a quote header. */
  lemma HistoryDecidesNothing(p: Patterns, t: Preparation, subject: string, a: string, b: string, senderLocal: string,
                              before: seq<string>, header: string, x: seq<string>, y: seq<string>)
    requires t.history.isHeader(header)
    requires BodyLines(t, a) == before + [header] + x && BodyLines(t, b) == before + [header] + y
    ensures ResponseFor(p, t, subject, a, senderLocal) == ResponseFor(p, t, subject, b, senderLocal)
  {
    hide ResponseFor, Own, BeforeHeader, WithoutQuoted;
    HistoryIgnored(t.history, before, header, x);
    HistoryIgnored(t.history, before, header, y);
    UnquotedIsOwn(t.history, BodyLines(t, a));
    UnquotedIsOwn(t.history, BodyLines(t, b));
    QuotedLinesDecideNothing(p, t, subject, a, b, senderLocal);
  }

  /** The application is recorded as rejected exactly when the mail is a rejection. */
  lemma RejectedMeansRejection(p: Patterns, t: Preparation, subject: string, body: string, senderLocal: string)
    ensures ResponseFor(p, t, subject, body, senderLocal).response == Rejected <==>
      var matched := Matched(p, p.sentences(t.subject(subject) + "\n" + CleanBody(t, body)));
      REJECTION in matched && !Conflict(matched)
  {
    var text := t.subject(subject) + "\n" + CleanBody(t, body);
    var matched := Matched(p, p.sentences(text));
    hide Matched, AnyAffirmed, CleanBody, Conflict;
    if REJECTION in matched {
      RejectionResolves(matched);
    } else {
      NeverFirst(SPECIFIC, matched);
    }
  }

  lemma {:induction false} NeverFirst(precedence: seq<Category>, matched: set<Category>)
    requires REJECTION !in matched
    ensures FirstOf(precedence, matched) != Some(REJECTION)
  {
    if precedence != [] {
      NeverFirst(precedence[1..], matched);
    }
  }

  // ---------------------------------------------------------------- what each result means

  /** Boundaries and mentions are found in order and inside the sentence. */
  ghost predicate RegularPatterns(p: Patterns) {
    && (forall s :: InOrder(p.clauseBoundaries(s)) && Inside(s, p.clauseBoundaries(s)))
    && (forall c, s :: Inside(s, p.mentions(c, s)))
  }

  predicate Inside(s: string, found: seq<Span>) {
    forall k :: 0 <= k < |found| ==> found[k].start <= found[k].end <= |s|
  }

  /** The clause of a mention: from the last boundary that starts before it, or the
      beginning, to the first that starts after it, or the end. */
  ghost predicate IsClause(sentence: string, boundaries: seq<Span>, mention: Span, c: Span) {
    && StartsAtBoundary(boundaries, mention, |boundaries|, c.start) && mention.end <= c.end
    && Uncut(sentence, boundaries, mention, c) && EndsAtBoundary(sentence, boundaries, mention, c.end)
  }

  ghost predicate EndsAtBoundary(sentence: string, boundaries: seq<Span>, mention: Span, end: nat) {
    end == |sentence| || exists j :: 0 <= j < |boundaries| && boundaries[j].start == end && mention.end <= end
  }

  lemma {:induction false} ClauseFromEnds(sentence: string, boundaries: seq<Span>, mention: Span, k: nat, start: nat)
    requires k <= |boundaries|
    ensures EndsAtBoundary(sentence, boundaries, mention, ClauseFrom(sentence, boundaries, mention, k, start).end)
    decreases |boundaries| - k
  {
    if k < |boundaries| {
      if boundaries[k].start < mention.start {
        ClauseFromEnds(sentence, boundaries, mention, k + 1, boundaries[k].end);
      } else if boundaries[k].start < mention.end {
        ClauseFromEnds(sentence, boundaries, mention, k + 1, start);
      }
    }
  }

  lemma ClauseStartUnique(sentence: string, boundaries: seq<Span>, mention: Span, c: Span, d: Span)
    requires IsClause(sentence, boundaries, mention, c) && IsClause(sentence, boundaries, mention, d)
    ensures c.start <= d.start
  {
    if c.start != 0 {
      var j :| 0 <= j < |boundaries| && boundaries[j].end == c.start && boundaries[j].start < mention.start;
    }
  }

  lemma ClauseEndUnique(sentence: string, boundaries: seq<Span>, mention: Span, c: Span, d: Span)
    requires Inside(sentence, boundaries)
    requires IsClause(sentence, boundaries, mention, c) && IsClause(sentence, boundaries, mention, d)
    ensures d.end <= c.end
  {
    if c.end != |sentence| {
      var j :| 0 <= j < |boundaries| && boundaries[j].start == c.end && mention.end <= c.end;
      assert c.end < |sentence|;
    }
  }

  lemma ClauseMeaning(sentence: string, boundaries: seq<Span>, mention: Span, c: Span)
    requires InOrder(boundaries) && Inside(sentence, boundaries) && mention.start <= mention.end <= |sentence|
    ensures IsClause(sentence, boundaries, mention, c) <==> c == ClauseSpan(sentence, boundaries, mention)
  {
    ClauseIsTight(sentence, boundaries, mention);
    ClauseFromEnds(sentence, boundaries, mention, 0, 0);
    var own := ClauseSpan(sentence, boundaries, mention);
    hide ClauseSpan, InOrder, Inside;
    if IsClause(sentence, boundaries, mention, c) {
      ClauseStartUnique(sentence, boundaries, mention, c, own);
      ClauseStartUnique(sentence, boundaries, mention, own, c);
      ClauseEndUnique(sentence, boundaries, mention, c, own);
      ClauseEndUnique(sentence, boundaries, mention, own, c);
    }
  }

  /** The mention counts: its own clause does not negate it, and it is no open-ended
      rejection phrase in a sentence about a pending decision. */
  ghost predicate Counts(p: Patterns, category: Category, sentence: string, m: Span)
    requires m.start <= m.end <= |sentence|
  {
    && (exists c: Span :: IsClause(sentence, p.clauseBoundaries(sentence), m, c) && c.start <= c.end <= |sentence|
          && !p.negates(sentence[c.start..c.end]))
    && !(category == REJECTION && p.openEnded(sentence[m.start..m.end]) && p.pending(sentence))
  }

  ghost predicate SaidIn(p: Patterns, category: Category, sentence: string)
    requires RegularPatterns(p)
  {
    var found := p.mentions(category, sentence);
    assert Inside(sentence, found);
    exists k :: 0 <= k < |found| && Counts(p, category, sentence, found[k])
  }

  /** Some sentence of the mail says so. */
  ghost predicate Said(p: Patterns, category: Category, text: string)
    requires RegularPatterns(p)
  {
    exists k :: 0 <= k < |p.sentences(text)| && SaidIn(p, category, p.sentences(text)[k])
  }

  lemma StartAfterEnd(sentence: string, boundaries: seq<Span>, m: Span)
    requires InOrder(boundaries) && Inside(sentence, boundaries) && m.start <= m.end <= |sentence|
    ensures var c := ClauseSpan(sentence, boundaries, m); c.start <= c.end <= |sentence|
  {
    ClauseFromEnds(sentence, boundaries, m, 0, 0);
    ClauseIsTight(sentence, boundaries, m);
    var c := ClauseSpan(sentence, boundaries, m);
    if c.start != 0 && c.end != |sentence| {
      var i :| 0 <= i < |boundaries| && boundaries[i].start == c.end && m.end <= c.end;
      var j :| 0 <= j < |boundaries| && boundaries[j].end == c.start && boundaries[j].start < m.start;
    } else if c.start != 0 {
      var j :| 0 <= j < |boundaries| && boundaries[j].end == c.start && boundaries[j].start < m.start;
    }
  }

  lemma CountsMeaning(p: Patterns, category: Category, sentence: string, m: Span)
    requires RegularPatterns(p) && m.start <= m.end <= |sentence|
    ensures Counts(p, category, sentence, m) <==> !Suppressed(p, category, sentence, m)
  {
    var boundaries := p.clauseBoundaries(sentence);
    assert InOrder(boundaries) && Inside(sentence, boundaries);
    var own := ClauseSpan(sentence, boundaries, m);
    StartAfterEnd(sentence, boundaries, m);
    ClauseMeaning(sentence, boundaries, m, own);
    hide IsClause, ClauseSpan, InOrder, Inside, RegularPatterns;
    forall c: Span | IsClause(sentence, boundaries, m, c) ensures c == own {
      ClauseMeaning(sentence, boundaries, m, c);
    }
  }

  lemma SaidInMeaning(p: Patterns, category: Category, sentence: string)
    requires RegularPatterns(p)
    ensures SaidIn(p, category, sentence) <==> Mentions(p, category, sentence)
  {
    var found := p.mentions(category, sentence);
    assert Inside(sentence, found);
    hide Counts, Suppressed, RegularPatterns;
    forall k | 0 <= k < |found|
      ensures Counts(p, category, sentence, found[k]) <==> !Suppressed(p, category, sentence, found[k])
    {
      CountsMeaning(p, category, sentence, found[k]);
    }
  }

  lemma SaidMeaning(p: Patterns, category: Category, text: string)
    requires RegularPatterns(p)
    ensures Said(p, category, text) && IsSpecific(category) <==> category in Matched(p, p.sentences(text))
  {
    hide SaidIn, Mentions, FirstMention, RegularPatterns, IsSpecific;
    var sentences := p.sentences(text);
    FirstMentionMeaning(p, category, sentences);
    forall k | 0 <= k < |sentences| ensures SaidIn(p, category, sentences[k]) <==> Mentions(p, category, sentences[k]) {
      SaidInMeaning(p, category, sentences[k]);
    }
  }

  /** Which phrases were said, and which other signals there are. */
  datatype Signals = Signals(
    offer: bool, rejection: bool, reschedule: bool, invitation: bool, closed: bool, request: bool, received: bool,
    automated: bool, general: bool)

  /** Which category a mail gets: a rejection that is contradicted is a conflict; otherwise
      an offer decides before a rejection, before rescheduling, before an invitation,
      before a closed position, before a request, before a confirmation of receipt;
      otherwise automation, and otherwise a general signal. */
  predicate Decides(x: Signals, c: Category) {
    var early := x.offer || x.rejection || x.reschedule || x.invitation;
    var none := !(early || x.closed || x.request || x.received);
    match c
    case OTHER => x.rejection && (x.offer || x.reschedule || x.invitation)
    case OFFER => x.offer && !x.rejection
    case REJECTION => x.rejection && !x.offer && !x.reschedule && !x.invitation
    case INTERVIEW_RESCHEDULE => x.reschedule && !x.offer && !x.rejection
    case INTERVIEW_INVITATION => x.invitation && !x.offer && !x.rejection && !x.reschedule
    case WITHDRAWAL_OR_POSITION_CLOSED => x.closed && !early
    case REQUEST_FOR_INFORMATION => x.request && !early && !x.closed
    case APPLICATION_RECEIVED => x.received && !early && !x.closed && !x.request
    case AUTOMATED_NOTIFICATION => none && x.automated
    case GENERAL_RECRUITER_MESSAGE => none && !x.automated && x.general
    case UNKNOWN => none && !x.automated && !x.general
  }

  ghost function SignalsOf(p: Patterns, text: string, senderLocal: string): Signals
    requires RegularPatterns(p)
  {
    Signals(
      Said(p, OFFER, text), Said(p, REJECTION, text), Said(p, INTERVIEW_RESCHEDULE, text),
      Said(p, INTERVIEW_INVITATION, text), Said(p, WITHDRAWAL_OR_POSITION_CLOSED, text),
      Said(p, REQUEST_FOR_INFORMATION, text), Said(p, APPLICATION_RECEIVED, text),
      p.automatedSender(senderLocal) || p.automatedPhrase(text), p.generalRecruiter(text))
  }

  /** Phrases are sure, automation is half sure, conflicts and general signals are not. */
  function ConfidenceOf(c: Category): Confidence {
    if c in {OTHER, GENERAL_RECRUITER_MESSAGE, UNKNOWN} then LOW
    else if c == AUTOMATED_NOTIFICATION then MEDIUM
    else HIGH
  }

  lemma ClassificationMeaning(p: Patterns, subject: string, body: string, senderLocal: string)
    requires RegularPatterns(p)
    ensures var r, x := Classification(p, subject, body, senderLocal), SignalsOf(p, subject + "\n" + body, senderLocal);
      && r.automated == x.automated && (forall c :: r.category == c <==> Decides(x, c))
      && r.confidence == ConfidenceOf(r.category)
  {
    var text := subject + "\n" + body;
    var matched := Matched(p, p.sentences(text));
    forall c ensures Said(p, c, text) && IsSpecific(c) <==> c in matched {
      SaidMeaning(p, c, text);
    }
    var x := SignalsOf(p, text, senderLocal);
    SignalsMatched(p, text, senderLocal, matched);
    hide Matched, SignalsOf, RegularPatterns, Said;
    Decided(matched, x);
    hide Resolve, Decides;
  }

  ghost predicate SameSignals(matched: set<Category>, x: Signals) {
    && x.offer == (OFFER in matched) && x.rejection == (REJECTION in matched)
    && x.reschedule == (INTERVIEW_RESCHEDULE in matched) && x.invitation == (INTERVIEW_INVITATION in matched)
    && x.closed == (WITHDRAWAL_OR_POSITION_CLOSED in matched) && x.request == (REQUEST_FOR_INFORMATION in matched)
    && x.received == (APPLICATION_RECEIVED in matched)
  }

  lemma SignalsMatched(p: Patterns, text: string, senderLocal: string, matched: set<Category>)
    requires RegularPatterns(p) && forall c :: Said(p, c, text) && IsSpecific(c) <==> c in matched
    ensures SameSignals(matched, SignalsOf(p, text, senderLocal))
  {
    hide Said, RegularPatterns;
  }

  /** The resolved category, with the two later steps, is the one the signals decide. */
  lemma Decided(matched: set<Category>, x: Signals)
    requires (forall c :: c in matched ==> IsSpecific(c)) && SameSignals(matched, x)
    ensures var (category, confidence) := Resolve(matched);
      var result :=
        if category != UNKNOWN then category
        else if x.automated then AUTOMATED_NOTIFICATION
        else if x.general then GENERAL_RECRUITER_MESSAGE
        else UNKNOWN;
      && (forall c :: result == c <==> Decides(x, c))
      && (category != UNKNOWN ==> confidence == ConfidenceOf(category)) && (category == UNKNOWN ==> confidence == LOW)
  {
    ResolveMeaning(matched);
    hide Resolve, Conflict, FirstOf;
  }

  /** The first matched category of the order, unless a rejection is contradicted. */
  lemma ResolveMeaning(matched: set<Category>)
    requires forall c :: c in matched ==> IsSpecific(c)
    ensures var contradicted := OFFER in matched || INTERVIEW_RESCHEDULE in matched || INTERVIEW_INVITATION in matched;
      Resolve(matched) ==
        if REJECTION in matched && contradicted then (OTHER, LOW)
        else if OFFER in matched then (OFFER, HIGH)
        else if REJECTION in matched then (REJECTION, HIGH)
        else if INTERVIEW_RESCHEDULE in matched then (INTERVIEW_RESCHEDULE, HIGH)
        else if INTERVIEW_INVITATION in matched then (INTERVIEW_INVITATION, HIGH)
        else if WITHDRAWAL_OR_POSITION_CLOSED in matched then (WITHDRAWAL_OR_POSITION_CLOSED, HIGH)
        else if REQUEST_FOR_INFORMATION in matched then (REQUEST_FOR_INFORMATION, HIGH)
        else if APPLICATION_RECEIVED in matched then (APPLICATION_RECEIVED, HIGH)
        else (UNKNOWN, LOW)
  {
    assert ContradictsRejection(OFFER) && ContradictsRejection(INTERVIEW_RESCHEDULE) && ContradictsRejection(INTERVIEW_INVITATION);
    var s := SPECIFIC;
    assert s[7..] == [] && FirstOf(s[7..], matched) == None;
    forall k | 0 <= k < 7
      ensures s[k..][0] == s[k] && s[k..][1..] == s[k + 1..]
      ensures FirstOf(s[k..], matched) == if s[k] in matched then Some(s[k]) else FirstOf(s[k + 1..], matched)
    {
      assert s[k..] != [];
    }
    hide FirstOf;
    assert s[0..] == s;
  }

  /** The text of a mail: its own lines, tidied, after the subject; a body taken for HTML
      is converted first, quoted lines and the history are left out. */
  ghost predicate IsText(t: Preparation, subject: string, body: string, text: string) {
    exists own :: OwnLines(t, body, own) && text == t.subject(subject) + "\n" + t.tidy(own)
  }

  predicate OwnLines(t: Preparation, body: string, own: seq<string>) {
    var plain := t.normalForm(body);
    && (t.looksLikeHtml(plain) ==> own == WithoutQuoted(t.history, BeforeHeader(t.history, t.lines(t.htmlToText(plain)))))
    && (!t.looksLikeHtml(plain) ==> own == WithoutQuoted(t.history, BeforeHeader(t.history, t.lines(plain))))
  }

  /** No negation stands between the last clause start before the match and the match. */
  predicate NotNegated(t: Preparation, text: string, found: Span) {
    var starts := t.clauseStarts(text, found.start);
    && (starts == [] && found.start <= |text| ==> !t.markerNegates(text[..found.start]))
    && (starts != [] && starts[|starts| - 1] <= found.start <= |text| ==>
          !t.markerNegates(text[starts[|starts| - 1]..found.start]))
  }

  /** Matches and clause starts lie in the text, the starts before the match. */
  ghost predicate RegularPreparation(t: Preparation) {
    && (forall text :: Inside(text, t.technicalMarkers(text)) && Inside(text, t.technicalInvitations(text)))
    && (forall text, at, k :: 0 <= k < |t.clauseStarts(text, at)| ==> t.clauseStarts(text, at)[k] <= at)
  }

  ghost predicate SomeNotNegated(t: Preparation, text: string, found: seq<Span>) {
    exists k :: 0 <= k < |found| && NotNegated(t, text, found[k])
  }

  lemma AffirmedMeaning(t: Preparation, text: string, found: seq<Span>)
    requires RegularPreparation(t) && Inside(text, found)
    ensures AnyAffirmed(t, text, found) <==> SomeNotNegated(t, text, found)
  {
    forall k | 0 <= k < |found| ensures Affirmed(t, text, found[k]) <==> NotNegated(t, text, found[k]) {
      var starts := t.clauseStarts(text, found[k].start);
      assert starts != [] ==> starts[|starts| - 1] <= found[k].start;
      assert text[0..found[k].start] == text[..found[k].start];
    }
  }

  /** What a mail means for the application, by its category and three further signals:
      a technical marker, a technical invitation, a notice that it is under review. */
  predicate Answers(base: Category, marker: bool, invitation: bool, review: bool, r: Response) {
    var interview := base == INTERVIEW_INVITATION || base == INTERVIEW_RESCHEDULE;
    var open := base == UNKNOWN || base == GENERAL_RECRUITER_MESSAGE || base == AUTOMATED_NOTIFICATION;
    match r
    case ReceiptConfirmation => base == APPLICATION_RECEIVED
    case RequestForInformation => base == REQUEST_FOR_INFORMATION
    case InterviewInvitation => interview && !marker
    case TechnicalInterviewInvitation => (interview && marker) || (open && invitation)
    case Rejected => base == REJECTION
    case Offered => base == OFFER
    case UnderReviewNotice => open && !invitation && review
    case Unclassified => base == UNKNOWN && !invitation && !review
    case OtherApplicationMessage =>
      base == WITHDRAWAL_OR_POSITION_CLOSED || base == OTHER || (open && base != UNKNOWN && !invitation && !review)
  }

  ghost predicate IsResponse(p: Patterns, t: Preparation, text: string, base: Classified, r: ResponseResult) {
    var marker := SomeNotNegated(t, text, t.technicalMarkers(text));
    var invitation, review := SomeNotNegated(t, text, t.technicalInvitations(text)), t.underReview(text);
    var open := base.category in {UNKNOWN, GENERAL_RECRUITER_MESSAGE, AUTOMATED_NOTIFICATION};
    && r.base == base.category && (forall x :: r.response == x <==> Answers(base.category, marker, invitation, review, x))
    && r.confidence == if open && (invitation || review) then HIGH else base.confidence
  }

  ghost predicate Responds(p: Patterns, t: Preparation, subject: string, body: string, senderLocal: string,
                           r: ResponseResult)
  {
    exists text, cleanBody ::
      && IsText(t, subject, body, text) && text == t.subject(subject) + "\n" + cleanBody
      && IsResponse(p, t, text, Classification(p, t.subject(subject), cleanBody, senderLocal), r)
  }

  /** The response to a mail. */
  lemma ResponseMeaning(p: Patterns, t: Preparation, subject: string, body: string, senderLocal: string)
    requires RegularPreparation(t)
    ensures Responds(p, t, subject, body, senderLocal, ResponseFor(p, t, subject, body, senderLocal))
  {
    hide Classification, Affirmed, AnyAffirmed, NotNegated, SomeNotNegated;
    var own := Own(t.history, BodyLines(t, body));
    OwnMeaning(t.history, BodyLines(t, body));
    hide Own, WithoutQuoted, BeforeHeader;
    assert OwnLines(t, body, own);
    var cleanBody := CleanBody(t, body);
    var text := t.subject(subject) + "\n" + cleanBody;
    assert IsText(t, subject, body, text);
    AffirmedMeaning(t, text, t.technicalMarkers(text));
    AffirmedMeaning(t, text, t.technicalInvitations(text));
    hide RegularPreparation;
    var base := Classification(p, t.subject(subject), cleanBody, senderLocal);
    assert IsResponse(p, t, text, base, ResponseFor(p, t, subject, body, senderLocal));
  }
}
