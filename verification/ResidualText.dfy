/** The fail-closed net over required vacancy text in
    `app/agents/candidate_job_matcher.py`: every clause that still says something
    after masking becomes a requirement of its own. */
module ResidualText {
  import opened PythonText
  import opened RequiredText
  import opened SubjectRestoration
  import opened Wrappers

  predicate HasExperienceHead(r: Reader, masked: string, clause: Clause) {
    exists k :: 0 <= k < |clause.tokens| && r.isExperience(StripHyphens(Slice(masked, clause.tokens[k])))
  }

  predicate HasHead(r: Reader, masked: string, clause: Clause) {
    exists k :: 0 <= k < |clause.tokens| && r.isHead(Slice(masked, clause.tokens[k]))
  }

  predicate AllHeads(r: Reader, masked: string, clause: Clause) {
    forall k :: 0 <= k < |clause.tokens| ==> r.isHead(Slice(masked, clause.tokens[k]))
  }

  /** `_shares_right_complement` */
  predicate SharesRight(r: Reader, masked: string, clause: Clause, right: Option<Clause>) {
    && right.Some? && clause.conjunctionAfter && right.value.tokens != []
    && Kept(r, masked, clause) == []
    && r.startsRequirement(Slice(masked, Span(right.value.tokens[0].start, right.value.tokens[|right.value.tokens| - 1].end)))
  }

  function EarliestIn(technology: seq<Span>, lo: nat, hi: nat): Option<nat> {
    if technology == [] then None
    else
      var n := |technology| - 1;
      var earlier := EarliestIn(technology[..n], lo, hi);
      if lo <= technology[n].start && technology[n].end <= hi && (earlier.None? || technology[n].start < earlier.value)
      then Some(technology[n].start) else earlier
  }

  /** `_left_shared_technology` */
  function LeftShared(r: Reader, x: Line, left: Option<Clause>, clause: Clause): Option<nat> {
    if left.None? || !left.value.conjunctionAfter || left.value.tokens == []
       || !HasExperienceHead(r, x.masked, clause) || !AllHeads(r, x.masked, left.value) || !AllHeads(r, x.masked, clause)
    then None
    else EarliestIn(x.technology, left.value.start, left.value.tokens[0].start)
  }

  /** What becomes of one clause. */
  datatype Fate = Silent | Whole | KeptWords | SharedRight | SharedLeft(start: nat)

  function FateOf(r: Reader, x: Line, left: Option<Clause>, clause: Clause, right: Option<Clause>): Fate {
    if Kept(r, x.masked, clause) != [] then KeptWords
    else if clause.owned || !HasHead(r, x.masked, clause) then Silent
    else if SharesRight(r, x.masked, clause, right) then SharedRight
    else if LeftShared(r, x, left, clause).Some? then SharedLeft(LeftShared(r, x, left, clause).value)
    else Whole
  }

  /** The words of a clause that must not be lost. */
  function Essential(r: Reader, x: Line, left: Option<Clause>, clause: Clause, right: Option<Clause>): seq<Span> {
    match FateOf(r, x, left, clause, right)
    case KeptWords => Kept(r, x.masked, clause)
    case Whole => clause.tokens
    case SharedRight => if HasExperienceHead(r, x.masked, clause) then clause.tokens else []
    case SharedLeft(_) => clause.tokens
    case Silent => []
  }

  /** The text exposes nothing beyond the display of the line. */
  ghost predicate Exposes(r: Reader, x: Line, text: string)
    requires GoodLine(x)
  {
    exists display, from: nat, to: nat :: ShownAs(r, x, text, display, from, to)
  }

  predicate GoodClause(x: Line, clause: Clause) {
    && clause.start <= clause.end <= |x.segment| && Ascending(clause.tokens, clause.start, clause.end)
    && forall k :: 0 <= k < |clause.tokens| ==> IsWord(x.masked, clause.tokens[k])
  }

  /** The text of a clause holds each of its kept words. */
  method KeptText(r: Reader, x: Line, clause: Clause, kept: seq<Span>, qualified: seq<Span>) returns (text: string)
    requires GoodLine(x) && GoodClause(x, clause) && kept != []
    requires Ascending(kept, clause.start, clause.end) && Ascending(qualified, clause.start, clause.end)
    requires forall k :: 0 <= k < |kept| ==> kept[k] in clause.tokens
    ensures text == TextOf(ClauseView(r, x, kept, qualified, clause.start, clause.end))
    ensures Exposes(r, x, text)
    ensures forall k :: 0 <= k < |kept| ==> Occurs(Slice(x.masked, kept[k]), text)
  {
    text := ClauseText(r, x, kept, qualified, clause.start, clause.end);
    ghost var v := ClauseView(r, x, kept, qualified, clause.start, clause.end);
    assert ShownAs(r, x, text, v.display, v.from, v.to);
    hide GoodLine, Ascending, ShownAs, SubjectsShown, Occurs, IsWord, ClauseView;
    forall k | 0 <= k < |kept| ensures Occurs(Slice(x.masked, kept[k]), text) {
      Between(kept, k, clause.start, clause.end);
      var i :| 0 <= i < |clause.tokens| && clause.tokens[i] == kept[k];
      WordShown(r, x, text, v.display, v.from, v.to, kept[k]);
    }
  }

  lemma Between(tokens: seq<Span>, k: nat, lo: nat, hi: nat)
    requires Ascending(tokens, lo, hi) && k < |tokens|
    ensures tokens[0].start <= tokens[k].start < tokens[k].end <= tokens[|tokens| - 1].end
  {
  }

  function LeftOf(pieces: seq<Clause>, k: nat): Option<Clause>
    requires k < |pieces|
  {
    if k > 0 then Some(pieces[k - 1]) else None
  }

  function RightOf(pieces: seq<Clause>, k: nat): Option<Clause>
    requires k < |pieces|
  {
    if k + 1 < |pieces| then Some(pieces[k + 1]) else None
  }

  function EssentialOf(r: Reader, x: Line, pieces: seq<Clause>, k: nat): seq<Span>
    requires k < |pieces|
  {
    Essential(r, x, LeftOf(pieces, k), pieces[k], RightOf(pieces, k))
  }

  /** The word at the position is material, or part of qualified experience wording. */
  predicate KeptAt(r: Reader, masked: string, clause: Clause, i: nat)
    requires i < |clause.tokens|
  {
    r.isMaterial(Slice(masked, clause.tokens[i])) || i in r.qualified(Words(masked, clause))
  }

  predicate NothingKept(r: Reader, masked: string, clause: Clause) {
    forall i: nat :: i < |clause.tokens| ==> !KeptAt(r, masked, clause, i)
  }

  /** A bare knowledge head before "and": the clause after it starts with a head of its
      own, whose complement it shares. */
  predicate SharesAway(r: Reader, masked: string, clause: Clause, right: Option<Clause>) {
    && right.Some? && right.value.tokens != [] && clause.conjunctionAfter
    && (forall i: nat :: i < |clause.tokens| ==> !r.isExperience(StripHyphens(Slice(masked, clause.tokens[i]))))
    && r.startsRequirement(
         Slice(masked, Span(right.value.tokens[0].start, right.value.tokens[|right.value.tokens| - 1].end)))
  }

  /** No typed requirement evaluated any of the clause, it has a requirement head, and
      its complement is not elsewhere: then it is a requirement as it stands. */
  predicate Independent(r: Reader, masked: string, clause: Clause, right: Option<Clause>) {
    && !clause.owned && (exists i: nat :: i < |clause.tokens| && r.isHead(Slice(masked, clause.tokens[i])))
    && !SharesAway(r, masked, clause, right)
  }

  /** The words of the clause that must be in a requirement. */
  predicate MustReport(r: Reader, masked: string, clause: Clause, right: Option<Clause>, t: Span) {
    || (exists i: nat :: i < |clause.tokens| && clause.tokens[i] == t && KeptAt(r, masked, clause, i))
    || (t in clause.tokens && NothingKept(r, masked, clause) && Independent(r, masked, clause, right))
  }

  lemma KeptMeaning(r: Reader, masked: string, clause: Clause, t: Span)
    ensures t in Kept(r, masked, clause) <==>
      exists i: nat :: i < |clause.tokens| && clause.tokens[i] == t && KeptAt(r, masked, clause, i)
    ensures Kept(r, masked, clause) == [] <==> NothingKept(r, masked, clause)
  {
    hide Slice, Words;
    var at := MaterialAt(r, masked, clause) + QualifiedAt(r, masked, clause);
    var kept := Chosen(clause.tokens, at);
    forall i: nat | i < |clause.tokens| && KeptAt(r, masked, clause, i) ensures clause.tokens[i] in kept {
      ChosenHas(clause.tokens, at, i);
    }
    forall k: nat | k < |kept|
      ensures exists i: nat :: i < |clause.tokens| && clause.tokens[i] == kept[k] && KeptAt(r, masked, clause, i)
    {
      ChosenFrom(clause.tokens, at, k);
      var i: nat :| i < |clause.tokens| && i in at && clause.tokens[i] == kept[k];
      assert KeptAt(r, masked, clause, i);
    }
    if kept != [] {
      var i: nat :| i < |clause.tokens| && clause.tokens[i] == kept[0] && KeptAt(r, masked, clause, i);
    }
  }

  lemma HeadsMeaning(r: Reader, masked: string, clause: Clause, right: Option<Clause>)
    requires NothingKept(r, masked, clause)
    ensures HasHead(r, masked, clause) <==> exists i: nat :: i < |clause.tokens| && r.isHead(Slice(masked, clause.tokens[i]))
    ensures SharesRight(r, masked, clause, right) && !HasExperienceHead(r, masked, clause)
      <==> SharesAway(r, masked, clause, right)
  {
    hide Slice, StripHyphens, Kept;
    KeptMeaning(r, masked, clause, Span(0, 0));
    if k :| 0 <= k < |clause.tokens| && r.isHead(Slice(masked, clause.tokens[k])) {
      var i: nat := k;
      assert r.isHead(Slice(masked, clause.tokens[i]));
    }
  }

  /** The essential words are exactly those that must be in a requirement. */
  lemma EssentialMeaning(r: Reader, x: Line, pieces: seq<Clause>, k: nat, t: Span)
    requires k < |pieces|
    ensures t in EssentialOf(r, x, pieces, k) <==> MustReport(r, x.masked, pieces[k], RightOf(pieces, k), t)
  {
    hide Slice, StripHyphens, Kept, NothingKept, HasHead, HasExperienceHead, SharesRight, SharesAway, LeftShared, KeptAt;
    var clause, right := pieces[k], RightOf(pieces, k);
    KeptMeaning(r, x.masked, clause, t);
    if NothingKept(r, x.masked, clause) {
      HeadsMeaning(r, x.masked, clause, right);
      NoneKept(r, x.masked, clause, t);
    }
  }

  lemma NoneKept(r: Reader, masked: string, clause: Clause, t: Span)
    requires NothingKept(r, masked, clause)
    ensures !exists i: nat :: i < |clause.tokens| && clause.tokens[i] == t && KeptAt(r, masked, clause, i)
  {
    hide KeptAt;
  }

  /** A clause leaves no text exactly when none of its words is kept and it is owned, has
      no head, or is a bare knowledge head whose complement is elsewhere. */
  lemma SilentMeaning(r: Reader, x: Line, pieces: seq<Clause>, k: nat)
    requires GoodLine(x) && GoodPieces(x, pieces) && k < |pieces|
    ensures TextsOfClause(r, x, pieces, k) == [] <==>
      NothingKept(r, x.masked, pieces[k]) && !Independent(r, x.masked, pieces[k], RightOf(pieces, k))
  {
    hide GoodLine, GoodPieces, Kept, NothingKept, HasHead, HasExperienceHead, SharesRight, SharesAway, LeftShared,
      ClauseView, TextOf, TechnologyView, Qualified, Slice, StripHyphens;
    KeptMeaning(r, x.masked, pieces[k], Span(0, 0));
    if NothingKept(r, x.masked, pieces[k]) {
      HeadsMeaning(r, x.masked, pieces[k], RightOf(pieces, k));
    }
  }

  /** All words are words of the text. */
  ghost predicate Holds(x: Line, words: seq<Span>, text: string) {
    forall k :: 0 <= k < |words| ==> Occurs(Slice(x.masked, words[k]), text)
  }

  /** Some text holds all the words. */
  ghost predicate HeldBySome(x: Line, words: seq<Span>, texts: seq<string>) {
    words == [] || exists j :: 0 <= j < |texts| && Holds(x, words, texts[j])
  }

  /** The word is a word of some text. */
  ghost predicate InSome(x: Line, t: Span, texts: seq<string>) {
    exists j :: 0 <= j < |texts| && Occurs(Slice(x.masked, t), texts[j])
  }

  lemma EssentialInSome(r: Reader, x: Line, pieces: seq<Clause>, k: nat, texts: seq<string>)
    requires k < |pieces| && HeldBySome(x, EssentialOf(r, x, pieces, k), texts)
    ensures forall t :: MustReport(r, x.masked, pieces[k], RightOf(pieces, k), t) ==> InSome(x, t, texts)
  {
    hide MustReport, EssentialOf, Occurs;
    forall t | MustReport(r, x.masked, pieces[k], RightOf(pieces, k), t) ensures InSome(x, t, texts) {
      EssentialMeaning(r, x, pieces, k, t);
      var words := EssentialOf(r, x, pieces, k);
      var i :| 0 <= i < |words| && words[i] == t;
      var j :| 0 <= j < |texts| && Holds(x, words, texts[j]);
    }
  }

  ghost predicate GoodPieces(x: Line, pieces: seq<Clause>) {
    && (forall k :: 0 <= k < |pieces| ==> GoodClause(x, pieces[k]))
    && forall k :: 0 < k < |pieces| ==> pieces[k - 1].end <= pieces[k].start
  }

  lemma PiecesAreGood(r: Reader, segment: string, spans: seq<Span>, technology: seq<Span>, pieces: seq<Clause>)
    requires Regular(r) && IsPieces(r, segment, spans, technology, pieces)
    requires forall k :: 0 <= k < |technology| ==> technology[k].start <= technology[k].end <= |segment|
    ensures GoodPieces(LineOf(segment, spans, technology), pieces)
  {
    hide Counting, ClauseAt, GoodClause, LineOf, Regular;
    var x := LineOf(segment, spans, technology);
    var bounds := Counting(segment, r.boundaries(Masked(segment, spans)));
    BoundariesGood(r, segment, Masked(segment, spans));
    forall k | 0 <= k < |pieces| ensures GoodClause(x, pieces[k]) {
      var hi := if k < |bounds| then bounds[k].start else |segment|;
      ClauseIsGood(r, segment, spans, technology, StartAfter(bounds, k), hi, k < |bounds| && bounds[k].conjunction);
    }
    forall k | 0 < k < |pieces| ensures pieces[k - 1].end <= pieces[k].start {
      ClauseEnds(r, segment, spans, technology, StartAfter(bounds, k - 1), bounds[k - 1].start, bounds[k - 1].conjunction);
      var hi := if k < |bounds| then bounds[k].start else |segment|;
      ClauseEnds(r, segment, spans, technology, StartAfter(bounds, k), hi, k < |bounds| && bounds[k].conjunction);
    }
  }

  lemma ClauseEnds(r: Reader, segment: string, spans: seq<Span>, technology: seq<Span>, lo: nat, hi: nat, conjunction: bool)
    requires lo <= hi <= |segment|
    ensures ClauseAt(r, segment, spans, technology, lo, hi, conjunction).start == lo
    ensures ClauseAt(r, segment, spans, technology, lo, hi, conjunction).end == hi
  {
  }

  lemma ClauseIsGood(r: Reader, segment: string, spans: seq<Span>, technology: seq<Span>, lo: nat, hi: nat, conjunction: bool)
    requires Regular(r) && lo <= hi <= |segment|
    requires forall k :: 0 <= k < |technology| ==> technology[k].start <= technology[k].end <= |segment|
    ensures GoodClause(LineOf(segment, spans, technology), ClauseAt(r, segment, spans, technology, lo, hi, conjunction))
  {
    hide GoodTokens, IsCompound, IsWord, Ascending;
    var masked := Masked(segment, spans);
    assert GoodTokens(masked, lo, hi, r.tokens(masked, lo, hi));
    TokensAreWords(masked, lo, hi, r.tokens(masked, lo, hi));
  }

  lemma TokensAreWords(masked: string, lo: nat, hi: nat, tokens: seq<Span>)
    requires lo <= hi <= |masked| && GoodTokens(masked, lo, hi, tokens)
    ensures Ascending(tokens, lo, hi) && forall k :: 0 <= k < |tokens| ==> IsWord(masked, tokens[k])
  {
    hide IsSpace;
  }

  lemma ClauseBounds(x: Line, clause: Clause)
    requires GoodLine(x) && GoodClause(x, clause)
    ensures clause.start <= clause.end <= |x.segment| && Ascending(clause.tokens, clause.start, clause.end)
  {
  }

  lemma KeptInClause(r: Reader, x: Line, clause: Clause)
    requires GoodClause(x, clause)
    ensures Ascending(Kept(r, x.masked, clause), clause.start, clause.end)
    ensures Ascending(Qualified(r, x.masked, clause), clause.start, clause.end)
    ensures forall k :: 0 <= k < |Kept(r, x.masked, clause)| ==> Kept(r, x.masked, clause)[k] in clause.tokens
  {
    hide IsWord, Chosen, Ascending, MaterialAt, QualifiedAt;
    var at := MaterialAt(r, x.masked, clause) + QualifiedAt(r, x.masked, clause);
    ChosenAscending(clause.tokens, at, clause.start, clause.end);
    ChosenAscending(clause.tokens, QualifiedAt(r, x.masked, clause), clause.start, clause.end);
    forall k | 0 <= k < |Chosen(clause.tokens, at)| ensures Chosen(clause.tokens, at)[k] in clause.tokens {
      ChosenFrom(clause.tokens, at, k);
    }
  }

  lemma HoldsAll(x: Line, words: seq<Span>, text: string)
    requires forall k :: 0 <= k < |words| ==> Occurs(Slice(x.masked, words[k]), text)
    ensures Holds(x, words, text) && HeldBySome(x, words, [text])
  {
    hide Occurs, Slice;
    assert Holds(x, words, [text][0]);
  }

  /** A text that shows the line from the clause's first word on, or before it, to
      its last word or beyond holds all its words. */
  lemma HoldsBetween(r: Reader, x: Line, clause: Clause, text: string, display: string, from: nat, to: nat)
    requires GoodLine(x) && GoodClause(x, clause) && clause.tokens != [] && ShownAs(r, x, text, display, from, to)
    requires from <= clause.tokens[0].start && clause.tokens[|clause.tokens| - 1].end <= to
    ensures HeldBySome(x, clause.tokens, [text])
  {
    hide GoodLine, IsWord, ShownAs, Ascending, Occurs;
    forall k | 0 <= k < |clause.tokens| ensures Occurs(Slice(x.masked, clause.tokens[k]), text) {
      Between(clause.tokens, k, clause.start, clause.end);
      WordShown(r, x, text, display, from, to, clause.tokens[k]);
    }
    HoldsAll(x, clause.tokens, text);
  }

  lemma HeadMeansWords(r: Reader, masked: string, clause: Clause)
    ensures HasHead(r, masked, clause) || HasExperienceHead(r, masked, clause) ==> clause.tokens != []
  {
  }

  lemma RightBounds(x: Line, pieces: seq<Clause>, k: nat)
    requires GoodLine(x) && GoodPieces(x, pieces) && k + 1 < |pieces| && pieces[k].tokens != []
    ensures pieces[k].tokens[0].start <= pieces[k].tokens[|pieces[k].tokens| - 1].end <= pieces[k + 1].end <= |x.segment|
  {
    assert GoodClause(x, pieces[k]) && GoodClause(x, pieces[k + 1]);
  }

  lemma {:induction false} EarliestBefore(technology: seq<Span>, lo: nat, hi: nat)
    requires forall k :: 0 <= k < |technology| ==> technology[k].start <= technology[k].end
    ensures EarliestIn(technology, lo, hi).Some? ==> lo <= EarliestIn(technology, lo, hi).value <= hi
  {
    if technology != [] {
      EarliestBefore(technology[..|technology| - 1], lo, hi);
    }
  }

  lemma SharedStart(r: Reader, x: Line, pieces: seq<Clause>, k: nat)
    requires GoodLine(x) && GoodPieces(x, pieces) && k < |pieces| && pieces[k].tokens != []
    requires LeftShared(r, x, LeftOf(pieces, k), pieces[k]).Some?
    ensures var clause := pieces[k];
      && LeftShared(r, x, LeftOf(pieces, k), clause).value <= clause.tokens[0].start
      && clause.tokens[0].start <= clause.tokens[|clause.tokens| - 1].end <= |x.segment|
  {
    hide IsWord, HasExperienceHead, AllHeads;
    var left, clause := pieces[k - 1], pieces[k];
    assert GoodClause(x, left) && GoodClause(x, clause);
    EarliestBefore(x.technology, left.start, left.tokens[0].start);
  }

  /** What is shown of one clause of the line, if anything. */
  function ViewOfClause(r: Reader, x: Line, pieces: seq<Clause>, k: nat): (view: Option<View>)
    requires GoodLine(x) && GoodPieces(x, pieces) && k < |pieces|
    ensures view.Some? ==> GoodView(x, view.value)
  {
    var clause, left, right := pieces[k], LeftOf(pieces, k), RightOf(pieces, k);
    ClauseBounds(x, clause);
    KeptInClause(r, x, clause);
    HeadMeansWords(r, x.masked, clause);
    match FateOf(r, x, left, clause, right)
    case Silent => None
    case KeptWords =>
      Some(ClauseView(r, x, Kept(r, x.masked, clause), Qualified(r, x.masked, clause), clause.start, clause.end))
    case Whole => Some(ClauseView(r, x, clause.tokens, Qualified(r, x.masked, clause), clause.start, clause.end))
    case SharedRight =>
      if !HasExperienceHead(r, x.masked, clause) then None
      else
        RightBounds(x, pieces, k);
        Some(TechnologyView(x, clause.tokens[0].start, right.value.end))
    case SharedLeft(start) =>
      SharedStart(r, x, pieces, k);
      Some(TechnologyView(x, start, clause.tokens[|clause.tokens| - 1].end))
  }

  /** The texts of one clause of the line. */
  function TextsOfClause(r: Reader, x: Line, pieces: seq<Clause>, k: nat): (texts: seq<string>)
    requires GoodLine(x) && GoodPieces(x, pieces) && k < |pieces|
    ensures |texts| <= 1
  {
    var view := ViewOfClause(r, x, pieces, k);
    if view.None? then [] else [TextOf(view.value)]
  }

  /** One clause of the line: at most one text, holding its essential words. */
  method ClauseTexts(r: Reader, x: Line, pieces: seq<Clause>, k: nat) returns (texts: seq<string>)
    requires GoodLine(x) && GoodPieces(x, pieces) && k < |pieces|
    ensures texts == TextsOfClause(r, x, pieces, k)
    ensures |texts| <= 1
    ensures texts == [] <==>
      NothingKept(r, x.masked, pieces[k]) && !Independent(r, x.masked, pieces[k], RightOf(pieces, k))
    ensures forall t :: MustReport(r, x.masked, pieces[k], RightOf(pieces, k), t) ==> InSome(x, t, texts)
    ensures HeldBySome(x, EssentialOf(r, x, pieces, k), texts)
    ensures forall j :: 0 <= j < |texts| ==> Exposes(r, x, texts[j])
  {
    hide NothingKept, Independent, MustReport, InSome;
    hide GoodLine, GoodClause, Kept, Qualified, Holds, LeftShared, HasHead, HasExperienceHead, ClauseView, Collapse;
    var clause, left, right := pieces[k], LeftOf(pieces, k), RightOf(pieces, k);
    ClauseBounds(x, clause);
    texts := [];
    match FateOf(r, x, left, clause, right) {
      case Silent =>
      case KeptWords =>
        KeptInClause(r, x, clause);
        var text := KeptText(r, x, clause, Kept(r, x.masked, clause), Qualified(r, x.masked, clause));
        HoldsAll(x, Kept(r, x.masked, clause), text);
        texts := [text];
      case Whole =>
        HeadMeansWords(r, x.masked, clause);
        KeptInClause(r, x, clause);
        var text := KeptText(r, x, clause, clause.tokens, Qualified(r, x.masked, clause));
        HoldsAll(x, clause.tokens, text);
        texts := [text];
      case SharedRight =>
        if HasExperienceHead(r, x.masked, clause) {
          HeadMeansWords(r, x.masked, clause);
          RightBounds(x, pieces, k);
          var text := RestoredText(r, x, clause.tokens[0].start, right.value.end);
          ghost var v := TechnologyView(x, clause.tokens[0].start, right.value.end);
          HoldsBetween(r, x, clause, text, v.display, v.from, v.to);
          texts := [text];
        }
      case SharedLeft(start) =>
        HeadMeansWords(r, x.masked, clause);
        SharedStart(r, x, pieces, k);
        var text := RestoredText(r, x, start, clause.tokens[|clause.tokens| - 1].end);
        ghost var v := TechnologyView(x, start, clause.tokens[|clause.tokens| - 1].end);
        HoldsBetween(r, x, clause, text, v.display, v.from, v.to);
        texts := [text];
    }
    SilentMeaning(r, x, pieces, k);
    EssentialInSome(r, x, pieces, k, texts);
  }

  /** The texts of the first `n` clauses. */
  function TextsOf(r: Reader, x: Line, pieces: seq<Clause>, n: nat): seq<string>
    requires GoodLine(x) && GoodPieces(x, pieces) && n <= |pieces|
  {
    if n == 0 then [] else TextsOf(r, x, pieces, n - 1) + TextsOfClause(r, x, pieces, n - 1)
  }

  /** Spans lie in the line. */
  predicate SpansIn(segment: string, technology: seq<Span>) {
    forall k :: 0 <= k < |technology| ==> technology[k].start <= technology[k].end <= |segment|
  }

  /** All residual texts of a line. */
  function ResidualOf(r: Reader, segment: string, spans: seq<Span>, technology: seq<Span>): seq<string>
    requires Regular(r) && SpansIn(segment, technology)
  {
    var pieces := PiecesOf(r, segment, spans, technology);
    PiecesAreGood(r, segment, spans, technology, pieces);
    TextsOf(r, LineOf(segment, spans, technology), pieces, |pieces|)
  }

  /** `_residual_clauses`: no essential word of any clause is lost. */
  method ResidualClauses(r: Reader, segment: string, spans: seq<Span>, technology: seq<Span>) returns (texts: seq<string>)
    requires Regular(r) && SpansIn(segment, technology)
    ensures texts == ResidualOf(r, segment, spans, technology)
    ensures var x, pieces := LineOf(segment, spans, technology), PiecesOf(r, segment, spans, technology);
      && (forall k: nat :: k < |pieces| ==> HeldBySome(x, EssentialOf(r, x, pieces, k), texts))
      && (forall k: nat, t :: k < |pieces| && MustReport(r, x.masked, pieces[k], RightOf(pieces, k), t) ==>
            InSome(x, t, texts))
      && (forall j :: 0 <= j < |texts| ==> Exposes(r, x, texts[j]))
  {
    hide Regular, IsPieces, PiecesOf, GoodPieces, EssentialOf, HeldBySome, Exposes, LineOf, TextsOfClause, MustReport, InSome,
      NothingKept, Independent;
    var clauses := SplitClauses(r, segment, spans, technology);
    PiecesAreGood(r, segment, spans, technology, clauses);
    var x := LineOf(segment, spans, technology);
    texts := [];
    for k := 0 to |clauses|
      invariant texts == TextsOf(r, x, clauses, k)
      invariant forall j: nat :: j < k ==> HeldBySome(x, EssentialOf(r, x, clauses, j), texts)
      invariant forall j :: 0 <= j < |texts| ==> Exposes(r, x, texts[j])
    {
      var more := ClauseTexts(r, x, clauses, k);
      forall j: nat | j <= k ensures HeldBySome(x, EssentialOf(r, x, clauses, j), texts + more) {
        HeldByMore(x, EssentialOf(r, x, clauses, j), texts, more);
      }
      texts := texts + more;
    }
    forall k: nat | k < |clauses|
      ensures forall t :: MustReport(r, x.masked, clauses[k], RightOf(clauses, k), t) ==> InSome(x, t, texts)
    {
      EssentialInSome(r, x, clauses, k, texts);
    }
  }

  lemma HeldByMore(x: Line, words: seq<Span>, texts: seq<string>, more: seq<string>)
    requires HeldBySome(x, words, texts) || HeldBySome(x, words, more)
    ensures HeldBySome(x, words, texts + more)
  {
    hide Holds;
    if words != [] {
      if j: nat :| j < |texts| && Holds(x, words, texts[j]) {
        assert Holds(x, words, (texts + more)[j]);
      } else {
        var j: nat :| j < |more| && Holds(x, words, more[j]);
        assert Holds(x, words, (texts + more)[|texts| + j]);
      }
    }
  }

  // ---------------------------------------------------------------- the requirements of all lines

  /** A REQUIRED, UNKNOWN requirement of type OTHER; `evidence` are the lines it comes from. */
  datatype OtherRequirement = OtherRequirement(text: string, identity: string, evidence: seq<string>)

  /** How a line is read: the evaluated spans of it, and its technologies. */
  datatype Evaluation = Evaluation(spans: string -> seq<Span>, technology: string -> seq<Span>)

  ghost predicate GoodEvaluation(e: Evaluation) {
    forall s, k :: 0 <= k < |e.technology(s)| ==> e.technology(s)[k].start <= e.technology(s)[k].end <= |s|
  }

  function LineRead(e: Evaluation, segment: string): Line
    requires GoodEvaluation(e)
  {
    LineOf(segment, e.spans(segment), e.technology(segment))
  }

  /** Some requirement is about the words, and names the line as its evidence. */
  ghost predicate Reports(q: OtherRequirement, identity: string, segment: string) {
    Occurs(identity, q.identity) && segment in q.evidence
  }

  ghost predicate Reported(found: seq<OtherRequirement>, identity: string, segment: string) {
    exists j :: 0 <= j < |found| && Reports(found[j], identity, segment)
  }

  ghost predicate ReportedWhole(found: seq<OtherRequirement>, identity: string, segment: string) {
    exists j :: 0 <= j < |found| && found[j].identity == identity && segment in found[j].evidence
  }

  /** What a word of the line is compared by. */
  function WordIdentity(fold: char -> string, x: Line, word: Span): string {
    DropTrailing(Fold(fold, Slice(x.masked, word)))
  }

  /** Nothing of the line is lost: a line with no evaluated span is reported whole,
      of any other line every essential word of every clause is reported. */
  ghost predicate NothingLost(r: Reader, fold: char -> string, e: Evaluation, segment: string, found: seq<OtherRequirement>)
    requires Regular(r) && GoodEvaluation(e)
  {
    if e.spans(segment) == [] then ReportedWhole(found, Identity(fold, segment), segment)
    else WordsReported(r, fold, LineRead(e, segment), ClausesOf(r, e, segment), segment, found)
  }

  function ClausesOf(r: Reader, e: Evaluation, segment: string): seq<Clause>
    requires Regular(r)
  {
    PiecesOf(r, segment, e.spans(segment), e.technology(segment))
  }

  ghost predicate WordsReported(r: Reader, fold: char -> string, x: Line, pieces: seq<Clause>, segment: string,
                                found: seq<OtherRequirement>)
  {
    forall k: nat, i :: k < |pieces| && 0 <= i < |EssentialOf(r, x, pieces, k)| ==>
      Reported(found, WordIdentity(fold, x, EssentialOf(r, x, pieces, k)[i]), segment)
  }

  /** Requirements are only added, and evidence only grows. */
  ghost predicate Extends(before: seq<OtherRequirement>, after: seq<OtherRequirement>) {
    && |before| <= |after|
    && forall j :: 0 <= j < |before| ==>
         && after[j].identity == before[j].identity && after[j].text == before[j].text
         && forall s :: s in before[j].evidence ==> s in after[j].evidence
  }

  ghost predicate OnePerIdentity(fold: char -> string, found: seq<OtherRequirement>) {
    && (forall j :: 0 <= j < |found| ==> found[j].identity == Identity(fold, found[j].text))
    && (forall i, j :: 0 <= i < j < |found| ==> found[i].identity != found[j].identity)
  }

  /** The requirements after one more text of a line: a known identity gains the
      line as evidence, an unknown one becomes a new requirement. */
  function Merge(found: seq<OtherRequirement>, identity: string, text: string, segment: string): seq<OtherRequirement> {
    if found == [] then [OtherRequirement(text, identity, [segment])]
    else if found[0].identity != identity then [found[0]] + Merge(found[1..], identity, text, segment)
    else if segment in found[0].evidence then found
    else [found[0].(evidence := found[0].evidence + [segment])] + found[1..]
  }

  lemma {:induction false} MergeAt(found: seq<OtherRequirement>, identity: string, text: string, segment: string, j: nat)
    requires j <= |found| && forall i :: 0 <= i < j ==> found[i].identity != identity
    ensures Merge(found, identity, text, segment) == found[..j] + Merge(found[j..], identity, text, segment)
  {
    if j > 0 {
      MergeAt(found[1..], identity, text, segment, j - 1);
      assert found[1..][j - 1..] == found[j..];
      assert found[..j] == [found[0]] + found[1..][..j - 1];
    } else {
      assert found[0..] == found;
    }
  }

  lemma MergeHit(found: seq<OtherRequirement>, identity: string, text: string, segment: string, j: nat)
    requires j < |found| && found[j].identity == identity && forall i :: 0 <= i < j ==> found[i].identity != identity
    ensures Merge(found, identity, text, segment) ==
      if segment in found[j].evidence then found else found[j := found[j].(evidence := found[j].evidence + [segment])]
  {
    MergeAt(found, identity, text, segment, j);
    assert found[..j] + found[j..] == found;
  }

  lemma MergeMiss(found: seq<OtherRequirement>, identity: string, text: string, segment: string)
    requires forall i :: 0 <= i < |found| ==> found[i].identity != identity
    ensures Merge(found, identity, text, segment) == found + [OtherRequirement(text, identity, [segment])]
  {
    MergeAt(found, identity, text, segment, |found|);
    assert found[..|found|] == found;
  }

  /** One text of one line: a new requirement, or one more line of evidence for it. */
  method Report(fold: char -> string, found: seq<OtherRequirement>, text: string, segment: string)
    returns (after: seq<OtherRequirement>)
    requires OnePerIdentity(fold, found)
    ensures after == Merge(found, Identity(fold, text), text, segment)
    ensures OnePerIdentity(fold, after) && Extends(found, after)
    ensures ReportedWhole(after, Identity(fold, text), segment)
    ensures |after| <= |found| + 1
    ensures |after| == |found| + 1 ==> after[|found|] == OtherRequirement(text, Identity(fold, text), [segment])
  {
    hide Identity, Merge;
    var identity := Identity(fold, text);
    for j := 0 to |found|
      invariant forall i :: 0 <= i < j ==> found[i].identity != identity
    {
      if found[j].identity == identity {
        MergeHit(found, identity, text, segment, j);
        if segment in found[j].evidence {
          return found;
        }
        after := found[j := found[j].(evidence := found[j].evidence + [segment])];
        assert segment in after[j].evidence;
        return;
      }
    }
    MergeMiss(found, identity, text, segment);
    after := found + [OtherRequirement(text, identity, [segment])];
    assert after[|found|].identity == identity && segment in after[|found|].evidence;
  }

  lemma WholeStays(before: seq<OtherRequirement>, after: seq<OtherRequirement>, identity: string, segment: string)
    requires Extends(before, after) && ReportedWhole(before, identity, segment)
    ensures ReportedWhole(after, identity, segment)
  {
    var j :| 0 <= j < |before| && before[j].identity == identity && segment in before[j].evidence;
    assert after[j].identity == identity && segment in after[j].evidence;
  }

  lemma ReportedStays(before: seq<OtherRequirement>, after: seq<OtherRequirement>, identity: string, segment: string)
    requires Extends(before, after) && Reported(before, identity, segment)
    ensures Reported(after, identity, segment)
  {
    hide Occurs;
    var j :| 0 <= j < |before| && Reports(before[j], identity, segment);
    assert Reports(after[j], identity, segment);
  }

  lemma ExtendsTwice(a: seq<OtherRequirement>, b: seq<OtherRequirement>, c: seq<OtherRequirement>)
    requires Extends(a, b) && Extends(b, c)
    ensures Extends(a, c)
  {
  }

  lemma NothingLostStays(r: Reader, fold: char -> string, e: Evaluation, segment: string, before: seq<OtherRequirement>,
                         after: seq<OtherRequirement>)
    requires Regular(r) && GoodEvaluation(e) && Extends(before, after) && NothingLost(r, fold, e, segment, before)
    ensures NothingLost(r, fold, e, segment, after)
  {
    hide Regular, GoodEvaluation, Extends, Reported, ReportedWhole, LineRead, ClausesOf, EssentialOf, Identity, WordIdentity;
    if e.spans(segment) == [] {
      WholeStays(before, after, Identity(fold, segment), segment);
    } else {
      var x, pieces := LineRead(e, segment), ClausesOf(r, e, segment);
      forall k: nat, i | k < |pieces| && 0 <= i < |EssentialOf(r, x, pieces, k)|
        ensures Reported(after, WordIdentity(fold, x, EssentialOf(r, x, pieces, k)[i]), segment)
      {
        ReportedStays(before, after, WordIdentity(fold, x, EssentialOf(r, x, pieces, k)[i]), segment);
      }
    }
  }

  lemma WordReported(fold: char -> string, x: Line, word: Span, text: string, segment: string, found: seq<OtherRequirement>)
    requires FoldsWords(fold) && IsWord(x.masked, word) && Occurs(Slice(x.masked, word), text)
    requires ReportedWhole(found, Identity(fold, text), segment)
    ensures Reported(found, WordIdentity(fold, x, word), segment)
  {
    hide Identity, IsSpace, Fold, DropTrailing, FoldsWords, Occurs;
    assert NoSpaces(Slice(x.masked, word));
    WordInIdentity(fold, Slice(x.masked, word), text);
    var j :| 0 <= j < |found| && found[j].identity == Identity(fold, text) && segment in found[j].evidence;
    assert Reports(found[j], WordIdentity(fold, x, word), segment);
  }

  lemma EssentialAreWords(r: Reader, x: Line, pieces: seq<Clause>, k: nat, i: nat)
    requires GoodPieces(x, pieces) && k < |pieces| && i < |EssentialOf(r, x, pieces, k)|
    ensures IsWord(x.masked, EssentialOf(r, x, pieces, k)[i])
  {
    hide Kept, IsWord, SharesRight, LeftShared, HasHead;
    var clause := pieces[k];
    KeptInClause(r, x, clause);
    var word := EssentialOf(r, x, pieces, k)[i];
    assert word in clause.tokens;
  }

  lemma ClauseReported(r: Reader, fold: char -> string, x: Line, pieces: seq<Clause>, k: nat, texts: seq<string>,
                       segment: string, found: seq<OtherRequirement>)
    requires FoldsWords(fold) && GoodPieces(x, pieces) && k < |pieces|
    requires HeldBySome(x, EssentialOf(r, x, pieces, k), texts)
    requires forall j :: 0 <= j < |texts| ==> ReportedWhole(found, Identity(fold, texts[j]), segment)
    ensures forall i :: 0 <= i < |EssentialOf(r, x, pieces, k)| ==>
      Reported(found, WordIdentity(fold, x, EssentialOf(r, x, pieces, k)[i]), segment)
  {
    hide EssentialOf, GoodPieces, FoldsWords, Identity, WordIdentity, Occurs, Reported, ReportedWhole, IsWord;
    var words := EssentialOf(r, x, pieces, k);
    forall i: nat | i < |words| ensures Reported(found, WordIdentity(fold, x, words[i]), segment) {
      EssentialAreWords(r, x, pieces, k, i);
      var j :| 0 <= j < |texts| && Holds(x, words, texts[j]);
      WordReported(fold, x, words[i], texts[j], segment, found);
    }
  }

  /** Of every clause, every word that must be reported is in a requirement naming the line. */
  ghost predicate WordsInClauses(r: Reader, fold: char -> string, e: Evaluation, segment: string,
                                    found: seq<OtherRequirement>)
    requires Regular(r) && GoodEvaluation(e)
  {
    var x, pieces := LineRead(e, segment), ClausesOf(r, e, segment);
    forall k: nat, t :: k < |pieces| && MustReport(r, x.masked, pieces[k], RightOf(pieces, k), t) ==>
      Reported(found, WordIdentity(fold, x, t), segment)
  }

  /** The word of the masked line: material, and no counting boundary reaches into it.
      Of a line without evaluated span any word is. */
  predicate MustShow(r: Reader, e: Evaluation, segment: string, t: Span)
    requires GoodEvaluation(e)
  {
    var masked := LineRead(e, segment).masked;
    && t in r.tokens(masked, 0, |segment|)
    && (e.spans(segment) == []
        || (r.isMaterial(Slice(masked, t)) && ClearOf(Counting(segment, r.boundaries(masked)), t.start, t.end)))
  }

  /** Every such word of the masked line is in a requirement naming the line. */
  ghost predicate MaterialInLine(r: Reader, fold: char -> string, e: Evaluation, segment: string,
                                 found: seq<OtherRequirement>)
    requires GoodEvaluation(e)
  {
    forall t :: MustShow(r, e, segment, t) ==> Reported(found, WordIdentity(fold, LineRead(e, segment), t), segment)
  }

  lemma WholeLineReported(r: Reader, fold: char -> string, e: Evaluation, segment: string, found: seq<OtherRequirement>,
                          t: Span)
    requires Regular(r) && FoldsWords(fold) && GoodEvaluation(e) && e.spans(segment) == []
    requires ReportedWhole(found, Identity(fold, segment), segment) && t in r.tokens(segment, 0, |segment|)
    ensures Reported(found, WordIdentity(fold, LineRead(e, segment), t), segment)
  {
    hide FoldsWords, Identity, Fold, WordIdentity, Reported, ReportedWhole, IsSpace;
    var x := LineRead(e, segment);
    assert x.masked == segment;
    assert GoodTokens(segment, 0, |segment|, r.tokens(segment, 0, |segment|));
    assert IsWord(segment, t);
    assert OccursAt(Slice(segment, t), segment, t.start);
    WordReported(fold, x, t, segment, segment, found);
  }

  lemma ClausesReported(r: Reader, fold: char -> string, e: Evaluation, segment: string, found: seq<OtherRequirement>)
    requires Regular(r) && GoodEvaluation(e) && e.spans(segment) != [] && NothingLost(r, fold, e, segment, found)
    ensures WordsInClauses(r, fold, e, segment, found)
  {
    hide Regular, GoodEvaluation, EssentialOf, WordIdentity, Reported, LineRead, ClausesOf, MustReport;
    var x, pieces := LineRead(e, segment), ClausesOf(r, e, segment);
    forall k: nat, t | k < |pieces| && MustReport(r, x.masked, pieces[k], RightOf(pieces, k), t)
      ensures Reported(found, WordIdentity(fold, x, t), segment)
    {
      EssentialMeaning(r, x, pieces, k, t);
      var j :| 0 <= j < |EssentialOf(r, x, pieces, k)| && EssentialOf(r, x, pieces, k)[j] == t;
    }
  }

  lemma MaterialMustReport(r: Reader, x: Line, pieces: seq<Clause>, k: nat, t: Span)
    requires k < |pieces| && t in pieces[k].tokens && r.isMaterial(Slice(x.masked, t))
    ensures MustReport(r, x.masked, pieces[k], RightOf(pieces, k), t)
  {
    hide Slice, Words, NothingKept, Independent;
    var i: nat :| i < |pieces[k].tokens| && pieces[k].tokens[i] == t;
    assert KeptAt(r, x.masked, pieces[k], i);
  }

  /** If nothing of a line is lost, every material word of its masked text that no
      counting boundary reaches into is in a requirement naming it. */
  lemma NothingMaterialLost(r: Reader, fold: char -> string, e: Evaluation, segment: string, found: seq<OtherRequirement>)
    requires Regular(r) && FoldsWords(fold) && GoodEvaluation(e) && NothingLost(r, fold, e, segment, found)
    ensures e.spans(segment) != [] ==> WordsInClauses(r, fold, e, segment, found)
    ensures Tokenwise(r) ==> MaterialInLine(r, fold, e, segment, found)
  {
    hide Regular, FoldsWords, GoodEvaluation, Tokenwise, Reported, ReportedWhole, WordIdentity, Identity, ClearOf, Counting,
      PiecesOf, WordsReported;
    var spans, x := e.spans(segment), LineRead(e, segment);
    if spans != [] {
      ClausesReported(r, fold, e, segment, found);
    }
    if Tokenwise(r) {
      forall t | MustShow(r, e, segment, t) ensures Reported(found, WordIdentity(fold, x, t), segment) {
        if spans == [] {
          assert x.masked == segment;
          WholeLineReported(r, fold, e, segment, found, t);
        } else {
          TokenInClause(r, segment, spans, e.technology(segment), t);
          var pieces := ClausesOf(r, e, segment);
          var k: nat :| k < |pieces| && t in pieces[k].tokens;
          MaterialMustReport(r, x, pieces, k, t);
        }
      }
    }
  }

  /** Where the text of a requirement comes from: a whole line without evaluated
      spans, or the display of a line. */
  ghost predicate ComesFrom(r: Reader, e: Evaluation, segment: string, text: string)
    requires GoodEvaluation(e)
  {
    (e.spans(segment) == [] && text == segment) || Exposes(r, LineRead(e, segment), text)
  }

  /** All requirements added since `n` come from the line, and name it. */
  ghost predicate AddedFrom(r: Reader, e: Evaluation, segment: string, found: seq<OtherRequirement>, n: nat)
    requires GoodEvaluation(e)
  {
    forall j :: n <= j < |found| ==> ComesFrom(r, e, segment, found[j].text) && segment in found[j].evidence
  }

  /** The texts one line is reported with: its residual ones, or the whole line
      when no typed requirement evaluated any of it. */
  function TextsOfLine(r: Reader, e: Evaluation, segment: string): seq<string>
    requires Regular(r) && GoodEvaluation(e)
  {
    if e.spans(segment) == [] then [segment] else ResidualOf(r, segment, e.spans(segment), e.technology(segment))
  }

  function MergeAll(fold: char -> string, found: seq<OtherRequirement>, texts: seq<string>, segment: string, n: nat)
    : seq<OtherRequirement>
    requires n <= |texts|
  {
    if n == 0 then found
    else Merge(MergeAll(fold, found, texts, segment, n - 1), Identity(fold, texts[n - 1]), texts[n - 1], segment)
  }

  /** One line of a required section. */
  method ReportLine(r: Reader, fold: char -> string, e: Evaluation, segment: string, found: seq<OtherRequirement>)
    returns (after: seq<OtherRequirement>)
    requires Regular(r) && FoldsWords(fold) && GoodEvaluation(e) && OnePerIdentity(fold, found)
    ensures var texts := TextsOfLine(r, e, segment);
      after == MergeAll(fold, found, texts, segment, |texts|)
    ensures OnePerIdentity(fold, after) && Extends(found, after) && NothingLost(r, fold, e, segment, after)
    ensures AddedFrom(r, e, segment, after, |found|)
  {
    hide Regular, FoldsWords, OnePerIdentity, ReportedWhole, Identity, PiecesOf, HeldBySome, EssentialOf, Exposes, LineOf,
      WordsReported, Merge, ResidualOf;
    var spans := e.spans(segment);
    if spans == [] {
      after := Report(fold, found, segment, segment);
      assert MergeAll(fold, found, [segment], segment, 0) == found;
      return;
    }
    var texts := ResidualClauses(r, segment, spans, e.technology(segment));
    after := found;
    for k := 0 to |texts|
      invariant after == MergeAll(fold, found, texts, segment, k)
      invariant OnePerIdentity(fold, after) && Extends(found, after) && AddedFrom(r, e, segment, after, |found|)
      invariant forall j :: 0 <= j < k ==> ReportedWhole(after, Identity(fold, texts[j]), segment)
    {
      var more := Report(fold, after, texts[k], segment);
      forall j | 0 <= j < k ensures ReportedWhole(more, Identity(fold, texts[j]), segment) {
        WholeStays(after, more, Identity(fold, texts[j]), segment);
      }
      ExtendsTwice(found, after, more);
      StillAdded(r, e, segment, after, more, |found|, texts[k]);
      after := more;
    }
    LineReported(r, fold, e, segment, texts, after);
  }

  lemma StillAdded(r: Reader, e: Evaluation, segment: string, before: seq<OtherRequirement>, after: seq<OtherRequirement>,
                   n: nat, text: string)
    requires GoodEvaluation(e) && AddedFrom(r, e, segment, before, n) && Extends(before, after)
    requires |after| <= |before| + 1
    requires |after| == |before| + 1 ==> after[|before|].text == text && segment in after[|before|].evidence
    requires ComesFrom(r, e, segment, text)
    ensures AddedFrom(r, e, segment, after, n)
  {
    hide ComesFrom, GoodEvaluation;
  }

  lemma LineReported(r: Reader, fold: char -> string, e: Evaluation, segment: string, texts: seq<string>,
                     found: seq<OtherRequirement>)
    requires Regular(r) && FoldsWords(fold) && GoodEvaluation(e) && e.spans(segment) != []
    requires forall k: nat :: k < |ClausesOf(r, e, segment)| ==>
      HeldBySome(LineRead(e, segment), EssentialOf(r, LineRead(e, segment), ClausesOf(r, e, segment), k), texts)
    requires forall j :: 0 <= j < |texts| ==> ReportedWhole(found, Identity(fold, texts[j]), segment)
    ensures NothingLost(r, fold, e, segment, found)
  {
    hide Regular, FoldsWords, ReportedWhole, Identity, PiecesOf, IsPieces, HeldBySome, EssentialOf, LineOf, Reported,
      WordIdentity, GoodPieces;
    var x, pieces := LineRead(e, segment), ClausesOf(r, e, segment);
    PiecesAreGood(r, segment, e.spans(segment), e.technology(segment), pieces);
    forall k: nat | k < |pieces|
      ensures forall i :: 0 <= i < |EssentialOf(r, x, pieces, k)| ==>
        Reported(found, WordIdentity(fold, x, EssentialOf(r, x, pieces, k)[i]), segment)
    {
      ClauseReported(r, fold, x, pieces, k, texts, segment, found);
    }
    assert WordsReported(r, fold, x, pieces, segment, found);
  }

  /** The text comes from one of the first `n` lines, which is named. */
  ghost predicate ComesFromSome(r: Reader, e: Evaluation, segments: seq<string>, n: nat, q: OtherRequirement)
    requires GoodEvaluation(e) && n <= |segments|
  {
    exists k :: 0 <= k < n && ComesFrom(r, e, segments[k], q.text) && segments[k] in q.evidence
  }

  /** The text shows nothing but letters its line may show, in their order; the line is named. */
  ghost predicate ShowsSome(r: Reader, e: Evaluation, segments: seq<string>, q: OtherRequirement) {
    exists k :: 0 <= k < |segments| && segments[k] in q.evidence && ShowsOnly(r, e, segments[k], q.text)
  }

  /** The requirements of the first `n` lines. */
  function UnevaluatedOf(r: Reader, fold: char -> string, e: Evaluation, segments: seq<string>, n: nat): seq<OtherRequirement>
    requires Regular(r) && GoodEvaluation(e) && n <= |segments|
  {
    if n == 0 then []
    else
      var texts := TextsOfLine(r, e, segments[n - 1]);
      MergeAll(fold, UnevaluatedOf(r, fold, e, segments, n - 1), texts, segments[n - 1], |texts|)
  }

  /** `_unevaluated_requirements`: a line no span evaluates is reported whole, of any
      other line every word that must be reported is;
      requirements have distinct identities, and each text shows, in order, nothing but
      letters its line may show. */
  method Unevaluated(r: Reader, fold: char -> string, e: Evaluation, segments: seq<string>)
    returns (found: seq<OtherRequirement>)
    requires Regular(r) && FoldsWords(fold) && GoodEvaluation(e)
    ensures found == UnevaluatedOf(r, fold, e, segments, |segments|)
    ensures OnePerIdentity(fold, found)
    ensures forall k :: 0 <= k < |segments| ==> NothingLost(r, fold, e, segments[k], found)
    ensures forall k :: 0 <= k < |segments| && e.spans(segments[k]) != [] ==>
      WordsInClauses(r, fold, e, segments[k], found)
    ensures Tokenwise(r) ==> forall k :: 0 <= k < |segments| ==> MaterialInLine(r, fold, e, segments[k], found)
    ensures forall j :: 0 <= j < |found| ==> ComesFromSome(r, e, segments, |segments|, found[j])
    ensures forall j :: 0 <= j < |found| ==> ShowsSome(r, e, segments, found[j])
  {
    hide Regular, FoldsWords, GoodEvaluation, OnePerIdentity, NothingLost, ComesFrom, MergeAll, TextsOfLine,
      WordsInClauses, MaterialInLine, Tokenwise, ShowsOnly;
    found := [];
    NoneYet(fold);
    for k := 0 to |segments|
      invariant found == UnevaluatedOf(r, fold, e, segments, k)
      invariant OnePerIdentity(fold, found)
      invariant forall i :: 0 <= i < k ==> NothingLost(r, fold, e, segments[i], found)
      invariant forall j :: 0 <= j < |found| ==> ComesFromSome(r, e, segments, k, found[j])
    {
      var after := ReportLine(r, fold, e, segments[k], found);
      forall i | 0 <= i < k ensures NothingLost(r, fold, e, segments[i], after) {
        NothingLostStays(r, fold, e, segments[i], found, after);
      }
      forall j | 0 <= j < |after| ensures ComesFromSome(r, e, segments, k + 1, after[j]) {
        if j < |found| {
          assert ComesFromSome(r, e, segments, k, found[j]);
        } else {
          assert ComesFrom(r, e, segments[k], after[j].text);
        }
      }
      found := after;
    }
    forall k | 0 <= k < |segments|
      ensures e.spans(segments[k]) != [] ==> WordsInClauses(r, fold, e, segments[k], found)
      ensures Tokenwise(r) ==> MaterialInLine(r, fold, e, segments[k], found)
    {
      NothingMaterialLost(r, fold, e, segments[k], found);
    }
    forall j | 0 <= j < |found| ensures ShowsSome(r, e, segments, found[j]) {
      var k :| 0 <= k < |segments| && ComesFrom(r, e, segments[k], found[j].text) && segments[k] in found[j].evidence;
      ShowsNothingElse(r, e, segments[k], found[j].text);
    }
  }

  lemma NoneYet(fold: char -> string)
    ensures OnePerIdentity(fold, [])
  {
  }

  // ---------------------------------------------------------------- what a text can expose

  /** The character is a parenthesis around evaluated text. */
  ghost predicate AroundEvaluated(r: Reader, segment: string, spans: seq<Span>, i: nat) {
    exists p: Span :: HoldsEvaluated(r, segment, spans, p) && (i == p.start || i == p.end)
  }

  ghost predicate MayShow(r: Reader, segment: string, spans: seq<Span>, technology: seq<Span>, i: nat) {
    !Inside(spans, i) || Inside(technology, i) || AroundEvaluated(r, segment, spans, i)
  }

  lemma ParenthesisAround(r: Reader, segment: string, spans: seq<Span>, technology: seq<Span>, i: nat)
    requires SpansIn(segment, technology) && ParenthesisAt(r, LineOf(segment, spans, technology), i)
    ensures AroundEvaluated(r, segment, spans, i)
  {
    hide EvaluatedParenthesis, HoldsEvaluated, LineOf;
    var p: Span :| EvaluatedParenthesis(r, LineOf(segment, spans, technology), p) && (i == p.start || i == p.end);
    ParenthesisHoldsEvaluated(r, segment, spans, technology, p);
  }

  /** The places of a line a residual text may show. */
  ghost function Showable(r: Reader, segment: string, spans: seq<Span>, technology: seq<Span>): iset<nat> {
    iset i: nat | MayShow(r, segment, spans, technology, i)
  }

  /** The letters of a residual text stand in its line in the same order, each at its own
      place: one no typed requirement evaluated, one of an evaluated technology, or
      a parenthesis that holds nothing but evaluated text and list separators. */
  lemma ExposesNothingElse(r: Reader, segment: string, spans: seq<Span>, technology: seq<Span>, text: string)
    requires SpansIn(segment, technology) && Exposes(r, LineOf(segment, spans, technology), text)
    ensures Spells(segment, text, Showable(r, segment, spans, technology))
  {
    hide IsSpace, Collapse, ParenthesisAt, AroundEvaluated, Inside, Spells;
    var x := LineOf(segment, spans, technology);
    var display, from: nat, to: nat :| ShownAs(r, x, text, display, from, to);
    SpaceIsSpace();
    forall i: nat | from <= i < to && !IsSpace(display[i])
      ensures display[i] == segment[i] && MayShow(r, segment, spans, technology, i)
    {
      if ParenthesisAt(r, x, i) {
        ParenthesisAround(r, segment, spans, technology, i);
      }
    }
    DisplaySpells(segment, display, from, to, Showable(r, segment, spans, technology));
  }

  ghost predicate ShowsOnly(r: Reader, e: Evaluation, segment: string, text: string) {
    Spells(segment, text, Showable(r, segment, e.spans(segment), e.technology(segment)))
  }

  lemma ShowsNothingElse(r: Reader, e: Evaluation, segment: string, text: string)
    requires GoodEvaluation(e) && ComesFrom(r, e, segment, text)
    ensures ShowsOnly(r, e, segment, text)
  {
    hide Exposes, SpelledAt, Letters, AroundEvaluated;
    var spans, technology := e.spans(segment), e.technology(segment);
    if Exposes(r, LineRead(e, segment), text) {
      ExposesNothingElse(r, segment, spans, technology, text);
    } else {
      var at := SpelledStretch(segment, 0, segment, Showable(r, segment, spans, technology));
    }
  }
}
