/** The parentheses `_clause_text` of `app/agents/candidate_job_matcher.py` takes over
    behind an experience phrase: when they hold nothing but technologies, and what a
    text shows of them when they do not. */
module ShownParentheses {
  import opened PythonText
  import opened RequiredText
  import opened ResidualText
  import opened SubjectRestoration
  import opened Wrappers

  // ---------------------------------------------------------------- which parentheses are taken over

  /** The parenthesis taken over behind a head, when the text reached `to` before. */
  function PairAfter(r: Reader, x: Line, to: nat, head: Span, hi: nat): (pair: Option<Span>)
    requires GoodLine(x)
    ensures pair.Some? ==> EvaluatedParenthesis(r, x, pair.value) && to <= pair.value.start
  {
    var last := LastTrailing(x.technology, head.end, hi);
    if last == 0 then None else ParenthesisAfter(r, x, if to < last then last else to)
  }

  function Listed(pair: Option<Span>): seq<Span> {
    if pair.Some? then [pair.value] else []
  }

  /** The parentheses taken over for the first `k` qualified words. */
  function Pairs(r: Reader, x: Line, qualified: seq<Span>, k: nat, lo: nat, hi: nat, v: View): (pairs: seq<Span>)
    requires GoodLine(x) && GoodView(x, v) && k <= |qualified| && Ascending(qualified, lo, hi) && hi <= |x.segment|
    ensures forall j :: 0 <= j < |pairs| ==> EvaluatedParenthesis(r, x, pairs[j])
  {
    if k == 0 then []
    else
      var before := WithWords(r, x, qualified, k - 1, lo, hi, v);
      var pair :=
        if HeadAt(r, x, qualified, k - 1) then PairAfter(r, x, before.to, qualified[k - 1], hi) else None;
      Pairs(r, x, qualified, k - 1, lo, hi, v) + Listed(pair)
  }

  function PairsOfView(r: Reader, x: Line, clause: Clause, kept: seq<Span>): (pairs: seq<Span>)
    requires GoodLine(x) && kept != [] && GoodClause(x, clause) && Ascending(kept, clause.start, clause.end)
    ensures forall j :: 0 <= j < |pairs| ==> EvaluatedParenthesis(r, x, pairs[j])
  {
    KeptInClause(r, x, clause);
    var qualified := Qualified(r, x.masked, clause);
    Pairs(r, x, qualified, |qualified|, clause.start, clause.end, View(x.masked, kept[0].start, kept[|kept| - 1].end))
  }

  /** The parentheses the text of a clause takes over. */
  function PairsOfClause(r: Reader, x: Line, pieces: seq<Clause>, k: nat): (pairs: seq<Span>)
    requires GoodLine(x) && GoodPieces(x, pieces) && k < |pieces|
    ensures forall j :: 0 <= j < |pairs| ==> EvaluatedParenthesis(r, x, pairs[j])
  {
    var clause := pieces[k];
    KeptInClause(r, x, clause);
    HeadMeansWords(r, x.masked, clause);
    match FateOf(r, x, LeftOf(pieces, k), clause, RightOf(pieces, k))
    case KeptWords => PairsOfView(r, x, clause, Kept(r, x.masked, clause))
    case Whole => PairsOfView(r, x, clause, clause.tokens)
    case _ => []
  }

  // ---------------------------------------------------------------- what the display shows of them

  predicate EndOf(pairs: seq<Span>, i: nat) {
    exists j :: 0 <= j < |pairs| && (i == pairs[j].start || i == pairs[j].end)
  }

  /** Only white space, technologies and the ends of the pairs appear. */
  predicate Grows(x: Line, pairs: seq<Span>, before: string, after: string)
    requires GoodLine(x)
  {
    && |before| == |after| == |x.segment|
    && forall i: nat :: i < |after| ==>
         after[i] == before[i]
         || (after[i] == x.segment[i] && (IsSpace(x.segment[i]) || Inside(x.technology, i) || EndOf(pairs, i)))
  }

  /** Both parentheses, and the technologies and white space between them, are shown. */
  predicate PairShown(x: Line, v: View, from: nat, p: Span)
    requires GoodLine(x) && GoodView(x, v)
  {
    && from <= p.start < p.end < v.to
    && v.display[p.start] == x.segment[p.start] && v.display[p.end] == x.segment[p.end]
    && forall i: nat :: p.start < i < p.end && (IsSpace(x.segment[i]) || Inside(x.technology, i)) ==>
         v.display[i] == x.segment[i]
  }

  predicate PairsShown(x: Line, v: View, from: nat, pairs: seq<Span>)
    requires GoodLine(x) && GoodView(x, v)
  {
    forall j :: 0 <= j < |pairs| ==> PairShown(x, v, from, pairs[j])
  }

  lemma GrowsOn(x: Line, p: seq<Span>, q: seq<Span>, a: string, b: string, c: string)
    requires GoodLine(x) && Grows(x, p, a, b) && Grows(x, q, b, c)
    ensures Grows(x, p + q, a, c)
  {
    hide IsSpace, Inside, GoodLine;
    forall i: nat ensures EndOf(p, i) || EndOf(q, i) ==> EndOf(p + q, i) {
      if EndOf(p, i) {
        var j :| 0 <= j < |p| && (i == p[j].start || i == p[j].end);
        assert (p + q)[j] == p[j];
      } else if EndOf(q, i) {
        var j :| 0 <= j < |q| && (i == q[j].start || i == q[j].end);
        assert (p + q)[|p| + j] == q[j];
      }
    }
  }

  lemma PairStays(x: Line, before: View, after: View, from: nat, p: Span, q: seq<Span>)
    requires GoodLine(x) && GoodView(x, before) && GoodView(x, after) && before.to <= after.to
    requires PairShown(x, before, from, p) && Grows(x, q, before.display, after.display)
    ensures PairShown(x, after, from, p)
  {
    hide IsSpace, Inside, EndOf;
  }

  lemma {:induction false} LeadingGrows(r: Reader, x: Line, display: string, lo: nat, now: Reach)
    requires GoodLine(x) && |display| == |x.segment| && lo <= now.start <= |x.segment|
    ensures Grows(x, [], display, WithLeading(r, x, display, lo, now))
    decreases now.start
  {
    hide IsSpace, Inside, StepBack, GoodLine;
    var next := StepBack(r, x, lo, now);
    if next.Some? {
      var further := Restored(x, display, next.value.start, now.start);
      LeadingGrows(r, x, further, lo, next.value);
      assert Grows(x, [], display, further);
      GrowsOn(x, [], [], display, further, WithLeading(r, x, further, lo, next.value));
    }
  }

  lemma PairGrows(x: Line, display: string, pair: Span)
    requires GoodLine(x) && |display| == |x.segment| && pair.start < pair.end < |x.segment|
    ensures Grows(x, [pair], display, WithPair(x, display, pair))
  {
    hide IsSpace, Inside;
    assert [pair][0] == pair;
  }

  lemma TrailingGrows(r: Reader, x: Line, v: View, head: Span, hi: nat)
    requires GoodLine(x) && GoodView(x, v)
    ensures var after, pairs := WithTrailing(r, x, v, head, hi), Listed(PairAfter(r, x, v.to, head, hi));
      Grows(x, pairs, v.display, after.display) && PairsShown(x, after, v.to, pairs)
  {
    hide IsSpace, Inside, GoodLine, EvaluatedParenthesis, LastTrailing, WithPair;
    var last := LastTrailing(x.technology, head.end, hi);
    if last != 0 {
      var shown := Restored(x, v.display, head.end, last);
      assert Grows(x, [], v.display, shown);
      var reached := View(shown, v.from, if v.to < last then last else v.to);
      var pair := ParenthesisAfter(r, x, reached.to);
      if pair.Some? {
        PairBounds(r, x, pair.value);
        PairGrows(x, shown, pair.value);
        GrowsOn(x, [], [pair.value], v.display, shown, WithPair(x, shown, pair.value));
        assert [] + [pair.value] == [pair.value];
        PairAppears(x, reached, pair.value);
      }
    }
  }

  lemma PairBounds(r: Reader, x: Line, p: Span)
    requires GoodLine(x) && EvaluatedParenthesis(r, x, p)
    ensures p.start < p.end < |x.segment|
  {
  }

  lemma PairAppears(x: Line, v: View, pair: Span)
    requires GoodLine(x) && GoodView(x, v) && v.to <= pair.start < pair.end < |x.segment|
    ensures PairShown(x, View(WithPair(x, v.display, pair), v.from, pair.end + 1), v.to, pair)
  {
    hide IsSpace, Inside;
  }

  lemma SubjectGrows(r: Reader, x: Line, v: View, lo: nat, hi: nat, group: nat, head: Span)
    requires GoodLine(x) && GoodView(x, v) && lo <= group <= |x.segment|
    ensures var after, pairs := WithSubject(r, x, v, lo, hi, group, head), Listed(PairAfter(r, x, v.to, head, hi));
      Grows(x, pairs, v.display, after.display) && PairsShown(x, after, v.to, pairs)
  {
    hide IsSpace, Inside, GoodLine, PairAfter, WithTrailing, WithLeading, PhraseStart, PairShown, EndOf;
    var pairs := Listed(PairAfter(r, x, v.to, head, hi));
    var ahead := v.(display := Restored(x, v.display, group, head.start));
    assert Grows(x, [], v.display, ahead.display);
    TrailingGrows(r, x, ahead, head, hi);
    var trailing := WithTrailing(r, x, ahead, head, hi);
    GrowsOn(x, [], pairs, v.display, ahead.display, trailing.display);
    LeadingGrows(r, x, trailing.display, lo, Reach(group, false));
    var after := WithSubject(r, x, v, lo, hi, group, head);
    GrowsOn(x, [] + pairs, [], v.display, trailing.display, after.display);
    assert [] + pairs + [] == pairs;
    forall j | 0 <= j < |pairs| ensures PairShown(x, after, v.to, pairs[j]) {
      PairStays(x, trailing, after, v.to, pairs[j], []);
    }
  }

  /** After `k` qualified words the display shows exactly the parentheses taken over
      for them, and beside these only white space and technologies are new. */
  lemma {:induction false} WordsGrow(r: Reader, x: Line, qualified: seq<Span>, k: nat, lo: nat, hi: nat, v: View)
    requires GoodLine(x) && GoodView(x, v) && k <= |qualified| && Ascending(qualified, lo, hi) && hi <= |x.segment|
    ensures var after, pairs := WithWords(r, x, qualified, k, lo, hi, v), Pairs(r, x, qualified, k, lo, hi, v);
      Grows(x, pairs, v.display, after.display) && PairsShown(x, after, v.from, pairs)
  {
    hide IsSpace, Inside, GoodLine, Ascending, PairAfter, HeadAt, WithSubject, PairShown, EndOf, GroupStart;
    if k > 0 {
      WordsGrow(r, x, qualified, k - 1, lo, hi, v);
      var before, pairs := WithWords(r, x, qualified, k - 1, lo, hi, v), Pairs(r, x, qualified, k - 1, lo, hi, v);
      if HeadAt(r, x, qualified, k - 1) {
        GroupStartInClause(r, x, qualified, k - 1, lo, hi);
        var group := GroupStart(r, x, qualified, k - 1);
        TokenBounds(qualified, k - 1, lo, hi);
        SubjectGrows(r, x, before, lo, hi, group, qualified[k - 1]);
        var more := Listed(PairAfter(r, x, before.to, qualified[k - 1], hi));
        var after := WithWords(r, x, qualified, k, lo, hi, v);
        GrowsOn(x, pairs, more, v.display, before.display, after.display);
        forall j | 0 <= j < |pairs + more| ensures PairShown(x, after, v.from, (pairs + more)[j]) {
          if j < |pairs| {
            PairStays(x, before, after, v.from, pairs[j], more);
          } else {
            PairFrom(x, after, before.to, v.from, more[j - |pairs|]);
          }
        }
      } else {
        assert pairs + [] == pairs;
      }
    }
  }

  lemma PairFrom(x: Line, v: View, from: nat, from2: nat, p: Span)
    requires GoodLine(x) && GoodView(x, v) && PairShown(x, v, from, p) && from2 <= from
    ensures PairShown(x, v, from2, p)
  {
  }

  // ---------------------------------------------------------------- the texts of one line

  predicate NoParenthesis(text: string, lo: nat, hi: nat) {
    forall i: nat :: lo <= i < hi && i < |text| ==> text[i] != '(' && text[i] != ')'
  }

  /** The pattern finds parentheses without parentheses in them. */
  ghost predicate Unnested(r: Reader) {
    forall text, end: nat ::
      r.parenthetical(text, end).Some? ==>
        NoParenthesis(text, r.parenthetical(text, end).value.start, r.parenthetical(text, end).value.end)
  }

  /** Nothing visible in the parenthesis was evaluated but technologies. */
  predicate OnlyTechnologies(segment: string, spans: seq<Span>, technology: seq<Span>, p: Span) {
    forall i: nat :: p.start < i < p.end && i < |segment| && Inside(spans, i) ==>
      Inside(technology, i) || IsSpace(segment[i])
  }

  lemma {:induction false} PairsUnnested(r: Reader, x: Line, qualified: seq<Span>, k: nat, lo: nat, hi: nat, v: View, j: nat)
    requires GoodLine(x) && GoodView(x, v) && k <= |qualified| && Ascending(qualified, lo, hi) && hi <= |x.segment|
    requires Unnested(r) && j < |Pairs(r, x, qualified, k, lo, hi, v)|
    ensures var p := Pairs(r, x, qualified, k, lo, hi, v)[j]; NoParenthesis(x.segment, p.start + 1, p.end)
  {
    hide IsSpace, Inside, GoodLine, Ascending, HeadAt, WithSubject, EvaluatedParenthesis, LastTrailing;
    if j < |Pairs(r, x, qualified, k - 1, lo, hi, v)| {
      PairsUnnested(r, x, qualified, k - 1, lo, hi, v, j);
    }
  }

  /** The clause's view shows its parentheses, all of them unnested, and beside their
      ends only white space and technologies are new in it. */
  lemma ClausePairs(r: Reader, x: Line, pieces: seq<Clause>, k: nat)
    requires GoodLine(x) && GoodPieces(x, pieces) && k < |pieces| && Unnested(r)
    requires ViewOfClause(r, x, pieces, k).Some?
    ensures var view, pairs := ViewOfClause(r, x, pieces, k).value, PairsOfClause(r, x, pieces, k);
      && Grows(x, pairs, x.masked, view.display) && PairsShown(x, view, view.from, pairs)
      && forall j :: 0 <= j < |pairs| ==> NoParenthesis(x.segment, pairs[j].start + 1, pairs[j].end)
  {
    hide IsSpace, Inside, GoodLine, Ascending, GoodPieces, GoodClause, Pairs, Kept, Qualified, WithWords, PairShown, EndOf,
      EvaluatedParenthesis, NoParenthesis, Unnested, HasHead, HasExperienceHead, LeftShared;
    var clause := pieces[k];
    PieceIsGood(x, pieces, k);
    ClauseBounds(x, clause);
    KeptInClause(r, x, clause);
    HeadMeansWords(r, x.masked, clause);
    match FateOf(r, x, LeftOf(pieces, k), clause, RightOf(pieces, k))
    case KeptWords => KeptPairs(r, x, clause, Kept(r, x.masked, clause));
    case Whole => KeptPairs(r, x, clause, clause.tokens);
    case SharedRight =>
      if HasExperienceHead(r, x.masked, clause) {
        RightBounds(x, pieces, k);
        TechnologyGrows(x, clause.tokens[0].start, RightOf(pieces, k).value.end);
      }
    case SharedLeft(start) =>
      SharedStart(r, x, pieces, k);
      TechnologyGrows(x, start, clause.tokens[|clause.tokens| - 1].end);
    case Silent =>
  }

  lemma PieceIsGood(x: Line, pieces: seq<Clause>, k: nat)
    requires GoodPieces(x, pieces) && k < |pieces|
    ensures GoodClause(x, pieces[k])
  {
  }

  lemma TechnologyGrows(x: Line, from: nat, to: nat)
    requires GoodLine(x) && from <= to <= |x.segment|
    ensures Grows(x, [], x.masked, TechnologyView(x, from, to).display)
  {
  }

  lemma KeptPairs(r: Reader, x: Line, clause: Clause, kept: seq<Span>)
    requires GoodLine(x) && GoodClause(x, clause) && kept != [] && Ascending(kept, clause.start, clause.end) && Unnested(r)
    requires clause.end <= |x.segment| && Ascending(Qualified(r, x.masked, clause), clause.start, clause.end)
    ensures var pairs := PairsOfView(r, x, clause, kept);
      var view := ClauseView(r, x, kept, Qualified(r, x.masked, clause), clause.start, clause.end);
      && Grows(x, pairs, x.masked, view.display) && PairsShown(x, view, view.from, pairs)
      && forall j :: 0 <= j < |pairs| ==> NoParenthesis(x.segment, pairs[j].start + 1, pairs[j].end)
  {
    hide IsSpace, Inside, GoodLine, GoodClause, Pairs, Kept, Qualified, WithWords, PairShown, EndOf, EvaluatedParenthesis,
      NoParenthesis, Unnested, Grows;
    AscendingBounds(kept, clause.start, clause.end);
    MaskFits(x);
    hide Ascending;
    var qualified := Qualified(r, x.masked, clause);
    var first := View(x.masked, kept[0].start, kept[|kept| - 1].end);
    WordsGrow(r, x, qualified, |qualified|, clause.start, clause.end, first);
    var pairs := PairsOfView(r, x, clause, kept);
    var view := ClauseView(r, x, kept, qualified, clause.start, clause.end);
    forall j | 0 <= j < |pairs|
      ensures PairShown(x, view, view.from, pairs[j]) && NoParenthesis(x.segment, pairs[j].start + 1, pairs[j].end)
    {
      PairFrom(x, view, first.from, view.from, pairs[j]);
      PairsUnnested(r, x, qualified, |qualified|, clause.start, clause.end, first, j);
    }
  }

  /** A parenthesis taken over is shown as it is written exactly when nothing visible in
      it was evaluated but technologies. */
  lemma WrittenIff(r: Reader, x: Line, spans: seq<Span>, view: View, pairs: seq<Span>, p: Span)
    requires GoodLine(x) && GoodView(x, view) && x.masked == Masked(x.segment, spans)
    requires Grows(x, pairs, x.masked, view.display) && PairShown(x, view, view.from, p)
    requires forall j :: 0 <= j < |pairs| ==> EvaluatedParenthesis(r, x, pairs[j])
    requires NoParenthesis(x.segment, p.start + 1, p.end)
    ensures view.display[p.start..p.end + 1] == x.segment[p.start..p.end + 1]
        <==> OnlyTechnologies(x.segment, spans, x.technology, p)
  {
    hide IsSpace, Inside, OnlySeparators;
    SpaceIsSpace();
    var shown, written := view.display[p.start..p.end + 1], x.segment[p.start..p.end + 1];
    forall i: nat | p.start < i < p.end
      ensures view.display[i] == x.segment[i] <==>
        (Inside(spans, i) ==> Inside(x.technology, i) || IsSpace(x.segment[i]))
    {
      forall j | 0 <= j < |pairs| ensures i != pairs[j].start && i != pairs[j].end {
        assert EvaluatedParenthesis(r, x, pairs[j]);
      }
    }
    if shown == written {
      forall i: nat | p.start < i < p.end ensures view.display[i] == x.segment[i] {
        assert shown[i - p.start] == written[i - p.start];
      }
    }
    if OnlyTechnologies(x.segment, spans, x.technology, p) {
      forall i: nat | p.start <= i <= p.end ensures view.display[i] == x.segment[i] {
      }
      assert shown == written;
    }
  }

  /** The text of the `k`-th clause of the line takes over the parenthesis. */
  ghost predicate TakesOver(r: Reader, segment: string, spans: seq<Span>, technology: seq<Span>, k: nat, p: Span)
    requires Regular(r) && SpansIn(segment, technology)
  {
    var x, pieces := LineOf(segment, spans, technology), PiecesOf(r, segment, spans, technology);
    PiecesAreGood(r, segment, spans, technology, pieces);
    k < |pieces| && p in PairsOfClause(r, x, pieces, k)
  }

  /** That text shows the parenthesis as it is written in the line. */
  ghost predicate ShowsAsWritten(r: Reader, segment: string, spans: seq<Span>, technology: seq<Span>, k: nat, p: Span)
    requires Regular(r) && SpansIn(segment, technology)
  {
    var x, pieces := LineOf(segment, spans, technology), PiecesOf(r, segment, spans, technology);
    PiecesAreGood(r, segment, spans, technology, pieces);
    k < |pieces| && ViewOfClause(r, x, pieces, k).Some? &&
    var view := ViewOfClause(r, x, pieces, k).value;
    && TextOf(view) in ResidualOf(r, segment, spans, technology)
    && view.from <= p.start < p.end < view.to
    && view.display[p.start..p.end + 1] == segment[p.start..p.end + 1]
  }

  lemma {:induction false} ViewIsListed(r: Reader, x: Line, pieces: seq<Clause>, n: nat, k: nat)
    requires GoodLine(x) && GoodPieces(x, pieces) && k < n <= |pieces| && ViewOfClause(r, x, pieces, k).Some?
    ensures TextOf(ViewOfClause(r, x, pieces, k).value) in TextsOf(r, x, pieces, n)
  {
    hide GoodLine, GoodPieces, ViewOfClause, TextOf;
    if k < n - 1 {
      ViewIsListed(r, x, pieces, n - 1, k);
    }
  }

  lemma {:induction false} ListedIsView(r: Reader, x: Line, pieces: seq<Clause>, n: nat, text: string) returns (k: nat)
    requires GoodLine(x) && GoodPieces(x, pieces) && n <= |pieces| && text in TextsOf(r, x, pieces, n)
    ensures k < n && ViewOfClause(r, x, pieces, k).Some? && text == TextOf(ViewOfClause(r, x, pieces, k).value)
  {
    hide GoodLine, GoodPieces, ViewOfClause, TextOf;
    if text in TextsOf(r, x, pieces, n - 1) {
      k := ListedIsView(r, x, pieces, n - 1, text);
    } else {
      k := n - 1;
    }
  }

  /** A parenthesis taken over is shown as it is written exactly when nothing visible in
      it was evaluated but technologies. */
  lemma AsWrittenIff(r: Reader, segment: string, spans: seq<Span>, technology: seq<Span>, k: nat, p: Span)
    requires Regular(r) && Unnested(r) && SpansIn(segment, technology) && TakesOver(r, segment, spans, technology, k, p)
    ensures ShowsAsWritten(r, segment, spans, technology, k, p) <==> OnlyTechnologies(segment, spans, technology, p)
  {
    hide Regular, Unnested, LineOf, PiecesOf, GoodPieces, Grows, PairShown, EvaluatedParenthesis, NoParenthesis,
      OnlyTechnologies, TextOf, TextsOf, GoodLine, IsPieces, Masked;
    var x, pieces := LineOf(segment, spans, technology), PiecesOf(r, segment, spans, technology);
    PiecesAreGood(r, segment, spans, technology, pieces);
    PairNeedsView(r, x, pieces, k);
    hide ViewOfClause, PairsOfClause;
    ClausePairs(r, x, pieces, k);
    ViewIsListed(r, x, pieces, |pieces|, k);
    var view, pairs := ViewOfClause(r, x, pieces, k).value, PairsOfClause(r, x, pieces, k);
    var j :| 0 <= j < |pairs| && pairs[j] == p;
    PairInView(x, view, p);
    WrittenIff(r, x, spans, view, pairs, p);
  }

  lemma PairNeedsView(r: Reader, x: Line, pieces: seq<Clause>, k: nat)
    requires GoodLine(x) && GoodPieces(x, pieces) && k < |pieces| && PairsOfClause(r, x, pieces, k) != []
    ensures ViewOfClause(r, x, pieces, k).Some?
  {
    hide GoodLine, GoodPieces, Kept, Qualified, HasHead, HasExperienceHead, SharesRight, LeftShared, ClauseView, PairsOfView;
  }

  lemma PairInView(x: Line, view: View, p: Span)
    requires GoodLine(x) && GoodView(x, view) && PairShown(x, view, view.from, p)
    ensures view.from <= p.start < p.end < view.to
  {
  }

  /** Every parenthesis the texts of a line take over is shown as it is written exactly
      when nothing visible was evaluated in any of them but technologies. */
  lemma TechnologiesOnlyIff(r: Reader, segment: string, spans: seq<Span>, technology: seq<Span>)
    requires Regular(r) && Unnested(r) && SpansIn(segment, technology)
    ensures (forall k: nat, p :: TakesOver(r, segment, spans, technology, k, p)
                           ==> ShowsAsWritten(r, segment, spans, technology, k, p))
       <==> (forall k: nat, p :: TakesOver(r, segment, spans, technology, k, p)
                           ==> OnlyTechnologies(segment, spans, technology, p))
  {
    hide Regular, Unnested, TakesOver, ShowsAsWritten, OnlyTechnologies;
    forall k: nat, p | TakesOver(r, segment, spans, technology, k, p)
      ensures ShowsAsWritten(r, segment, spans, technology, k, p) <==> OnlyTechnologies(segment, spans, technology, p)
    {
      AsWrittenIff(r, segment, spans, technology, k, p);
    }
  }

  /** The character is a parenthesis that holds nothing but technologies and list separators. */
  ghost predicate AroundTechnologies(r: Reader, segment: string, spans: seq<Span>, technology: seq<Span>, i: nat) {
    exists p: Span ::
      HoldsEvaluated(r, segment, spans, p) && OnlyTechnologies(segment, spans, technology, p)
      && (i == p.start || i == p.end)
  }

  ghost function TechnologiesOnly(r: Reader, segment: string, spans: seq<Span>, technology: seq<Span>): iset<nat> {
    iset i: nat | !Inside(spans, i) || Inside(technology, i) || AroundTechnologies(r, segment, spans, technology, i)
  }

  lemma EndAroundTechnologies(r: Reader, x: Line, spans: seq<Span>, pairs: seq<Span>, i: nat)
    requires GoodLine(x) && x == LineOf(x.segment, spans, x.technology) && EndOf(pairs, i)
    requires forall j :: 0 <= j < |pairs| ==>
      EvaluatedParenthesis(r, x, pairs[j]) && OnlyTechnologies(x.segment, spans, x.technology, pairs[j])
    ensures AroundTechnologies(r, x.segment, spans, x.technology, i)
  {
    hide EvaluatedParenthesis, HoldsEvaluated, OnlyTechnologies, LineOf;
    var j :| 0 <= j < |pairs| && (i == pairs[j].start || i == pairs[j].end);
    ParenthesisHoldsEvaluated(r, x.segment, spans, x.technology, pairs[j]);
  }

  /** Then every letter of every text of the line is one no typed requirement
      evaluated, one of a technology, or a parenthesis around technologies. */
  lemma NothingButTechnologies(r: Reader, segment: string, spans: seq<Span>, technology: seq<Span>, text: string)
    requires Regular(r) && Unnested(r) && SpansIn(segment, technology)
    requires text in ResidualOf(r, segment, spans, technology)
    requires forall k: nat, p :: TakesOver(r, segment, spans, technology, k, p)
                           ==> OnlyTechnologies(segment, spans, technology, p)
    ensures Spells(segment, text, TechnologiesOnly(r, segment, spans, technology))
  {
    hide Regular, Unnested, PiecesOf, GoodPieces, PairShown, EvaluatedParenthesis, NoParenthesis, OnlyTechnologies,
      TextsOf, ViewOfClause, PairsOfClause, IsSpace, Inside, EndOf, AroundTechnologies, Spells, Collapse;
    var x, pieces := LineOf(segment, spans, technology), PiecesOf(r, segment, spans, technology);
    PiecesAreGood(r, segment, spans, technology, pieces);
    var k := ListedIsView(r, x, pieces, |pieces|, text);
    ClausePairs(r, x, pieces, k);
    var view, pairs := ViewOfClause(r, x, pieces, k).value, PairsOfClause(r, x, pieces, k);
    forall j | 0 <= j < |pairs| ensures OnlyTechnologies(segment, spans, technology, pairs[j]) {
      assert TakesOver(r, segment, spans, technology, k, pairs[j]);
    }
    SpaceIsSpace();
    forall i: nat | view.from <= i < view.to && !IsSpace(view.display[i])
      ensures view.display[i] == segment[i] && i in TechnologiesOnly(r, segment, spans, technology)
    {
      if EndOf(pairs, i) {
        EndAroundTechnologies(r, x, spans, pairs, i);
      }
    }
    DisplaySpells(segment, view.display, view.from, view.to, TechnologiesOnly(r, segment, spans, technology));
  }
}
