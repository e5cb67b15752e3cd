/** How a residual clause of `app/agents/candidate_job_matcher.py` gets its
    technology subjects back: `_clause_text` and `_restored_text`. */
module SubjectRestoration {
  import opened PythonText
  import opened RequiredText
  import opened Wrappers

  // ---------------------------------------------------------------- how far back a subject reaches

  function BackOverMasked(segment: string, masked: string, i: nat, lo: nat): (r: nat)
    requires i <= |segment| == |masked|
    ensures r <= i && (lo <= i ==> lo <= r)
  {
    if i > lo && masked[i - 1] == ' ' && !IsSpace(segment[i - 1])
    then BackOverMasked(segment, masked, i - 1, lo) else i
  }

  /** A line, its mask and its technologies. */
  datatype Line = Line(segment: string, masked: string, technology: seq<Span>)

  predicate GoodLine(x: Line) {
    && |x.segment| == |x.masked|
    && (forall i :: 0 <= i < |x.segment| ==> x.masked[i] == x.segment[i] || x.masked[i] == ' ')
    && (forall k :: 0 <= k < |x.technology| ==> x.technology[k].start <= x.technology[k].end <= |x.segment|)
  }

  datatype Reach = Reach(start: nat, coordinated: bool)

  /** The next step back from `now.start`: a technology directly before it, a hyphen
      ellipsis before it, or a modifier of the whole coordination. */
  function StepBack(r: Reader, x: Line, lo: nat, now: Reach): (next: Option<Reach>)
    requires GoodLine(x) && lo <= now.start <= |x.segment|
    ensures next.Some? ==> lo <= next.value.start < now.start
  {
    var gap := BackOverBlanks(x.segment, now.start, lo);
    var run := BackOverMasked(x.segment, x.masked, gap, lo);
    if run < gap && Inside(x.technology, run) then Some(Reach(run, now.coordinated))
    else
      var ellipsis := r.ellipsis(x.segment, lo, now.start);
      if ellipsis.Some? && lo <= ellipsis.value < now.start then Some(Reach(ellipsis.value, true))
      else
        var word := r.leadingWord(x.masked, lo, now.start);
        if now.coordinated && word.Some? && lo <= word.value.start < now.start && !r.stops(word.value.text)
        then Some(Reach(word.value.start, now.coordinated)) else None
  }

  /** Where the phrase starts once no step back is left. */
  function PhraseStart(r: Reader, x: Line, lo: nat, now: Reach): (start: nat)
    requires GoodLine(x) && lo <= now.start <= |x.segment|
    ensures lo <= start <= now.start
    decreases now.start
  {
    var next := StepBack(r, x, lo, now);
    if next.None? then now.start else PhraseStart(r, x, lo, next.value)
  }

  // ---------------------------------------------------------------- what is shown

  /** The text is nothing but matches of the list separators. */
  predicate OnlySeparators(r: Reader, text: string) {
    forall i :: 0 <= i < |text| ==> Inside(r.separators(text), i)
  }

  /** A parenthesis of which, once masked, nothing is left but list separators. */
  predicate EvaluatedParenthesis(r: Reader, x: Line, p: Span)
    requires GoodLine(x)
  {
    && p.start < p.end < |x.segment| && x.segment[p.start] == '(' && x.segment[p.end] == ')'
    && OnlySeparators(r, x.masked[p.start + 1..p.end])
  }

  ghost predicate ParenthesisAt(r: Reader, x: Line, i: nat)
    requires GoodLine(x)
  {
    exists p: Span :: EvaluatedParenthesis(r, x, p) && (i == p.start || i == p.end)
  }

  /** The character may be taken from the line although it was blanked out. */
  ghost predicate MayRestore(r: Reader, x: Line, i: nat)
    requires GoodLine(x) && i < |x.segment|
  {
    IsSpace(x.segment[i]) || Inside(x.technology, i) || ParenthesisAt(r, x, i)
  }

  /** The display is the masked line with some such characters restored. */
  ghost predicate Displays(r: Reader, x: Line, display: string)
    requires GoodLine(x)
  {
    && |display| == |x.segment|
    && forall i :: 0 <= i < |display| ==>
         display[i] == x.masked[i] || (display[i] == x.segment[i] && MayRestore(r, x, i))
  }

  predicate RestoredOn(x: Line, display: string, a: nat, b: nat)
    requires GoodLine(x) && |display| == |x.segment|
  {
    forall i :: a <= i < b && i < |display| && Inside(x.technology, i) ==> display[i] == x.segment[i]
  }

  /** Characters only change to those of the line. */
  predicate OnlyRestored(x: Line, before: string, after: string)
    requires GoodLine(x)
  {
    |before| == |after| == |x.segment| && forall i :: 0 <= i < |after| ==> after[i] == before[i] || after[i] == x.segment[i]
  }

  /** `restore(a, b)`: white space and technologies reappear between two positions. */
  function Restored(x: Line, display: string, a: nat, b: nat): (after: string)
    requires GoodLine(x) && |display| == |x.segment|
    ensures |after| == |x.segment|
    ensures forall i :: 0 <= i < |after| ==>
      after[i] == if a <= i < b && (IsSpace(x.segment[i]) || Inside(x.technology, i)) then x.segment[i] else display[i]
  {
    seq(|display|, i requires 0 <= i < |display| =>
      if a <= i < b && (IsSpace(x.segment[i]) || Inside(x.technology, i)) then x.segment[i] else display[i])
  }

  /** The same, as the loop the source runs. */
  method Restore(r: Reader, x: Line, display: string, a: nat, b: nat) returns (after: string)
    requires GoodLine(x) && Displays(r, x, display) && b <= |display|
    ensures after == Restored(x, display, a, b)
    ensures Displays(r, x, after) && OnlyRestored(x, display, after) && RestoredOn(x, after, a, b)
  {
    after := display;
    if a < b {
      for i := a to b
        invariant Displays(r, x, after) && OnlyRestored(x, display, after) && RestoredOn(x, after, a, i)
        invariant after == Restored(x, display, a, i)
      {
        if IsSpace(x.segment[i]) || Inside(x.technology, i) {
          assert MayRestore(r, x, i);
          after := after[i := x.segment[i]];
        }
      }
    }
  }

  function LastTrailing(technology: seq<Span>, after: nat, before: nat): (last: nat)
    ensures forall k :: 0 <= k < |technology| && after <= technology[k].start < before ==> technology[k].end <= last
    ensures last == 0 || exists k :: 0 <= k < |technology| && technology[k].end == last
  {
    if technology == [] then 0
    else
      var n := |technology| - 1;
      var earlier := LastTrailing(technology[..n], after, before);
      if after <= technology[n].start < before && technology[n].end > earlier then technology[n].end else earlier
  }

  /** The technologies of the phrase from `a` to the head, and those after it, are shown. */
  ghost predicate SubjectShown(x: Line, display: string, from: nat, to: nat, a: nat, head: Span, hi: nat)
    requires GoodLine(x) && |display| == |x.segment|
  {
    from <= a && RestoredOn(x, display, a, head.start) && TrailingShown(x, display, head, hi, to)
  }

  lemma StillShown(x: Line, before: string, after: string, from: nat, to: nat, from2: nat, to2: nat, a: nat, head: Span, hi: nat)
    requires GoodLine(x) && OnlyRestored(x, before, after) && SubjectShown(x, before, from, to, a, head, hi)
    requires from2 <= from && to <= to2
    ensures SubjectShown(x, after, from2, to2, a, head, hi)
  {
  }

  /** What is shown of the line, and between which positions. */
  datatype View = View(display: string, from: nat, to: nat)

  predicate GoodView(x: Line, v: View) {
    |v.display| == |x.segment| && v.from <= v.to <= |x.segment|
  }

  /** The parenthesis that directly follows `end`, if all of it but separators was evaluated. */
  function ParenthesisAfter(r: Reader, x: Line, end: nat): (pair: Option<Span>)
    requires GoodLine(x)
    ensures pair.Some? ==> EvaluatedParenthesis(r, x, pair.value) && end <= pair.value.start
  {
    var p := r.parenthetical(x.segment, end);
    if p.Some? && end < p.value.start <= p.value.end < |x.segment|
       && EvaluatedParenthesis(r, x, Span(p.value.start - 1, p.value.end))
    then Some(Span(p.value.start - 1, p.value.end)) else None
  }

  /** The display with both parentheses and the technologies between them. */
  function WithPair(x: Line, display: string, pair: Span): (after: string)
    requires GoodLine(x) && |display| == |x.segment| && pair.start < pair.end < |x.segment|
    ensures |after| == |x.segment|
  {
    Restored(x, display, pair.start + 1, pair.end)[pair.start := x.segment[pair.start]][pair.end := x.segment[pair.end]]
  }

  function WithParenthesis(r: Reader, x: Line, v: View): (after: View)
    requires GoodLine(x) && GoodView(x, v)
    ensures GoodView(x, after) && after.from == v.from && v.to <= after.to
  {
    match ParenthesisAfter(r, x, v.to)
    case None => v
    case Some(pair) => View(WithPair(x, v.display, pair), v.from, pair.end + 1)
  }

  /** The view with the technologies after the head, and a parenthesis of evaluated text. */
  function WithTrailing(r: Reader, x: Line, v: View, head: Span, hi: nat): (after: View)
    requires GoodLine(x) && GoodView(x, v)
    ensures GoodView(x, after) && after.from == v.from && v.to <= after.to
  {
    var last := LastTrailing(x.technology, head.end, hi);
    if last == 0 then v
    else WithParenthesis(r, x, View(Restored(x, v.display, head.end, last), v.from, if v.to < last then last else v.to))
  }

  /** The display with everything restored on the way back from `now`. */
  function WithLeading(r: Reader, x: Line, display: string, lo: nat, now: Reach): (after: string)
    requires GoodLine(x) && |display| == |x.segment| && lo <= now.start <= |x.segment|
    ensures |after| == |x.segment|
    decreases now.start
  {
    var next := StepBack(r, x, lo, now);
    if next.None? then display
    else WithLeading(r, x, Restored(x, display, next.value.start, now.start), lo, next.value)
  }

  /** The view with the whole subject of the phrase from `group` to `head`. */
  function WithSubject(r: Reader, x: Line, v: View, lo: nat, hi: nat, group: nat, head: Span): (after: View)
    requires GoodLine(x) && GoodView(x, v) && lo <= group <= |x.segment|
    ensures GoodView(x, after) && after.from <= v.from && v.to <= after.to && (lo <= v.from ==> lo <= after.from)
  {
    var phrase := PhraseStart(r, x, lo, Reach(group, false));
    var trailing := WithTrailing(r, x, v.(display := Restored(x, v.display, group, head.start)), head, hi);
    View(WithLeading(r, x, trailing.display, lo, Reach(group, false)), if phrase < v.from then phrase else v.from,
         trailing.to)
  }

  /** A parenthesis directly after the text, if all of it but separators was evaluated. */
  method ShowParenthesis(r: Reader, x: Line, v: View) returns (after: View)
    requires GoodLine(x) && GoodView(x, v) && Displays(r, x, v.display)
    ensures after == WithParenthesis(r, x, v)
    ensures Displays(r, x, after.display) && OnlyRestored(x, v.display, after.display)
  {
    after := v;
    var p := ParenthesisAfter(r, x, v.to);
    if p.Some? {
      var pair := p.value;
      var display := Restore(r, x, v.display, pair.start + 1, pair.end);
      assert ParenthesisAt(r, x, pair.start) && ParenthesisAt(r, x, pair.end);
      assert MayRestore(r, x, pair.start) && MayRestore(r, x, pair.end);
      display := display[pair.start := x.segment[pair.start]][pair.end := x.segment[pair.end]];
      after := View(display, v.from, pair.end + 1);
    }
  }

  /** All technologies after the head up to `hi` are shown. */
  predicate TrailingShown(x: Line, display: string, head: Span, hi: nat, to: nat)
    requires GoodLine(x) && |display| == |x.segment|
  {
    forall k :: 0 <= k < |x.technology| && head.end <= x.technology[k].start < hi ==>
      x.technology[k].end <= to && RestoredOn(x, display, head.end, x.technology[k].end)
  }

  lemma TrailingStays(x: Line, before: string, after: string, head: Span, hi: nat, to: nat, to2: nat)
    requires GoodLine(x) && OnlyRestored(x, before, after) && TrailingShown(x, before, head, hi, to) && to <= to2
    ensures TrailingShown(x, after, head, hi, to2)
  {
  }

  /** Technologies after the head inside its clause, and a parenthesis of evaluated text. */
  method ShowTrailing(r: Reader, x: Line, v: View, head: Span, hi: nat) returns (after: View)
    requires GoodLine(x) && GoodView(x, v) && Displays(r, x, v.display) && head.end <= |x.segment|
    ensures after == WithTrailing(r, x, v, head, hi)
    ensures Displays(r, x, after.display) && OnlyRestored(x, v.display, after.display)
    ensures TrailingShown(x, after.display, head, hi, after.to)
  {
    after := v;
    var last := LastTrailing(x.technology, head.end, hi);
    if last > 0 {
      var shown := Restore(r, x, v.display, head.end, last);
      var reached := if v.to < last then last else v.to;
      assert TrailingShown(x, shown, head, hi, reached);
      after := ShowParenthesis(r, x, View(shown, v.from, reached));
      RestoredTwice(x, v.display, shown, after.display);
      TrailingStays(x, shown, after.display, head, hi, reached, after.to);
    }
  }

  /** The loop that walks back from a phrase to the start of its subject. */
  method ShowLeading(r: Reader, x: Line, display: string, lo: nat, group: nat, head: Span) returns (after: string, start: nat)
    requires GoodLine(x) && Displays(r, x, display) && lo <= group <= head.start <= |x.segment|
    requires RestoredOn(x, display, group, head.start)
    ensures after == WithLeading(r, x, display, lo, Reach(group, false))
    ensures Displays(r, x, after) && OnlyRestored(x, display, after)
    ensures start == PhraseStart(r, x, lo, Reach(group, false)) && lo <= start <= group
    ensures RestoredOn(x, after, start, head.start)
  {
    after := display;
    var now := Reach(group, false);
    while true
      invariant lo <= now.start <= group
      invariant Displays(r, x, after) && OnlyRestored(x, display, after)
      invariant PhraseStart(r, x, lo, now) == PhraseStart(r, x, lo, Reach(group, false))
      invariant WithLeading(r, x, after, lo, now) == WithLeading(r, x, display, lo, Reach(group, false))
      invariant RestoredOn(x, after, now.start, head.start)
      decreases now.start
    {
      var next := StepBack(r, x, lo, now);
      if next.None? {
        break;
      }
      var further := Restore(r, x, after, next.value.start, now.start);
      RestoredTwice(x, display, after, further);
      after, now := further, next.value;
    }
    start := now.start;
  }

  lemma RestoredTwice(x: Line, a: string, b: string, c: string)
    requires GoodLine(x) && OnlyRestored(x, a, b) && OnlyRestored(x, b, c)
    ensures OnlyRestored(x, a, c)
  {
  }

  // ---------------------------------------------------------------- the text of one clause

  predicate HeadAt(r: Reader, x: Line, qualified: seq<Span>, k: nat)
    requires k < |qualified|
  {
    r.isExperience(StripHyphens(Slice(x.masked, qualified[k])))
  }

  /** The first word of the phrase that ends in the `k`-th qualified word. */
  function GroupStart(r: Reader, x: Line, qualified: seq<Span>, k: nat): nat
    requires k < |qualified|
  {
    if k == 0 || HeadAt(r, x, qualified, k - 1) then qualified[k].start else GroupStart(r, x, qualified, k - 1)
  }

  lemma {:induction false} GroupStartInClause(r: Reader, x: Line, qualified: seq<Span>, k: nat, lo: nat, hi: nat)
    requires k < |qualified| && Ascending(qualified, lo, hi)
    ensures lo <= GroupStart(r, x, qualified, k) <= qualified[k].start
  {
    if k > 0 && !HeadAt(r, x, qualified, k - 1) {
      GroupStartInClause(r, x, qualified, k - 1, lo, hi);
    }
  }

  /** The text shows the display between two positions. */
  ghost predicate ShownAs(r: Reader, x: Line, text: string, display: string, from: nat, to: nat)
    requires GoodLine(x)
  {
    Displays(r, x, display) && from <= to <= |display| && text == Collapse(display[from..to])
  }

  /** Every experience phrase up to the `n`-th word is shown with its technologies. */
  ghost predicate SubjectsShown(r: Reader, x: Line, qualified: seq<Span>, n: nat, lo: nat, hi: nat, display: string,
                                from: nat, to: nat)
    requires GoodLine(x) && |display| == |x.segment| && n <= |qualified| && Ascending(qualified, lo, hi)
    requires hi <= |x.segment|
  {
    forall k: nat :: k < n && HeadAt(r, x, qualified, k) ==>
      SubjectOf(r, x, qualified, k, lo, hi, display, from, to)
  }

  ghost predicate SubjectOf(r: Reader, x: Line, qualified: seq<Span>, k: nat, lo: nat, hi: nat, display: string,
                            from: nat, to: nat)
    requires GoodLine(x) && |display| == |x.segment| && k < |qualified| && Ascending(qualified, lo, hi)
    requires hi <= |x.segment|
  {
    GroupStartInClause(r, x, qualified, k, lo, hi);
    SubjectShown(x, display, from, to, PhraseStart(r, x, lo, Reach(GroupStart(r, x, qualified, k), false)), qualified[k], hi)
  }

  lemma SubjectsStay(r: Reader, x: Line, qualified: seq<Span>, n: nat, lo: nat, hi: nat, before: string, after: string,
                     from: nat, to: nat, from2: nat, to2: nat)
    requires GoodLine(x) && OnlyRestored(x, before, after) && n <= |qualified| && Ascending(qualified, lo, hi)
    requires hi <= |x.segment| && from2 <= from && to <= to2
    requires SubjectsShown(r, x, qualified, n, lo, hi, before, from, to)
    ensures SubjectsShown(r, x, qualified, n, lo, hi, after, from2, to2)
  {
    SameLength(x, before, after);
    hide GoodLine, OnlyRestored, SubjectShown, PhraseStart, HeadAt, Ascending, GroupStart;
    forall k: nat | k < n && HeadAt(r, x, qualified, k)
      ensures SubjectOf(r, x, qualified, k, lo, hi, after, from2, to2)
    {
      assert SubjectOf(r, x, qualified, k, lo, hi, before, from, to);
      GroupStartInClause(r, x, qualified, k, lo, hi);
      StillShown(x, before, after, from, to, from2, to2,
                 PhraseStart(r, x, lo, Reach(GroupStart(r, x, qualified, k), false)), qualified[k], hi);
    }
  }

  lemma SameLength(x: Line, before: string, after: string)
    requires GoodLine(x) && OnlyRestored(x, before, after)
    ensures |before| == |after| == |x.segment|
  {
  }

  lemma SubjectsGrow(r: Reader, x: Line, qualified: seq<Span>, k: nat, lo: nat, hi: nat, display: string, from: nat, to: nat)
    requires GoodLine(x) && |display| == |x.segment| && k < |qualified| && Ascending(qualified, lo, hi)
    requires hi <= |x.segment|
    requires SubjectsShown(r, x, qualified, k, lo, hi, display, from, to)
    requires HeadAt(r, x, qualified, k) ==> SubjectOf(r, x, qualified, k, lo, hi, display, from, to)
    ensures SubjectsShown(r, x, qualified, k + 1, lo, hi, display, from, to)
  {
    hide GoodLine, SubjectOf, HeadAt, Ascending;
  }

  /** One experience head: its subject reappears before it and after it. */
  method ShowSubject(r: Reader, x: Line, v: View, lo: nat, hi: nat, group: nat, head: Span) returns (after: View)
    requires GoodLine(x) && GoodView(x, v) && Displays(r, x, v.display)
    requires lo <= group <= head.start <= head.end <= |x.segment| && lo <= v.from
    ensures after == WithSubject(r, x, v, lo, hi, group, head)
    ensures Displays(r, x, after.display) && OnlyRestored(x, v.display, after.display)
    ensures SubjectShown(x, after.display, after.from, after.to, PhraseStart(r, x, lo, Reach(group, false)), head, hi)
  {
    hide EvaluatedParenthesis, MayRestore, PhraseStart, OnlyRestored, WithTrailing, WithLeading;
    var ahead := Restore(r, x, v.display, group, head.start);
    SameLength(x, v.display, ahead);
    var trailing := ShowTrailing(r, x, v.(display := ahead), head, hi);
    StillRestored(x, ahead, trailing.display, group, head.start);
    var shown, phrase := ShowLeading(r, x, trailing.display, lo, group, head);
    RestoredTwice(x, v.display, ahead, trailing.display);
    RestoredTwice(x, v.display, trailing.display, shown);
    TrailingStays(x, trailing.display, shown, head, hi, trailing.to, trailing.to);
    after := View(shown, if phrase < v.from then phrase else v.from, trailing.to);
  }

  lemma StillRestored(x: Line, before: string, after: string, a: nat, b: nat)
    requires GoodLine(x) && OnlyRestored(x, before, after) && RestoredOn(x, before, a, b)
    ensures RestoredOn(x, after, a, b)
  {
  }

  /** The phrase that is open before the `k`-th word, if any. */
  predicate GroupOpen(r: Reader, x: Line, qualified: seq<Span>, k: nat, group: Option<nat>)
    requires k <= |qualified|
  {
    if k == 0 || HeadAt(r, x, qualified, k - 1) then group.None? else group == Some(GroupStart(r, x, qualified, k - 1))
  }

  /** What the display shows after the first `k` words. */
  ghost predicate Progress(r: Reader, x: Line, qualified: seq<Span>, k: nat, lo: nat, hi: nat, display: string,
                           from: nat, to: nat)
    requires GoodLine(x) && k <= |qualified| && Ascending(qualified, lo, hi) && hi <= |x.segment|
  {
    Displays(r, x, display) && lo <= from && to <= |x.segment|
    && SubjectsShown(r, x, qualified, k, lo, hi, display, from, to)
  }

  /** The view after the `k`-th qualified word: a head shows the subject of its phrase. */
  function WithWord(r: Reader, x: Line, qualified: seq<Span>, k: nat, lo: nat, hi: nat, v: View): (after: View)
    requires GoodLine(x) && GoodView(x, v) && k < |qualified| && Ascending(qualified, lo, hi) && hi <= |x.segment|
    ensures GoodView(x, after) && after.from <= v.from && v.to <= after.to && (lo <= v.from ==> lo <= after.from)
  {
    GroupStartInClause(r, x, qualified, k, lo, hi);
    if HeadAt(r, x, qualified, k) then WithSubject(r, x, v, lo, hi, GroupStart(r, x, qualified, k), qualified[k]) else v
  }

  /** The view after the first `k` qualified words. */
  function WithWords(r: Reader, x: Line, qualified: seq<Span>, k: nat, lo: nat, hi: nat, v: View): (after: View)
    requires GoodLine(x) && GoodView(x, v) && k <= |qualified| && Ascending(qualified, lo, hi) && hi <= |x.segment|
    ensures GoodView(x, after) && after.from <= v.from && v.to <= after.to && (lo <= v.from ==> lo <= after.from)
  {
    if k == 0 then v else WithWord(r, x, qualified, k - 1, lo, hi, WithWords(r, x, qualified, k - 1, lo, hi, v))
  }

  /** What is shown of a clause: its kept words, and the subjects of its experience phrases. */
  function ClauseView(r: Reader, x: Line, kept: seq<Span>, qualified: seq<Span>, lo: nat, hi: nat): (v: View)
    requires GoodLine(x) && kept != [] && hi <= |x.segment| && Ascending(kept, lo, hi) && Ascending(qualified, lo, hi)
    ensures GoodView(x, v) && lo <= v.from <= kept[0].start && kept[|kept| - 1].end <= v.to
  {
    WithWords(r, x, qualified, |qualified|, lo, hi, View(x.masked, kept[0].start, kept[|kept| - 1].end))
  }

  function TextOf(v: View): string
    requires v.from <= v.to <= |v.display|
  {
    Collapse(v.display[v.from..v.to])
  }

  /** One qualified word: it opens or continues a phrase, and a head closes it. */
  method ShowWord(r: Reader, x: Line, qualified: seq<Span>, k: nat, lo: nat, hi: nat, v: View, group: Option<nat>)
    returns (after: View, group2: Option<nat>)
    requires GoodLine(x) && k < |qualified| && Ascending(qualified, lo, hi) && hi <= |x.segment|
    requires GoodView(x, v) && lo <= v.from
    requires Progress(r, x, qualified, k, lo, hi, v.display, v.from, v.to) && GroupOpen(r, x, qualified, k, group)
    ensures after == WithWord(r, x, qualified, k, lo, hi, v)
    ensures Progress(r, x, qualified, k + 1, lo, hi, after.display, after.from, after.to)
    ensures GroupOpen(r, x, qualified, k + 1, group2)
  {
    hide GoodLine, MayRestore, OnlyRestored, SubjectShown, PhraseStart, SubjectsShown, SubjectOf, Ascending, HeadAt,
      WithSubject;
    after := v;
    group2 := if group.None? then Some(qualified[k].start) else group;
    GroupStartInClause(r, x, qualified, k, lo, hi);
    TokenBounds(qualified, k, lo, hi);
    if HeadAt(r, x, qualified, k) {
      after := ShowSubject(r, x, v, lo, hi, group2.value, qualified[k]);
      SubjectsStay(r, x, qualified, k, lo, hi, v.display, after.display, v.from, v.to, after.from, after.to);
      SubjectAt(r, x, qualified, k, lo, hi, after.display, after.from, after.to);
      group2 := None;
    }
    SubjectsGrow(r, x, qualified, k, lo, hi, after.display, after.from, after.to);
  }

  /** `_clause_text`: every kept word is shown, with the technologies of every
      experience phrase; besides white space and technologies only parentheses of
      evaluated text reappear. */
  method ClauseText(r: Reader, x: Line, kept: seq<Span>, qualified: seq<Span>, lo: nat, hi: nat) returns (text: string)
    requires GoodLine(x) && kept != [] && hi <= |x.segment| && Ascending(kept, lo, hi) && Ascending(qualified, lo, hi)
    ensures var v := ClauseView(r, x, kept, qualified, lo, hi);
      && text == TextOf(v) && Displays(r, x, v.display)
      && SubjectsShown(r, x, qualified, |qualified|, lo, hi, v.display, v.from, v.to)
  {
    hide GoodLine, Progress, GroupOpen, Ascending, Collapse, Displays, SubjectsShown, WithWord;
    AscendingBounds(kept, lo, hi);
    var first := View(x.masked, kept[0].start, kept[|kept| - 1].end);
    MaskFits(x);
    var v := first;
    NothingShownYet(r, x, qualified, lo, hi, first.from, first.to);
    var group: Option<nat> := None;
    NoGroup(r, x, qualified);
    for k := 0 to |qualified|
      invariant v == WithWords(r, x, qualified, k, lo, hi, first)
      invariant Progress(r, x, qualified, k, lo, hi, v.display, v.from, v.to) && GroupOpen(r, x, qualified, k, group)
    {
      v, group := ShowWord(r, x, qualified, k, lo, hi, v, group);
    }
    Finished(r, x, qualified, lo, hi, v.display, v.from, v.to);
    text := Collapse(v.display[v.from..v.to]);
  }

  lemma MaskFits(x: Line)
    requires GoodLine(x)
    ensures |x.masked| == |x.segment|
  {
  }

  lemma NoGroup(r: Reader, x: Line, qualified: seq<Span>)
    ensures GroupOpen(r, x, qualified, 0, None)
  {
  }

  lemma Finished(r: Reader, x: Line, qualified: seq<Span>, lo: nat, hi: nat, display: string, from: nat, to: nat)
    requires GoodLine(x) && Ascending(qualified, lo, hi) && hi <= |x.segment|
    requires Progress(r, x, qualified, |qualified|, lo, hi, display, from, to)
    ensures Displays(r, x, display) && |display| == |x.segment| && lo <= from && to <= |x.segment|
    ensures SubjectsShown(r, x, qualified, |qualified|, lo, hi, display, from, to)
  {
    hide SubjectsShown;
  }

  lemma AscendingBounds(tokens: seq<Span>, lo: nat, hi: nat)
    requires Ascending(tokens, lo, hi) && tokens != []
    ensures lo <= tokens[0].start <= tokens[|tokens| - 1].end <= hi
  {
  }

  lemma TokenBounds(tokens: seq<Span>, k: nat, lo: nat, hi: nat)
    requires Ascending(tokens, lo, hi) && k < |tokens|
    ensures lo <= tokens[k].start < tokens[k].end <= hi
  {
  }

  lemma NothingShownYet(r: Reader, x: Line, qualified: seq<Span>, lo: nat, hi: nat, from: nat, to: nat)
    requires GoodLine(x) && Ascending(qualified, lo, hi) && hi <= |x.segment| && lo <= from && to <= |x.segment|
    ensures Progress(r, x, qualified, 0, lo, hi, x.masked, from, to)
  {
  }

  lemma SubjectAt(r: Reader, x: Line, qualified: seq<Span>, k: nat, lo: nat, hi: nat, display: string, from: nat, to: nat)
    requires GoodLine(x) && |display| == |x.segment| && k < |qualified| && Ascending(qualified, lo, hi)
    requires hi <= |x.segment| && lo <= GroupStart(r, x, qualified, k) <= |x.segment|
    requires SubjectShown(x, display, from, to, PhraseStart(r, x, lo, Reach(GroupStart(r, x, qualified, k), false)),
                          qualified[k], hi)
    ensures SubjectOf(r, x, qualified, k, lo, hi, display, from, to)
  {
    hide GoodLine, SubjectShown, PhraseStart, Ascending, GroupStart;
  }

  predicate IsWord(masked: string, t: Span) {
    t.start <= t.end <= |masked| && forall i :: t.start <= i < t.end ==> !IsSpace(masked[i])
  }

  /** A word left after masking is still a word of any text that shows its place. */
  lemma WordShown(r: Reader, x: Line, text: string, display: string, from: nat, to: nat, word: Span)
    requires GoodLine(x) && ShownAs(r, x, text, display, from, to) && from <= word.start <= word.end <= to
    requires IsWord(x.masked, word)
    ensures Occurs(Slice(x.masked, word), text)
  {
    hide Collapse, Occurs;
    var shown := display[from..to];
    var a, b := word.start - from, word.end - from;
    assert forall i :: word.start <= i < word.end ==> display[i] == x.masked[i];
    assert forall i :: a <= i < b ==> shown[i] == x.masked[i + from];
    RunOccurs(shown, a, b);
    assert shown[a..b] == x.masked[word.start..word.end];
  }

  // ---------------------------------------------------------------- the clauses of one line

  function LineOf(segment: string, spans: seq<Span>, technology: seq<Span>): (x: Line)
    requires forall k :: 0 <= k < |technology| ==> technology[k].start <= technology[k].end <= |segment|
    ensures GoodLine(x) && x.segment == segment && x.technology == technology && x.masked == Masked(segment, spans)
  {
    Line(segment, Masked(segment, spans), technology)
  }

  /** The line between two positions with only its technologies restored. */
  function TechnologyView(x: Line, from: nat, to: nat): (v: View)
    requires GoodLine(x) && from <= to <= |x.segment|
    ensures GoodView(x, v) && v.from == from && v.to == to
  {
    View(seq(|x.segment|, i requires 0 <= i < |x.segment| =>
           if Inside(x.technology, i) then x.segment[i] else x.masked[i]), from, to)
  }

  /** The characters from `from` on: the line's where a technology stands, the masked ones elsewhere. */
  ghost predicate ShowsTechnology(x: Line, from: nat, to: nat, shown: string)
    requires GoodLine(x) && from <= to <= |x.segment|
  {
    && |shown| == to - from
    && forall i :: from <= i < to ==>
         shown[i - from] == if Inside(x.technology, i) then x.segment[i] else x.masked[i]
  }

  /** `_restored_text` */
  method RestoredText(r: Reader, x: Line, from: nat, to: nat) returns (text: string)
    requires GoodLine(x) && from <= to <= |x.segment|
    ensures text == TextOf(TechnologyView(x, from, to)) && Displays(r, x, TechnologyView(x, from, to).display)
    ensures exists shown :: ShowsTechnology(x, from, to, shown) && text == Collapse(shown)
  {
    hide Collapse;
    var v := TechnologyView(x, from, to);
    assert forall i :: 0 <= i < |v.display| && v.display[i] != x.masked[i] ==> MayRestore(r, x, i);
    text := TextOf(v);
    assert ShowsTechnology(x, from, to, v.display[from..to]);
  }

  // ---------------------------------------------------------------- what a shown parenthesis holds

  /** The character is left in the masked text and is part of a list separator. */
  predicate UnmaskedSeparator(r: Reader, segment: string, spans: seq<Span>, p: Span, i: nat)
    requires p.start < p.end < |segment|
  {
    && p.start < i < p.end && !Inside(spans, i)
    && Inside(r.separators(Masked(segment, spans)[p.start + 1..p.end]), i - p.start - 1)
  }

  /** Every character in the parenthesis is evaluated, or part of a list separator. */
  predicate HoldsEvaluated(r: Reader, segment: string, spans: seq<Span>, p: Span) {
    && p.start < p.end < |segment| && segment[p.start] == '(' && segment[p.end] == ')'
    && forall i: nat :: p.start < i < p.end ==> Inside(spans, i) || UnmaskedSeparator(r, segment, spans, p, i)
  }

  lemma ParenthesisHoldsEvaluated(r: Reader, segment: string, spans: seq<Span>, technology: seq<Span>, p: Span)
    requires forall k :: 0 <= k < |technology| ==> technology[k].start <= technology[k].end <= |segment|
    requires EvaluatedParenthesis(r, LineOf(segment, spans, technology), p)
    ensures HoldsEvaluated(r, segment, spans, p)
  {
    hide Masked, Inside;
    var inner := Masked(segment, spans)[p.start + 1..p.end];
    forall i: nat | p.start < i < p.end && !Inside(spans, i) ensures UnmaskedSeparator(r, segment, spans, p, i) {
      assert 0 <= i - p.start - 1 < |inner|;
    }
  }
}
