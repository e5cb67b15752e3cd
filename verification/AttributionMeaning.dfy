/** What `clean_text` of `scripts/strip_review_attribution.py` takes out of a
    line, said in terms of the characters of the line. */
module AttributionMeaning {
  import opened Sequences
  import opened PythonText
  import opened Wrappers
  import opened AttributionStripper

  // ---------------------------------------------------------------- parentheses

  /** No prefix holds more closing parentheses than opening ones. */
  ghost predicate ClosesOnlyItsOwn(s: string) {
    forall k :: 0 <= k <= |s| ==> multiset(s[..k])[')'] <= multiset(s[..k])['(']
  }

  ghost predicate IsBalanced(s: string) {
    ClosesOnlyItsOwn(s) && multiset(s)['('] == multiset(s)[')']
  }

  lemma CountStep(s: string)
    requires s != ""
    ensures multiset(s) == multiset(s[..|s| - 1]) + multiset{s[|s| - 1]}
  {
    assert s == s[..|s| - 1] + [s[|s| - 1]];
  }

  lemma ClosesOnlyItsOwnStep(s: string)
    requires s != ""
    ensures ClosesOnlyItsOwn(s) <==> ClosesOnlyItsOwn(s[..|s| - 1]) && multiset(s)[')'] <= multiset(s)['(']
  {
    var init := s[..|s| - 1];
    assert s[..|s|] == s;
    assert forall k :: 0 <= k <= |init| ==> init[..k] == s[..k];
  }

  /** Closing parentheses without an opener, and balance, by counting. */
  lemma {:induction false} ParensMeaning(s: string)
    ensures Unmatched(s).opens + multiset(s)[')'] == Unmatched(s).closes + multiset(s)['(']
    ensures Unmatched(s).closes == 0 <==> ClosesOnlyItsOwn(s)
    ensures Unmatched(s) == BALANCED <==> IsBalanced(s)
  {
    if s == "" {
      assert s[..0] == "";
    } else {
      ParensMeaning(s[..|s| - 1]);
      CountStep(s);
      ClosesOnlyItsOwnStep(s);
      hide ClosesOnlyItsOwn;
    }
  }

  // ---------------------------------------------------------------- labels

  /** `to` is the first position at or after `from` that is no space or tab. */
  ghost predicate SkipsBlanks(line: string, from: nat, to: nat) {
    && from <= to <= |line|
    && (forall k :: from <= k < to ==> line[k] == ' ' || line[k] == '\t')
    && (to < |line| ==> line[to] != ' ' && line[to] != '\t')
  }

  ghost predicate Has(line: string, i: nat, c: char) {
    i < |line| && line[i] == c
  }

  ghost predicate QuotesAt(line: string, i: nat) {
    || (Has(line, i, '\"') && Has(line, i + 1, '\"') && Has(line, i + 2, '\"'))
    || (Has(line, i, '\'') && Has(line, i + 1, '\'') && Has(line, i + 2, '\''))
  }

  /** The indentation and a comment marker with the blanks behind it end at `i`. */
  ghost predicate MarkerEnds(line: string, i: nat) {
    exists a: nat :: SkipsBlanks(line, 0, a) && if Has(line, a, '#') then SkipsBlanks(line, a + 1, i) else i == a
  }

  /** From `i`, a docstring opener with its prefix letter and the blanks behind it end at `j`. */
  ghost predicate OpenerEnds(line: string, i: nat, j: nat) {
    if QuotesAt(line, i) then SkipsBlanks(line, i + 3, j)
    else if i < |line| && line[i] in {'r', 'R', 'b', 'B', 'u', 'U'} && QuotesAt(line, i + 1) then SkipsBlanks(line, i + 4, j)
    else j == i
  }

  predicate IsDecimal(c: char) {
    c in {'0', '1', '2', '3', '4', '5', '6', '7', '8', '9'}
  }

  lemma DecimalMeaning(c: char)
    ensures IsDecimal(c) <==> '0' <= c <= '9'
  {
  }

  /** `line[i..d]` is a number followed by ". " or ") ". */
  ghost predicate NumberAt(lex: Lexicon, line: string, i: nat, d: nat) {
    && i < d < |line|
    && (forall k :: i <= k < d ==> IsDecimal(line[k]) || (line[k] as int >= 128 && lex.otherDigit(line[k])))
    && (Has(line, d, '.') || Has(line, d, ')')) && Has(line, d + 1, ' ')
  }

  /** From `i`, a list number or bullet with the blanks behind it ends at `j`. */
  ghost predicate ListMarkEnds(lex: Lexicon, line: string, i: nat, j: nat) {
    if exists d: nat :: NumberAt(lex, line, i, d)
    then exists d: nat :: NumberAt(lex, line, i, d) && SkipsBlanks(line, d + 1, j)
    else if (Has(line, i, '-') || Has(line, i, '*')) && Has(line, i + 1, ' ') then SkipsBlanks(line, i + 1, j)
    else j == i
  }

  /** Marker, opener, list mark and bold marker end at `a`, `b`, `c` and `i`. */
  ghost predicate LeadParts(lex: Lexicon, line: string, a: nat, b: nat, c: nat, i: nat) {
    && MarkerEnds(line, a)
    && OpenerEnds(line, a, b)
    && ListMarkEnds(lex, line, b, c)
    && i == if Has(line, c, '*') && Has(line, c + 1, '*') then c + 2 else c
  }

  /** The part of the line kept in front of a label ends at `i`. */
  ghost predicate LeadEnds(lex: Lexicon, line: string, i: nat) {
    exists a: nat, b: nat, c: nat :: LeadParts(lex, line, a, b, c, i)
  }

  /** The label from `i` ends at `colon`: the first colon outside parentheses,
      with nothing closed before it, followed by a blank or the end. */
  ghost predicate LabelEnds(line: string, i: nat, colon: nat) {
    && i <= colon < |line| && line[colon] == ':'
    && IsBalanced(line[i..colon])
    && (forall k :: i <= k < colon && line[k] == ':' ==> !IsBalanced(line[i..k]))
    && (colon + 1 < |line| ==> line[colon + 1] == ' ' || line[colon + 1] == '\t')
  }

  /** `blanked` is `text` with a space for every parenthesis. */
  ghost predicate Blanks(text: string, blanked: string) {
    && |blanked| == |text|
    && forall k :: 0 <= k < |text| ==> blanked[k] == if text[k] == '(' || text[k] == ')' then ' ' else text[k]
  }

  /** The line starts with a provenance label `line[i..colon]`, and what follows
      it from `next` closes no parenthesis of an earlier line. */
  ghost predicate CarriesLabel(lex: Lexicon, line: string, i: nat, colon: nat, next: nat) {
    && LeadEnds(lex, line, i)
    && LabelEnds(line, i, colon)
    && SkipsBlanks(line, colon + 1, next)
    && (forall blanked :: Blanks(line[i..colon], blanked) ==> lex.isProvenance(blanked))
    && ClosesOnlyItsOwn(line[next..])
  }

  lemma SkipsMeaning(line: string, from: nat, to: nat)
    requires from <= |line|
    ensures SkipsBlanks(line, from, to) <==> to == AfterBlanks(line, from)
  {
  }

  lemma MarkerMeaning(line: string, i: nat)
    ensures MarkerEnds(line, i) <==> i == AfterMarker(line)
  {
    var a := AfterBlanks(line, 0);
    assert forall b: nat :: SkipsBlanks(line, 0, b) <==> b == a;
    if Has(line, a, '#') {
      SkipsMeaning(line, a + 1, i);
    }
    hide SkipsBlanks;
  }

  lemma OpenerMeaning(line: string, i: nat, j: nat)
    requires i <= |line|
    ensures OpenerEnds(line, i, j) <==> j == AfterOpener(line, i)
  {
    if i + 3 <= |line| {
      SkipsMeaning(line, i + 3, j);
    }
    if i + 4 <= |line| {
      SkipsMeaning(line, i + 4, j);
    }
    hide SkipsBlanks;
  }

  lemma NumberMeaning(lex: Lexicon, line: string, i: nat, d: nat)
    requires i <= |line|
    ensures NumberAt(lex, line, i, d) <==>
      && d == AfterDigits(lex, line, i) && i < d && d + 1 < |line| && EndsNumber(line[d]) && line[d + 1] == ' '
  {
    forall k | 0 <= k < |line| ensures IsDecimal(line[k]) <==> '0' <= line[k] <= '9' {
      DecimalMeaning(line[k]);
    }
    hide IsDecimal;
    assert d < |line| && EndsNumber(line[d]) ==> !lex.IsDigit(line[d]);
  }

  lemma ListMarkMeaning(lex: Lexicon, line: string, i: nat, j: nat)
    requires i <= |line|
    ensures ListMarkEnds(lex, line, i, j) <==> j == AfterListMarker(lex, line, i)
  {
    var d := AfterDigits(lex, line, i);
    forall e: nat | NumberAt(lex, line, i, e)
      ensures e == d
    {
      NumberMeaning(lex, line, i, e);
    }
    NumberMeaning(lex, line, i, d);
    if d < |line| {
      SkipsMeaning(line, d + 1, j);
    }
    if i < |line| {
      SkipsMeaning(line, i + 1, j);
    }
    hide SkipsBlanks, NumberAt, AfterDigits, AfterBlanks;
  }

  lemma LeadPartsMeaning(lex: Lexicon, line: string, a: nat, b: nat, c: nat, i: nat)
    ensures LeadParts(lex, line, a, b, c, i) <==>
      && a == AfterMarker(line) && b == AfterOpener(line, a) && c == AfterListMarker(lex, line, b)
      && i == LeadEnd(lex, line)
  {
    hide MarkerEnds, OpenerEnds, ListMarkEnds, AfterMarker, AfterOpener, AfterListMarker;
    MarkerMeaning(line, a);
    if a == AfterMarker(line) {
      OpenerMeaning(line, a, b);
      if b == AfterOpener(line, a) {
        ListMarkMeaning(lex, line, b, c);
      }
    }
  }

  /** Each line has one lead. */
  lemma LeadMeaning(lex: Lexicon, line: string, i: nat)
    ensures LeadEnds(lex, line, i) <==> i == LeadEnd(lex, line)
  {
    forall a: nat, b: nat, c: nat | LeadParts(lex, line, a, b, c, i)
      ensures i == LeadEnd(lex, line)
    {
      LeadPartsMeaning(lex, line, a, b, c, i);
    }
    var a := AfterMarker(line);
    var b := AfterOpener(line, a);
    LeadPartsMeaning(lex, line, a, b, AfterListMarker(lex, line, b), i);
    hide LeadParts, LeadEnd, AfterMarker, AfterOpener, AfterListMarker;
  }

  lemma MoreText(line: string, from: nat, pos: nat, to: nat)
    requires from <= pos <= to <= |line| && Unmatched(line[from..to]).closes == 0
    ensures Unmatched(line[from..pos]).closes == 0
  {
    hide Unmatched;
    assert line[from..pos] + line[pos..to] == line[from..to];
    UnmatchedConcat(line[from..pos], line[pos..to]);
  }

  /** The scan finds the colon that ends the label. */
  lemma {:induction false} ColonIsFound(line: string, from: nat, pos: nat, depth: nat, colon: nat)
    requires from <= pos <= colon < |line| && line[colon] == ':'
    requires Unmatched(line[from..colon]) == BALANCED && Unmatched(line[from..pos]) == Parens(0, depth)
    requires forall k :: pos <= k < colon && line[k] == ':' ==> Unmatched(line[from..k]) != BALANCED
    requires colon + 1 == |line| || IsBlank(line[colon + 1])
    ensures LabelColon(line, pos, depth) == Some(colon)
    decreases colon - pos
  {
    hide Unmatched;
    if pos < colon {
      UnmatchedStep(line, from, pos);
      MoreText(line, from, pos + 1, colon);
      ColonIsFound(line, from, pos + 1, Unmatched(line[from..pos + 1]).opens, colon);
    }
  }

  lemma ColonMeaning(line: string, i: nat, colon: nat)
    requires i <= |line|
    ensures LabelEnds(line, i, colon) <==> LabelColon(line, i, 0) == Some(colon)
  {
    forall k | i <= k <= |line|
      ensures Unmatched(line[i..k]) == BALANCED <==> IsBalanced(line[i..k])
    {
      ParensMeaning(line[i..k]);
    }
    hide IsBalanced;
    assert line[i..i] == "" && Unmatched("") == BALANCED;
    if LabelEnds(line, i, colon) {
      ColonIsFound(line, i, i, 0, colon);
    }
    if LabelColon(line, i, 0) == Some(colon) {
      LabelIsBalanced(line, i, i, 0);
      hide Unmatched;
    }
  }

  lemma BlanksMeaning(text: string, blanked: string)
    ensures Blanks(text, blanked) <==> blanked == WithoutParens(text)
  {
  }

  lemma ProvenanceMeaning(lex: Lexicon, text: string)
    ensures (forall blanked :: Blanks(text, blanked) ==> lex.isProvenance(blanked)) <==> lex.isProvenance(WithoutParens(text))
  {
    forall blanked | Blanks(text, blanked)
      ensures blanked == WithoutParens(text)
    {
      BlanksMeaning(text, blanked);
    }
    BlanksMeaning(text, WithoutParens(text));
  }

  /** A label is removed exactly when the line carries it. */
  lemma LabelMeaning(lex: Lexicon, line: string, i: nat, colon: nat, next: nat)
    ensures CarriesLabel(lex, line, i, colon, next) <==>
      && RemovableLabel(lex, line).Some? && i == LeadEnd(lex, line) && LabelColon(line, i, 0) == Some(colon)
      && next == AfterBlanks(line, colon + 1)
  {
    hide LeadEnds, LabelEnds, SkipsBlanks, Blanks, ClosesOnlyItsOwn, LeadEnd, LabelColon, AfterBlanks, WithoutParens, Unmatched;
    LeadMeaning(lex, line, i);
    if i == LeadEnd(lex, line) {
      ColonMeaning(line, i, colon);
      if LabelColon(line, i, 0) == Some(colon) {
        SkipsMeaning(line, colon + 1, next);
        if next == AfterBlanks(line, colon + 1) {
          ProvenanceMeaning(lex, line[i..colon]);
          ParensMeaning(line[next..]);
        }
      }
    }
  }

  // ---------------------------------------------------------------- parentheticals

  /** A provenance-only parenthetical stands at `line[start..end]`. */
  ghost predicate TagAt(lex: Lexicon, line: string, start: nat, end: nat) {
    && start + 2 <= end <= |line|
    && line[start] == '(' && line[end - 1] == ')'
    && (forall k :: start < k < end - 1 ==> line[k] != '(' && line[k] != ')')
    && lex.isProvenance(line[start + 1..end - 1])
  }

  /** With the parenthetical at `start` goes `line[from..start]`: all spaces before
      it, but nothing of the indentation of a line it starts. */
  ghost predicate CutsFrom(line: string, start: nat, from: nat) {
    && from <= start <= |line|
    && if forall k :: 0 <= k < start ==> IsSpace(line[k]) then from == start
       else (forall k :: from <= k < start ==> line[k] == ' ') && (from > 0 ==> line[from - 1] != ' ')
  }

  ghost predicate RemovedWith(lex: Lexicon, line: string, k: nat, start: nat, end: nat) {
    TagAt(lex, line, start, end) && k < end && exists from: nat :: from <= k && CutsFrom(line, start, from)
  }

  /** The character at `k` goes with a provenance-only parenthetical. */
  ghost predicate IsRemoved(lex: Lexicon, line: string, k: nat) {
    exists start: nat, end: nat :: RemovedWith(lex, line, k, start, end)
  }

  ghost predicate KeepsAt(lex: Lexicon, line: string, result: string, kept: seq<nat>) {
    && Embeds(result, line, kept)
    && forall k: nat :: k < |line| ==> (k in kept <==> !IsRemoved(lex, line, k))
  }

  /** `result` is `line` without exactly the characters to be removed. */
  ghost predicate KeepsTheRest(lex: Lexicon, line: string, result: string) {
    exists kept :: KeepsAt(lex, line, result, kept)
  }

  lemma {:induction false} DroppedSpacesMeaning(line: string, start: nat)
    requires start <= |line|
    ensures AfterDroppedSpaces(line, start) > 0 ==> line[AfterDroppedSpaces(line, start) - 1] != ' '
  {
    if start > 0 && line[start - 1] == ' ' {
      DroppedSpacesMeaning(line, start - 1);
    }
  }

  lemma BlankMeaning(s: string)
    ensures Strip(s) == "" <==> forall k :: 0 <= k < |s| ==> IsSpace(s[k])
  {
    hide IsSpace;
    var r := RStrip(s);
    if Strip(s) == "" {
      assert r[..|r| - |LStrip(r)|] == r;
      assert forall k :: |r| <= k < |s| ==> s[k] == s[|r|..][k - |r|];
    } else {
      assert LStrip(r)[0] == s[|r| - |LStrip(r)|];
    }
  }

  lemma CutMeaning(line: string, start: nat, from: nat)
    requires start <= |line|
    ensures CutsFrom(line, start, from) <==> from == CutStart(line, start)
  {
    hide IsSpace, Strip, AfterDroppedSpaces;
    BlankMeaning(line[..start]);
    assert forall k :: 0 <= k < start ==> line[..start][k] == line[k];
    DroppedSpacesMeaning(line, start);
  }

  lemma CutStartOfPrefix(line: string, other: string, start: nat)
    requires start <= |line| && start <= |other| && line[..start] == other[..start]
    ensures CutStart(line, start) == CutStart(other, start)
  {
    var from := CutStart(line, start);
    CutMeaning(line, start, from);
    assert forall k :: 0 <= k < start ==> line[..start][k] == line[k] && other[..start][k] == other[k];
    assert CutsFrom(other, start, from);
    CutMeaning(other, start, from);
  }

  /** The character at `k` goes with one of `ms`. */
  ghost predicate GoesWith(lex: Lexicon, line: string, ms: seq<Span>, k: nat) {
    exists m :: m in ms && GoesWithOne(lex, line, m, k)
  }

  ghost predicate GoesWithOne(lex: Lexicon, line: string, m: Span, k: nat) {
    IsInnermost(line, m) && lex.isProvenance(Inner(line, m)) && CutStart(line, m.start) <= k < m.end
  }

  lemma GoesWithMore(lex: Lexicon, line: string, init: seq<Span>, last: Span, k: nat)
    ensures GoesWith(lex, line, init + [last], k) <==> GoesWith(lex, line, init, k) || GoesWithOne(lex, line, last, k)
  {
    hide GoesWithOne;
    assert last in init + [last];
    assert forall m :: m in init + [last] <==> m in init || m == last;
  }

  lemma GoesAfterDropOne(lex: Lexicon, line: string, last: Span, m: Span, k: nat)
    requires IsInnermost(line, last) && IsInnermost(line, m) && m.end <= last.start
    ensures GoesWithOne(lex, DropOne(line, last), m, k) <==> GoesWithOne(lex, line, m, k)
    ensures m.end <= CutStart(line, last.start)
  {
    var cut := DropOne(line, last);
    DropOneKeepsLeft(line, last, m);
    assert m.end <= CutStart(line, last.start);
    assert line[..m.start] == cut[..m.start];
    CutStartOfPrefix(line, cut, m.start);
    hide IsInnermost, CutStart, Inner;
  }

  /** Deleting the last parenthetical changes nothing for those to its left. */
  lemma GoesAfterDrop(lex: Lexicon, line: string, last: Span, init: seq<Span>, k: nat)
    requires IsInnermost(line, last)
    requires forall i :: 0 <= i < |init| ==> IsInnermost(line, init[i]) && init[i].end <= last.start
    ensures GoesWith(lex, DropOne(line, last), init, k) <==> GoesWith(lex, line, init, k)
    ensures GoesWith(lex, line, init, k) ==> k < CutStart(line, last.start)
  {
    forall m | m in init
      ensures GoesWithOne(lex, DropOne(line, last), m, k) <==> GoesWithOne(lex, line, m, k)
      ensures GoesWithOne(lex, line, m, k) ==> k < CutStart(line, last.start)
    {
      GoesAfterDropOne(lex, line, last, m, k);
    }
    hide GoesWithOne, IsInnermost, CutStart;
  }

  /** The positions kept after a cut, as positions of the line. */
  function Reopened(kept: seq<nat>, from: nat, to: nat): (places: seq<nat>)
    requires from <= to
  {
    seq(|kept|, i requires 0 <= i < |kept| => if kept[i] < from then kept[i] else kept[i] + to - from)
  }

  lemma ReopenedPlace(kept: seq<nat>, from: nat, to: nat, k: nat)
    requires from <= to
    ensures k in Reopened(kept, from, to) <==> if k < from then k in kept else k >= to && k - (to - from) in kept
  {
    var places := Reopened(kept, from, to);
    if k < from && k in kept {
      var i :| 0 <= i < |kept| && kept[i] == k;
      assert places[i] == k;
    } else if k >= to && k - (to - from) in kept {
      var i :| 0 <= i < |kept| && kept[i] == k - (to - from);
      assert places[i] == k;
    }
  }

  lemma ReopenedEmbeds(part: string, line: string, from: nat, to: nat, kept: seq<nat>)
    requires from <= to <= |line| && Embeds(part, line[..from] + line[to..], kept)
    ensures Embeds(part, line, Reopened(kept, from, to))
  {
    var cut := line[..from] + line[to..];
    assert forall k :: 0 <= k < |cut| ==> cut[k] == if k < from then line[k] else line[k + to - from];
  }

  lemma KeptOfStep(lex: Lexicon, line: string, init: seq<Span>, last: Span, cut: seq<nat>, kept: seq<nat>, k: nat)
    requires IsInnermost(line, last) && lex.isProvenance(Inner(line, last)) && k < |line|
    requires forall i :: 0 <= i < |init| ==> IsInnermost(line, init[i]) && init[i].end <= last.start
    requires var from := CutStart(line, last.start);
      k in kept <==> if k < from then k in cut else k >= last.end && k - (last.end - from) in cut
    requires forall j: nat :: j < |DropOne(line, last)| ==> (j in cut <==> !GoesWith(lex, DropOne(line, last), init, j))
    ensures k in kept <==> !GoesWith(lex, line, init + [last], k)
  {
    hide GoesWith, CutStart;
    GoesWithMore(lex, line, init, last, k);
    GoesAfterDrop(lex, line, last, init, k);
    if k >= last.end {
      var j := k - (last.end - CutStart(line, last.start));
      GoesAfterDrop(lex, line, last, init, j);
    }
  }

  lemma PassStep(lex: Lexicon, line: string, init: seq<Span>, last: Span, rest: string, cut: seq<nat>)
    returns (kept: seq<nat>)
    requires IsInnermost(line, last) && lex.isProvenance(Inner(line, last))
    requires forall i :: 0 <= i < |init| ==> IsInnermost(line, init[i]) && init[i].end <= last.start
    requires Embeds(rest, DropOne(line, last), cut)
    requires forall j: nat :: j < |DropOne(line, last)| ==> (j in cut <==> !GoesWith(lex, DropOne(line, last), init, j))
    ensures Embeds(rest, line, kept)
    ensures forall k: nat :: k < |line| ==> (k in kept <==> !GoesWith(lex, line, init + [last], k))
  {
    var from := CutStart(line, last.start);
    ReopenedEmbeds(rest, line, from, last.end, cut);
    kept := Reopened(cut, from, last.end);
    hide GoesWith, Embeds, Reopened, IsInnermost, CutStart;
    forall k: nat | k < |line|
      ensures k in kept <==> !GoesWith(lex, line, init + [last], k)
    {
      ReopenedPlace(cut, from, last.end, k);
      KeptOfStep(lex, line, init, last, cut, kept, k);
    }
  }

  /** One pass keeps the characters that go with none of its parentheticals. */
  lemma {:induction false} PassKeeps(lex: Lexicon, line: string, ms: seq<Span>) returns (kept: seq<nat>)
    requires forall i :: 0 <= i < |ms| ==> IsInnermost(line, ms[i])
    requires Ascending(ms, 0)
    ensures Embeds(DropPass(lex, line, ms), line, kept)
    ensures forall k: nat :: k < |line| ==> (k in kept <==> !GoesWith(lex, line, ms, k))
    decreases |ms|
  {
    hide IsInnermost, CutStart;
    if ms == [] {
      kept := seq(|line|, i => i);
      forall k: nat | k < |line|
        ensures k in kept
      {
        assert kept[k] == k;
      }
    } else {
      hide Embeds, GoesWith;
      var last, init := ms[|ms| - 1], ms[..|ms| - 1];
      assert ms == init + [last];
      if lex.isProvenance(Inner(line, last)) {
        DropOneKeepsAll(line, last, init);
        var cut := PassKeeps(lex, DropOne(line, last), init);
        kept := PassStep(lex, line, init, last, DropPass(lex, DropOne(line, last), init), cut);
      } else {
        kept := PassKeeps(lex, line, init);
        forall k: nat
          ensures GoesWith(lex, line, ms, k) <==> GoesWith(lex, line, init, k)
        {
          GoesWithMore(lex, line, init, last, k);
        }
      }
    }
  }

  lemma RemovedWithMeaning(lex: Lexicon, line: string, k: nat, m: Span)
    ensures RemovedWith(lex, line, k, m.start, m.end) <==> GoesWithOne(lex, line, m, k)
  {
    assert TagAt(lex, line, m.start, m.end) <==> IsInnermost(line, m) && lex.isProvenance(Inner(line, m));
    if m.start <= |line| {
      forall from: nat
        ensures CutsFrom(line, m.start, from) <==> from == CutStart(line, m.start)
      {
        CutMeaning(line, m.start, from);
      }
      hide TagAt, IsInnermost, CutStart, CutsFrom;
      assert CutsFrom(line, m.start, CutStart(line, m.start));
    }
  }

  lemma RemovedMeaning(lex: Lexicon, line: string, k: nat)
    ensures IsRemoved(lex, line, k) <==> GoesWith(lex, line, InnermostFrom(line, 0), k)
  {
    forall m: Span
      ensures RemovedWith(lex, line, k, m.start, m.end) <==> GoesWithOne(lex, line, m, k)
      ensures GoesWithOne(lex, line, m, k) ==> m in InnermostFrom(line, 0)
    {
      RemovedWithMeaning(lex, line, k, m);
      if GoesWithOne(lex, line, m, k) {
        InnermostComplete(line, 0, m);
      }
    }
    hide RemovedWith, GoesWithOne, InnermostFrom;
    if IsRemoved(lex, line, k) {
      var start: nat, end: nat :| RemovedWith(lex, line, k, start, end);
      assert GoesWithOne(lex, line, Span(start, end), k);
    }
  }

  /** A pass removes the provenance-only parentheticals with the spaces before them, and nothing else. */
  lemma PassMeaning(lex: Lexicon, line: string)
    ensures KeepsTheRest(lex, line, DropPass(lex, line, InnermostFrom(line, 0)))
  {
    var kept := PassKeeps(lex, line, InnermostFrom(line, 0));
    forall k: nat
      ensures IsRemoved(lex, line, k) <==> GoesWith(lex, line, InnermostFrom(line, 0), k)
    {
      RemovedMeaning(lex, line, k);
    }
    hide IsRemoved, GoesWith, DropPass, InnermostFrom, Embeds;
    assert KeepsAt(lex, line, DropPass(lex, line, InnermostFrom(line, 0)), kept);
  }

  // ---------------------------------------------------------------- lines

  ghost predicate HasTag(lex: Lexicon, line: string) {
    exists start: nat, end: nat :: TagAt(lex, line, start, end)
  }

  /** A pass that finds something to remove. */
  ghost predicate LosesTags(lex: Lexicon, line: string, after: string) {
    HasTag(lex, line) && KeepsTheRest(lex, line, after)
  }

  ghost predicate HasLabel(lex: Lexicon, line: string) {
    exists i: nat, colon: nat, next: nat :: CarriesLabel(lex, line, i, colon, next)
  }

  /** One label is removed, with its colon and the blanks behind it. */
  ghost predicate LosesLabel(lex: Lexicon, line: string, after: string) {
    exists i: nat, colon: nat, next: nat :: LosesLabelAt(lex, line, after, i, colon, next)
  }

  ghost predicate LosesLabelAt(lex: Lexicon, line: string, after: string, i: nat, colon: nat, next: nat) {
    CarriesLabel(lex, line, i, colon, next) && i <= next <= |line| && after == line[..i] + line[next..]
  }

  /** The text of the line starts at `i`. */
  ghost predicate TextStarts(line: string, i: nat) {
    exists a: nat :: MarkerEnds(line, a) && if QuotesAt(line, a) then SkipsBlanks(line, a + 3, i) else i == a
  }

  /** The text of the line starts with a stray colon at `i`, and goes on at `next`. */
  ghost predicate StrayColon(line: string, i: nat, next: nat) {
    && TextStarts(line, i) && Has(line, i, ':')
    && (i + 1 < |line| ==> line[i + 1] == ' ' || line[i + 1] == '\t')
    && SkipsBlanks(line, i + 1, next)
  }

  /** `after` is `line` without a stray colon, if it has one. */
  ghost predicate LosesColon(line: string, after: string) {
    if exists i: nat, next: nat :: StrayColon(line, i, next)
    then exists i: nat, next: nat :: StrayColon(line, i, next) && i <= next <= |line| && after == line[..i] + line[next..]
    else after == line
  }

  /** The only character of the line that is no white space is a "#" at `k`. */
  ghost predicate OnlyHash(line: string, k: nat) {
    Has(line, k, '#') && forall j :: 0 <= j < |line| && j != k ==> IsSpace(line[j])
  }

  /** The passes over the line, until nothing is left to remove. */
  ghost predicate IsTagChain(lex: Lexicon, line: string, tags: seq<string>) {
    && tags != [] && tags[0] == line
    && (forall n :: 0 < n < |tags| ==> LosesTags(lex, tags[n - 1], tags[n]))
    && !HasTag(lex, tags[|tags| - 1])
  }

  /** The labels removed one by one, until none is left. */
  ghost predicate IsLabelChain(lex: Lexicon, line: string, labels: seq<string>) {
    && labels != [] && labels[0] == line
    && (forall n :: 0 < n < |labels| ==> LosesLabel(lex, labels[n - 1], labels[n]))
    && !HasLabel(lex, labels[|labels| - 1])
  }

  /** `after` is `line` without what is behind a lonely "#". */
  ghost predicate LosesBlanks(line: string, after: string) {
    if exists k: nat :: OnlyHash(line, k) then exists k: nat :: OnlyHash(line, k) && after == line[..k + 1]
    else after == line
  }

  /** The line goes through `tags`, then, if any were removed, loses a stray colon, then goes
      through `labels`, then loses the blanks behind a lonely "#". */
  ghost predicate CleansThrough(lex: Lexicon, line: string, tags: seq<string>, labels: seq<string>, cleaned: string) {
    && IsTagChain(lex, line, tags)
    && labels != [] && IsLabelChain(lex, labels[0], labels)
    && (if |tags| == 1 then labels[0] == line else LosesColon(tags[|tags| - 1], labels[0]))
    && LosesBlanks(labels[|labels| - 1], cleaned)
  }

  lemma TagMeaning(lex: Lexicon, line: string)
    ensures HasTag(lex, line) <==> !NoProvenanceParenthetical(lex, line)
  {
    if HasTag(lex, line) {
      var start: nat, end: nat :| TagAt(lex, line, start, end);
      var m := Span(start, end);
      assert IsInnermost(line, m) && lex.isProvenance(Inner(line, m));
    } else {
      forall m | IsInnermost(line, m)
        ensures !lex.isProvenance(Inner(line, m))
      {
        assert !TagAt(lex, line, m.start, m.end);
      }
    }
  }

  lemma {:induction false} DropAllMeaning(lex: Lexicon, line: string) returns (tags: seq<string>)
    ensures IsTagChain(lex, line, tags) && tags[|tags| - 1] == DropAll(lex, line)
    ensures |tags| == 1 <==> DropAll(lex, line) == line
    decreases |line|
  {
    hide HasTag, KeepsTheRest, DropPass, NoProvenanceParenthetical;
    TagMeaning(lex, line);
    StableLine(lex, line);
    tags := [line];
    var next := DropPass(lex, line, InnermostFrom(line, 0));
    if |next| < |line| {
      PassMeaning(lex, line);
      var rest := DropAllMeaning(lex, next);
      tags := [line] + rest;
      DropAllShortens(lex, line);
    }
  }

  lemma HasLabelMeaning(lex: Lexicon, line: string)
    ensures HasLabel(lex, line) <==> RemovableLabel(lex, line).Some?
  {
    forall i: nat, colon: nat, next: nat
      ensures CarriesLabel(lex, line, i, colon, next) ==> RemovableLabel(lex, line).Some?
    {
      LabelMeaning(lex, line, i, colon, next);
    }
    if RemovableLabel(lex, line).Some? {
      var i := LeadEnd(lex, line);
      var colon := LabelColon(line, i, 0).value;
      LabelMeaning(lex, line, i, colon, AfterBlanks(line, colon + 1));
    }
    hide CarriesLabel, RemovableLabel;
  }

  lemma LosesMeaning(lex: Lexicon, line: string, parts: Label)
    requires RemovableLabel(lex, line) == Some(parts)
    ensures LosesLabel(lex, line, parts.lead + parts.rest)
  {
    hide CarriesLabel, LeadEnd, LabelColon, AfterBlanks;
    var i := LeadEnd(lex, line);
    var colon := LabelColon(line, i, 0).value;
    var next := AfterBlanks(line, colon + 1);
    assert parts.lead + parts.rest == line[..i] + line[next..];
    LabelMeaning(lex, line, i, colon, next);
    assert LosesLabelAt(lex, line, line[..i] + line[next..], i, colon, next);
  }

  lemma {:induction false} DropLabelsMeaning(lex: Lexicon, line: string) returns (labels: seq<string>)
    ensures IsLabelChain(lex, line, labels) && labels[|labels| - 1] == DropLabels(lex, line)
    decreases |line|
  {
    hide HasLabel, LosesLabel;
    HasLabelMeaning(lex, line);
    labels := [line];
    match RemovableLabel(lex, line)
    case None =>
    case Some(parts) =>
      LosesMeaning(lex, line, parts);
      var rest := DropLabelsMeaning(lex, parts.lead + parts.rest);
      labels := [line] + rest;
  }

  lemma TextStartMeaning(line: string, i: nat)
    ensures TextStarts(line, i) <==> i == TextStart(line)
  {
    forall a: nat
      ensures MarkerEnds(line, a) <==> a == AfterMarker(line)
    {
      MarkerMeaning(line, a);
    }
    var a := AfterMarker(line);
    if a + 3 <= |line| {
      SkipsMeaning(line, a + 3, i);
    }
    hide MarkerEnds, SkipsBlanks, AfterMarker;
    assert MarkerEnds(line, a);
  }

  lemma StrayColonMeaning(line: string, i: nat, next: nat)
    ensures StrayColon(line, i, next) <==>
      && i == TextStart(line) && i < |line| && line[i] == ':' && (i + 1 == |line| || IsBlank(line[i + 1]))
      && next == AfterBlanks(line, i + 1)
  {
    TextStartMeaning(line, i);
    if i < |line| {
      SkipsMeaning(line, i + 1, next);
    }
    hide TextStarts, SkipsBlanks, TextStart;
  }

  lemma ColonDropMeaning(line: string)
    ensures LosesColon(line, DropLeadingColon(line))
  {
    forall i: nat, next: nat
      ensures StrayColon(line, i, next) <==>
        && i == TextStart(line) && i < |line| && line[i] == ':' && (i + 1 == |line| || IsBlank(line[i + 1]))
        && next == AfterBlanks(line, i + 1)
    {
      StrayColonMeaning(line, i, next);
    }
    hide StrayColon, TextStart;
    var i := TextStart(line);
    if i < |line| {
      assert StrayColon(line, i, AfterBlanks(line, i + 1)) || DropLeadingColon(line) == line;
    }
  }

  lemma HashIsText()
    ensures !IsSpace('#')
  {
  }

  lemma HashIsLast(line: string, k: nat)
    requires OnlyHash(line, k)
    ensures |RStrip(line)| == k + 1 && Strip(line) == "#"
  {
    hide IsSpace;
    HashIsText();
    var r := RStrip(line);
    assert forall j :: |r| <= j < |line| ==> line[|r|..][j - |r|] == line[j];
    assert r[|r| - 1] == line[|r| - 1];
    var l := LStrip(r);
    assert r[..|r| - |l|] == r[..k];
  }

  lemma LastIsHash(line: string)
    requires Strip(line) == "#"
    ensures RStrip(line) != "" && OnlyHash(line, |RStrip(line)| - 1)
  {
    hide IsSpace;
    var r := RStrip(line);
    forall j | 0 <= j < |line| && j != |r| - 1
      ensures IsSpace(line[j])
    {
      if j < |r| {
        assert r[..|r| - 1][j] == line[j];
      } else {
        assert line[|r|..][j - |r|] == line[j];
      }
    }
  }

  lemma TrimMeaning(line: string)
    ensures (exists k: nat :: OnlyHash(line, k)) <==> Strip(line) == "#"
    ensures LosesBlanks(line, TrimEmptyComment(line))
  {
    if k: nat :| OnlyHash(line, k) {
      HashIsLast(line, k);
    }
    if Strip(line) == "#" {
      LastIsHash(line);
      assert line[..|RStrip(line)| - 1 + 1] == RStrip(line);
    }
  }

  /** `clean_text` takes exactly the attribution out of each line: the
      provenance-only parentheticals pass by pass, the colon they leave in
      front, the leading labels one by one, and the white space around a "#"
      that is all that is left. */
  lemma CleanLineMeaning(lex: Lexicon, line: string) returns (tags: seq<string>, labels: seq<string>)
    ensures CleansThrough(lex, line, tags, labels, CleanLine(lex, line))
  {
    hide DropAll, DropLabels, DropLeadingColon, TrimEmptyComment, IsTagChain, LosesColon, LosesBlanks;
    var without := DropAll(lex, line);
    var tagless := if without != line then DropLeadingColon(without) else without;
    tags := DropAllMeaning(lex, line);
    ColonDropMeaning(without);
    labels := DropLabelsMeaning(lex, tagless);
    TrimMeaning(DropLabels(lex, tagless));
    TagsNotEmpty(lex, line, tags);
    hide HasLabel, LosesLabel;
  }

  lemma TagsNotEmpty(lex: Lexicon, line: string, tags: seq<string>)
    requires IsTagChain(lex, line, tags)
    ensures tags != []
  {
  }

  /** A line is left alone exactly when no parenthetical and no label of it is
      removable and no white space follows a lonely "#". */
  lemma UntouchedMeaning(lex: Lexicon, line: string)
    ensures CleanLine(lex, line) == line <==>
      && !HasTag(lex, line) && !HasLabel(lex, line)
      && forall k: nat :: OnlyHash(line, k) ==> |line| == k + 1
  {
    CleanLineFixpoint(lex, line);
    TagMeaning(lex, line);
    HasLabelMeaning(lex, line);
    TrimMeaning(line);
    forall k: nat | OnlyHash(line, k)
      ensures |RStrip(line)| == k + 1
    {
      HashIsLast(line, k);
    }
    hide HasTag, HasLabel, OnlyHash, NoProvenanceParenthetical;
  }
}
