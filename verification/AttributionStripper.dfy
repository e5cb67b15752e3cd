/** The line rewriter of `scripts/strip_review_attribution.py`: provenance-only
    parentheticals and leading provenance labels are deleted from a text. */
module AttributionStripper {
  import opened Sequences
  import opened PythonText
  import opened Wrappers

  /** The two tables the rewriter consults: which non-ASCII characters
      `str.isdigit` accepts and which fragments are provenance only. */
  datatype Lexicon = Lexicon(otherDigit: char -> bool, isProvenance: string -> bool) {
    predicate IsDigit(c: char) {
      '0' <= c <= '9' || (c as int >= 128 && otherDigit(c))
    }
  }

  /** Half-open range of positions. */
  datatype Span = Span(start: nat, end: nat)

  // ---------------------------------------------------------------- parentheses

  /** What a piece of text leaves open: closing parentheses with no opener in
      it, and openers it does not close. */
  datatype Parens = Parens(closes: nat, opens: nat)

  const BALANCED := Parens(0, 0)

  function AfterChar(p: Parens, c: char): Parens {
    if c == '(' then p.(opens := p.opens + 1)
    else if c != ')' then p
    else if p.opens > 0 then p.(opens := p.opens - 1)
    else p.(closes := p.closes + 1)
  }

  /** Unmatched parentheses of `s`. */
  function Unmatched(s: string): Parens {
    if s == "" then BALANCED else AfterChar(Unmatched(s[..|s| - 1]), s[|s| - 1])
  }

  function Join(p: Parens, q: Parens): Parens {
    if p.opens >= q.closes then Parens(p.closes, p.opens - q.closes + q.opens)
    else Parens(p.closes + q.closes - p.opens, q.opens)
  }

  lemma {:induction false} UnmatchedConcat(a: string, b: string)
    ensures Unmatched(a + b) == Join(Unmatched(a), Unmatched(b))
  {
    if b == "" {
      assert a + b == a;
    } else {
      var init := b[..|b| - 1];
      assert (a + b)[..|a + b| - 1] == a + init;
      UnmatchedConcat(a, init);
    }
  }

  /** No parenthesis stands in `line[from..to]`. */
  predicate ParenFree(line: string, from: nat, to: nat)
    requires to <= |line|
  {
    forall k :: from <= k < to ==> line[k] != '(' && line[k] != ')'
  }

  lemma {:induction false} ParenFreeTail(s: string, from: nat)
    requires from <= |s| && ParenFree(s, from, |s|)
    ensures Unmatched(s) == Unmatched(s[..from])
  {
    if from < |s| {
      ParenFreeTail(s[..|s| - 1], from);
      assert s[..|s| - 1][..from] == s[..from];
    } else {
      assert s[..from] == s;
    }
  }

  /** "..(..)" with no other parenthesis is balanced. */
  lemma ParenthesisedIsBalanced(s: string, open: nat)
    requires open + 1 < |s| && s[open] == '(' && s[|s| - 1] == ')'
    requires ParenFree(s, 0, open) && ParenFree(s, open + 1, |s| - 1)
    ensures Unmatched(s) == BALANCED
  {
    var init := s[..|s| - 1];
    ParenFreeTail(init, open + 1);
    var head := init[..open + 1];
    assert head[..open] == s[..open];
    ParenFreeTail(s[..open], 0);
    assert s[..open][..0] == "";
  }

  lemma DropMiddle(a: string, middle: string, b: string)
    requires Unmatched(middle) == BALANCED
    ensures Unmatched(a + b) == Unmatched(a + middle + b)
  {
    hide Unmatched;
    UnmatchedConcat(a, b);
    UnmatchedConcat(a, middle);
    UnmatchedConcat(a + middle, b);
  }

  /** Cutting a balanced piece out of a line leaves its unmatched parentheses alone. */
  lemma CutBalanced(line: string, from: nat, to: nat)
    requires from <= to <= |line|
    requires Unmatched(line[from..to]) == BALANCED
    ensures Unmatched(line[..from] + line[to..]) == Unmatched(line)
  {
    hide Unmatched;
    DropMiddle(line[..from], line[from..to], line[to..]);
    assert line == line[..from] + line[from..to] + line[to..];
  }

  /** A closing parenthesis that belongs to an earlier line. */
  method ClosesAnEarlierLine(text: string) returns (closes: bool)
    ensures closes <==> Unmatched(text).closes > 0
  {
    var depth := 0;
    for i := 0 to |text|
      invariant Unmatched(text[..i]) == Parens(0, depth)
    {
      assert text[..i + 1][..i] == text[..i];
      if text[i] == '(' {
        depth := depth + 1;
      } else if text[i] == ')' {
        if depth == 0 {
          UnmatchedConcat(text[..i + 1], text[i + 1..]);
          assert text[..i + 1] + text[i + 1..] == text;
          return true;
        }
        depth := depth - 1;
      }
    }
    assert text[..|text|] == text;
    return false;
  }

  // ---------------------------------------------------------------- scanning

  predicate IsBlank(c: char) {
    c == ' ' || c == '\t'
  }

  /** The first position at or after `i` that is not a space or tab. */
  function AfterBlanks(line: string, i: nat): (r: nat)
    requires i <= |line|
    ensures i <= r <= |line|
    ensures forall k :: i <= k < r ==> IsBlank(line[k])
    ensures r < |line| ==> !IsBlank(line[r])
    decreases |line| - i
  {
    if i < |line| && IsBlank(line[i]) then AfterBlanks(line, i + 1) else i
  }

  method SkipSpaces(line: string, i: nat) returns (r: nat)
    requires i <= |line|
    ensures r == AfterBlanks(line, i)
  {
    r := i;
    while r < |line| && IsBlank(line[r])
      invariant i <= r <= |line|
      invariant AfterBlanks(line, i) == AfterBlanks(line, r)
    {
      r := r + 1;
    }
  }

  /** The first position at or after `i` that is not a digit. */
  function AfterDigits(lex: Lexicon, line: string, i: nat): (r: nat)
    requires i <= |line|
    ensures i <= r <= |line|
    ensures forall k :: i <= k < r ==> lex.IsDigit(line[k])
    ensures r < |line| ==> !lex.IsDigit(line[r])
    decreases |line| - i
  {
    if i < |line| && lex.IsDigit(line[i]) then AfterDigits(lex, line, i + 1) else i
  }

  predicate IsStringPrefix(c: char) {
    c == 'r' || c == 'R' || c == 'b' || c == 'B' || c == 'u' || c == 'U'
  }

  predicate EndsNumber(c: char) {
    c == '.' || c == ')'
  }

  predicate IsBullet(c: char) {
    c == '-' || c == '*'
  }

  predicate IsBold(line: string, i: nat) {
    i + 2 <= |line| && line[i] == '*' && line[i + 1] == '*'
  }

  /** A triple quote stands at `i`. */
  predicate OpensDocstring(line: string, i: nat) {
    && i + 3 <= |line|
    && (line[i] == '\"' || line[i] == '\'')
    && line[i] == line[i + 1] == line[i + 2]
  }

  /** Where the text starts, after indentation and a comment marker. */
  function AfterMarker(line: string): (i: nat)
    ensures i <= |line| && ParenFree(line, 0, i)
  {
    var i := AfterBlanks(line, 0);
    if i < |line| && line[i] == '#' then AfterBlanks(line, i + 1) else i
  }

  function AfterQuotes(line: string, i: nat): (r: nat)
    requires i <= |line|
    ensures i <= r <= |line| && ParenFree(line, i, r)
  {
    if OpensDocstring(line, i) then AfterBlanks(line, i + 3) else i
  }

  /** After an optional string prefix letter and docstring opener. */
  function AfterOpener(line: string, i: nat): (r: nat)
    requires i <= |line|
    ensures i <= r <= |line| && ParenFree(line, i, r)
  {
    if i < |line| && IsStringPrefix(line[i]) && OpensDocstring(line, i + 1) then AfterQuotes(line, i + 1)
    else AfterQuotes(line, i)
  }

  /** After an optional list number ("1. ", "2) ") or bullet. */
  function AfterListMarker(lex: Lexicon, line: string, i: nat): (r: nat)
    requires i <= |line|
    ensures i <= r <= |line|
    ensures forall k :: i <= k < r ==> line[k] != '('
  {
    var k := AfterDigits(lex, line, i);
    if k > i && k + 1 < |line| && EndsNumber(line[k]) && line[k + 1] == ' ' then AfterBlanks(line, k + 1)
    else if i + 1 < |line| && IsBullet(line[i]) && line[i + 1] == ' ' then AfterBlanks(line, i + 1)
    else i
  }

  /** The end of the part of a line that is kept in front of a label. */
  function LeadEnd(lex: Lexicon, line: string): (i: nat)
    ensures i <= |line|
    ensures forall k :: 0 <= k < i ==> line[k] != '('
  {
    var i := AfterListMarker(lex, line, AfterOpener(line, AfterMarker(line)));
    if IsBold(line, i) then i + 2 else i
  }

  method SkipMarker(line: string) returns (i: nat)
    ensures i == AfterMarker(line)
  {
    i := SkipSpaces(line, 0);
    if i < |line| && line[i] == '#' {
      i := SkipSpaces(line, i + 1);
    }
  }

  method SkipOpener(line: string) returns (i: nat)
    ensures i == AfterOpener(line, AfterMarker(line))
  {
    i := SkipMarker(line);
    var j := if i < |line| && IsStringPrefix(line[i]) && OpensDocstring(line, i + 1) then i + 1 else i;
    if OpensDocstring(line, j) {
      i := SkipSpaces(line, j + 3);
    }
  }

  method SkipListMarker(lex: Lexicon, line: string, start: nat) returns (i: nat)
    requires start <= |line|
    ensures i == AfterListMarker(lex, line, start)
  {
    i := start;
    var k := i;
    while k < |line| && lex.IsDigit(line[k])
      invariant i <= k <= |line|
      invariant AfterDigits(lex, line, i) == AfterDigits(lex, line, k)
    {
      k := k + 1;
    }
    if k > i && k + 1 < |line| && EndsNumber(line[k]) && line[k + 1] == ' ' {
      i := SkipSpaces(line, k + 1);
    } else if i + 1 < |line| && IsBullet(line[i]) && line[i + 1] == ' ' {
      i := SkipSpaces(line, i + 1);
    }
  }

  /** The position of the colon that ends a label starting before `pos`, when
      `depth` parentheses are open there. */
  function LabelColon(line: string, pos: nat, depth: nat): (colon: Option<nat>)
    requires pos <= |line|
    ensures colon.Some? ==> pos <= colon.value < |line| && line[colon.value] == ':'
    ensures colon.Some? ==> colon.value + 1 == |line| || IsBlank(line[colon.value + 1])
    decreases |line| - pos
  {
    if pos == |line| then None
    else if line[pos] == '(' then LabelColon(line, pos + 1, depth + 1)
    else if line[pos] == ')' then
      if depth == 0 then None else LabelColon(line, pos + 1, depth - 1)
    else if line[pos] == ':' && depth == 0 then
      if pos + 1 == |line| || IsBlank(line[pos + 1]) then Some(pos) else None
    else LabelColon(line, pos + 1, depth)
  }

  lemma UnmatchedStep(line: string, from: nat, pos: nat)
    requires from <= pos < |line|
    ensures Unmatched(line[from..pos + 1]) == AfterChar(Unmatched(line[from..pos]), line[pos])
  {
    assert line[from..pos + 1][..pos - from] == line[from..pos];
  }

  /** The label is balanced, and no colon in it could have ended it earlier. */
  lemma {:induction false} LabelIsBalanced(line: string, from: nat, pos: nat, depth: nat)
    requires from <= pos <= |line|
    requires Unmatched(line[from..pos]) == Parens(0, depth)
    requires LabelColon(line, pos, depth).Some?
    ensures Unmatched(line[from..LabelColon(line, pos, depth).value]) == BALANCED
    ensures forall k :: pos <= k < LabelColon(line, pos, depth).value && line[k] == ':' ==>
      Unmatched(line[from..k]).opens > 0
    decreases |line| - pos
  {
    hide Unmatched;
    if pos < |line| && !(line[pos] == ':' && depth == 0) {
      UnmatchedStep(line, from, pos);
      LabelIsBalanced(line, from, pos + 1, Unmatched(line[from..pos + 1]).opens);
    }
  }

  /** `lead LABEL: rest` */
  datatype Label = Label(lead: string, text: string, rest: string)

  function LabelOf(lex: Lexicon, line: string): (r: Option<Label>)
    ensures r.Some? ==> |r.value.lead| + |r.value.rest| < |line|
  {
    var i := LeadEnd(lex, line);
    match LabelColon(line, i, 0)
    case None => None
    case Some(colon) => Some(Label(line[..i], line[i..colon], line[AfterBlanks(line, colon + 1)..]))
  }

  method ScanLabel(line: string, from: nat) returns (colon: Option<nat>)
    requires from <= |line|
    ensures colon == LabelColon(line, from, 0)
  {
    var depth := 0;
    for position := from to |line|
      invariant LabelColon(line, from, 0) == LabelColon(line, position, depth)
    {
      if line[position] == '(' {
        depth := depth + 1;
      } else if line[position] == ')' {
        if depth == 0 {
          return None;
        }
        depth := depth - 1;
      } else if line[position] == ':' && depth == 0 {
        return if position + 1 == |line| || IsBlank(line[position + 1]) then Some(position) else None;
      }
    }
    return None;
  }

  method FindLeadEnd(lex: Lexicon, line: string) returns (i: nat)
    ensures i == LeadEnd(lex, line)
  {
    i := SkipOpener(line);
    i := SkipListMarker(lex, line, i);
    if IsBold(line, i) {
      i := i + 2;
    }
  }

  method SplitLabel(lex: Lexicon, line: string) returns (r: Option<Label>)
    ensures r == LabelOf(lex, line)
  {
    var i := FindLeadEnd(lex, line);
    var colon := ScanLabel(line, i);
    if colon.None? {
      return None;
    }
    var next := SkipSpaces(line, colon.value + 1);
    return Some(Label(line[..i], line[i..colon.value], line[next..]));
  }

  // ---------------------------------------------------------------- parentheticals

  /** The position of the `)` that closes an opener before `k`, if no other
      parenthesis intervenes. */
  function CloseAt(line: string, k: nat): (r: Option<nat>)
    requires k <= |line|
    ensures r.Some? ==> k <= r.value < |line| && line[r.value] == ')' && ParenFree(line, k, r.value)
    decreases |line| - k
  {
    if k == |line| || line[k] == '(' then None
    else if line[k] == ')' then Some(k)
    else CloseAt(line, k + 1)
  }

  /** `line[m.start..m.end]` is a parenthetical with no parenthesis inside. */
  predicate IsInnermost(line: string, m: Span) {
    && m.start + 2 <= m.end <= |line|
    && line[m.start] == '(' && line[m.end - 1] == ')'
    && ParenFree(line, m.start + 1, m.end - 1)
  }

  function Inner(line: string, m: Span): string
    requires IsInnermost(line, m)
  {
    line[m.start + 1..m.end - 1]
  }

  predicate Ascending(spans: seq<Span>, from: nat) {
    && (forall i :: 0 <= i < |spans| ==> from <= spans[i].start)
    && (forall i, j :: 0 <= i < j < |spans| ==> spans[i].end <= spans[j].start)
  }

  /** All innermost parentheticals at or after `pos`, left to right. */
  function InnermostFrom(line: string, pos: nat): (ms: seq<Span>)
    requires pos <= |line|
    ensures forall i :: 0 <= i < |ms| ==> IsInnermost(line, ms[i])
    ensures Ascending(ms, pos)
    decreases |line| - pos
  {
    if pos == |line| then []
    else if line[pos] == '(' && CloseAt(line, pos + 1).Some? then
      var end := CloseAt(line, pos + 1).value + 1;
      [Span(pos, end)] + InnermostFrom(line, end)
    else InnermostFrom(line, pos + 1)
  }

  lemma {:induction false} CloseAtFinds(line: string, k: nat, close: nat)
    requires k <= close < |line| && line[close] == ')' && ParenFree(line, k, close)
    ensures CloseAt(line, k) == Some(close)
    decreases close - k
  {
    if k < close {
      CloseAtFinds(line, k + 1, close);
    }
  }

  /** The scan misses none. */
  lemma {:induction false} InnermostComplete(line: string, pos: nat, m: Span)
    requires pos <= m.start && IsInnermost(line, m)
    ensures m in InnermostFrom(line, pos)
    decreases |line| - pos
  {
    hide Ascending;
    if pos == m.start {
      CloseAtFinds(line, pos + 1, m.end - 1);
      assert InnermostFrom(line, pos)[0] == m;
    } else if line[pos] == '(' && CloseAt(line, pos + 1).Some? {
      var close := CloseAt(line, pos + 1).value;
      assert close < m.start;
      InnermostComplete(line, close + 1, m);
    } else {
      InnermostComplete(line, pos + 1, m);
    }
  }

  /** Where the deletion of a parenthetical at `start` begins: it takes the
      spaces before it, except the indentation of a line it starts. */
  function CutStart(line: string, start: nat): (r: nat)
    requires start <= |line|
    ensures r <= start
    ensures forall k :: r <= k < start ==> line[k] == ' '
  {
    if Strip(line[..start]) == "" then start else AfterDroppedSpaces(line, start)
  }

  function AfterDroppedSpaces(line: string, start: nat): (r: nat)
    requires start <= |line|
    ensures r <= start
    ensures forall k :: r <= k < start ==> line[k] == ' '
  {
    if start > 0 && line[start - 1] == ' ' then AfterDroppedSpaces(line, start - 1) else start
  }

  function DropOne(line: string, m: Span): (r: string)
    requires IsInnermost(line, m)
    ensures |r| < |line|
  {
    line[..CutStart(line, m.start)] + line[m.end..]
  }

  lemma DroppedIsBalanced(line: string, m: Span)
    requires IsInnermost(line, m)
    ensures Unmatched(line[CutStart(line, m.start)..m.end]) == BALANCED
  {
    hide Unmatched, CutStart;
    var from := CutStart(line, m.start);
    ParenthesisedIsBalanced(line[from..m.end], m.start - from);
  }

  lemma DropOneFacts(line: string, m: Span)
    requires IsInnermost(line, m)
    ensures IsSubsequence(DropOne(line, m), line)
    ensures Unmatched(DropOne(line, m)) == Unmatched(line)
  {
    CutIsSubsequence(line, CutStart(line, m.start), m.end);
    DroppedIsBalanced(line, m);
    CutBalanced(line, CutStart(line, m.start), m.end);
  }

  /** A parenthetical to the left of the cut is not touched by it. */
  lemma DropOneKeepsLeft(line: string, m: Span, left: Span)
    requires IsInnermost(line, m) && IsInnermost(line, left) && left.end <= m.start
    ensures IsInnermost(DropOne(line, m), left)
    ensures Inner(DropOne(line, m), left) == Inner(line, left)
  {
    assert left.end <= CutStart(line, m.start);
    assert forall k :: 0 <= k < left.end ==> DropOne(line, m)[k] == line[k];
  }

  /** One pass: the provenance-only parentheticals among `ms`, right to left. */
  function DropPass(lex: Lexicon, line: string, ms: seq<Span>): (r: string)
    requires forall i :: 0 <= i < |ms| ==> IsInnermost(line, ms[i])
    requires Ascending(ms, 0)
    ensures |r| <= |line|
    decreases |ms|
  {
    if ms == [] then line
    else
      var last, init := ms[|ms| - 1], ms[..|ms| - 1];
      if lex.isProvenance(Inner(line, last)) then
        DropOneKeepsAll(line, last, init);
        DropPass(lex, DropOne(line, last), init)
      else DropPass(lex, line, init)
  }

  /** Passes repeated until nothing changes: nested parentheticals too. */
  function DropAll(lex: Lexicon, line: string): string
    decreases |line|
  {
    var next := DropPass(lex, line, InnermostFrom(line, 0));
    if |next| < |line| then DropAll(lex, next) else line
  }

  method FindCutStart(line: string, start: nat) returns (from: nat)
    requires start <= |line|
    ensures from == CutStart(line, start)
  {
    from := start;
    if Strip(line[..start]) != "" {
      while from > 0 && line[from - 1] == ' '
        invariant from <= start
        invariant AfterDroppedSpaces(line, start) == AfterDroppedSpaces(line, from)
      {
        from := from - 1;
      }
    }
  }

  lemma DropOneKeepsAll(line: string, m: Span, init: seq<Span>)
    requires IsInnermost(line, m)
    requires forall i :: 0 <= i < |init| ==> IsInnermost(line, init[i]) && init[i].end <= m.start
    ensures forall i :: 0 <= i < |init| ==> IsInnermost(DropOne(line, m), init[i])
  {
    forall i | 0 <= i < |init|
      ensures IsInnermost(DropOne(line, m), init[i])
    {
      DropOneKeepsLeft(line, m, init[i]);
    }
  }

  method RunPass(lex: Lexicon, source: string, matches: seq<Span>) returns (line: string, changed: bool)
    requires forall i :: 0 <= i < |matches| ==> IsInnermost(source, matches[i])
    requires Ascending(matches, 0)
    ensures line == DropPass(lex, source, matches)
    ensures changed <==> |line| < |source|
  {
    hide ParenFree, CutStart;
    line, changed := source, false;
    var rest := matches;
    while rest != []
      invariant forall i :: 0 <= i < |rest| ==> IsInnermost(line, rest[i])
      invariant Ascending(rest, 0)
      invariant DropPass(lex, source, matches) == DropPass(lex, line, rest)
      invariant |line| <= |source| && (changed <==> |line| < |source|)
      decreases |rest|
    {
      var m, init := rest[|rest| - 1], rest[..|rest| - 1];
      if lex.isProvenance(Inner(line, m)) {
        DropOneKeepsAll(line, m, init);
        var start := FindCutStart(line, m.start);
        line := line[..start] + line[m.end..];
        changed := true;
      }
      rest := init;
    }
  }

  method DropParentheticals(lex: Lexicon, source: string) returns (line: string)
    ensures line == DropAll(lex, source)
  {
    line := source;
    while true
      invariant DropAll(lex, source) == DropAll(lex, line)
      decreases |line|
    {
      var next, changed := RunPass(lex, line, InnermostFrom(line, 0));
      if !changed {
        return;
      }
      line := next;
    }
  }

  lemma {:induction false} DropPassFacts(lex: Lexicon, line: string, ms: seq<Span>)
    requires forall i :: 0 <= i < |ms| ==> IsInnermost(line, ms[i])
    requires Ascending(ms, 0)
    ensures IsSubsequence(DropPass(lex, line, ms), line)
    ensures Unmatched(DropPass(lex, line, ms)) == Unmatched(line)
    decreases |ms|
  {
    if ms == [] {
      SubsequenceReflexive(line);
    } else {
      var last, init := ms[|ms| - 1], ms[..|ms| - 1];
      if lex.isProvenance(Inner(line, last)) {
        DropOneFacts(line, last);
        DropOneKeepsAll(line, last, init);
        DropPassFacts(lex, DropOne(line, last), init);
        SubsequenceTransitive(DropPass(lex, line, ms), DropOne(line, last), line);
      } else {
        DropPassFacts(lex, line, init);
      }
    }
  }

  /** A pass leaves the line alone only if none of the parentheticals is provenance. */
  lemma {:induction false} DropPassStable(lex: Lexicon, line: string, ms: seq<Span>)
    requires forall i :: 0 <= i < |ms| ==> IsInnermost(line, ms[i])
    requires Ascending(ms, 0)
    ensures |DropPass(lex, line, ms)| == |line| <==>
      forall m :: m in ms ==> IsInnermost(line, m) && !lex.isProvenance(Inner(line, m))
    ensures |DropPass(lex, line, ms)| == |line| ==> DropPass(lex, line, ms) == line
    decreases |ms|
  {
    if ms != [] {
      var last, init := ms[|ms| - 1], ms[..|ms| - 1];
      assert ms == init + [last];
      if lex.isProvenance(Inner(line, last)) {
        assert last in ms;
        DropOneKeepsAll(line, last, init);
      } else {
        DropPassStable(lex, line, init);
      }
    }
  }

  /** No provenance-only innermost parenthetical is left. */
  ghost predicate NoProvenanceParenthetical(lex: Lexicon, line: string) {
    forall m :: IsInnermost(line, m) ==> !lex.isProvenance(Inner(line, m))
  }

  lemma StableLine(lex: Lexicon, line: string)
    ensures DropAll(lex, line) == line <==> NoProvenanceParenthetical(lex, line)
    ensures DropAll(lex, line) == line <==> |DropPass(lex, line, InnermostFrom(line, 0))| == |line|
  {
    var ms := InnermostFrom(line, 0);
    DropPassStable(lex, line, ms);
    forall m | IsInnermost(line, m)
      ensures m in ms
    {
      InnermostComplete(line, 0, m);
    }
    DropAllShortens(lex, line);
  }

  lemma {:induction false} DropAllShortens(lex: Lexicon, line: string)
    ensures |DropAll(lex, line)| <= |DropPass(lex, line, InnermostFrom(line, 0))|
    decreases |line|
  {
    var next := DropPass(lex, line, InnermostFrom(line, 0));
    if |next| < |line| {
      DropAllShortens(lex, next);
    }
  }

  /** Dropping parentheticals only deletes, keeps every unmatched parenthesis
      and leaves no provenance parenthetical, nested ones included. */
  lemma {:induction false} DropAllFacts(lex: Lexicon, line: string)
    ensures IsSubsequence(DropAll(lex, line), line)
    ensures Unmatched(DropAll(lex, line)) == Unmatched(line)
    ensures NoProvenanceParenthetical(lex, DropAll(lex, line))
    decreases |line|
  {
    var next := DropPass(lex, line, InnermostFrom(line, 0));
    DropPassFacts(lex, line, InnermostFrom(line, 0));
    if |next| < |line| {
      DropAllFacts(lex, next);
      SubsequenceTransitive(DropAll(lex, line), next, line);
    } else {
      StableLine(lex, line);
      SubsequenceReflexive(line);
    }
  }

  // ---------------------------------------------------------------- lines

  /** Where the text of a comment or docstring line starts. */
  function TextStart(line: string): (i: nat)
    ensures i <= |line| && ParenFree(line, 0, i)
  {
    AfterQuotes(line, AfterMarker(line))
  }

  /** After a tag stood at the start of the text, its colon is dropped. */
  function DropLeadingColon(line: string): string {
    var i := TextStart(line);
    if i < |line| && line[i] == ':' && (i + 1 == |line| || IsBlank(line[i + 1]))
    then line[..i] + line[AfterBlanks(line, i + 1)..]
    else line
  }

  method FindTextStart(line: string) returns (i: nat)
    ensures i == TextStart(line)
  {
    i := SkipMarker(line);
    if OpensDocstring(line, i) {
      i := SkipSpaces(line, i + 3);
    }
  }

  method LeadingColon(line: string) returns (r: string)
    ensures r == DropLeadingColon(line)
  {
    var i := FindTextStart(line);
    if i < |line| && line[i] == ':' && (i + 1 == |line| || IsBlank(line[i + 1])) {
      var next := SkipSpaces(line, i + 1);
      return line[..i] + line[next..];
    }
    return line;
  }

  /** A label is judged with its parentheses blanked out. */
  function WithoutParens(s: string): string {
    seq(|s|, i requires 0 <= i < |s| => if s[i] == '(' || s[i] == ')' then ' ' else s[i])
  }

  /** The leading label of `line`, if it is provenance and the rest closes no
      parenthesis opened on an earlier line. */
  function RemovableLabel(lex: Lexicon, line: string): (r: Option<Label>)
    ensures r.Some? ==> r == LabelOf(lex, line)
  {
    match LabelOf(lex, line)
    case None => None
    case Some(parts) =>
      if lex.isProvenance(WithoutParens(parts.text)) && Unmatched(parts.rest).closes == 0 then Some(parts) else None
  }

  /** Leading labels removed until none is left. */
  function DropLabels(lex: Lexicon, line: string): string
    decreases |line|
  {
    match RemovableLabel(lex, line)
    case None => line
    case Some(parts) => DropLabels(lex, parts.lead + parts.rest)
  }

  /** A comment line left empty is exactly "#". */
  function TrimEmptyComment(line: string): string {
    if Strip(line) == "#" then RStrip(line) else line
  }

  function CleanLine(lex: Lexicon, line: string): string {
    var without := DropAll(lex, line);
    TrimEmptyComment(DropLabels(lex, if without != line then DropLeadingColon(without) else without))
  }

  function CleanLines(lex: Lexicon, lines: seq<string>): (cleaned: seq<string>)
    ensures |cleaned| == |lines|
    ensures forall i :: 0 <= i < |lines| ==> cleaned[i] == CleanLine(lex, lines[i])
  {
    seq(|lines|, i requires 0 <= i < |lines| => CleanLine(lex, lines[i]))
  }

  function CleanText(lex: Lexicon, text: string): string {
    JoinWith(CleanLines(lex, SplitOn(text, '\n')), '\n')
  }

  method StripLabels(lex: Lexicon, source: string) returns (line: string)
    ensures line == DropLabels(lex, source)
  {
    line := source;
    while true
      invariant DropLabels(lex, source) == DropLabels(lex, line)
      decreases |line|
    {
      var parts := SplitLabel(lex, line);
      if parts.None? || !lex.isProvenance(WithoutParens(parts.value.text)) {
        return;
      }
      var closes := ClosesAnEarlierLine(parts.value.rest);
      if closes {
        return;
      }
      line := parts.value.lead + parts.value.rest;
    }
  }

  method RewriteLine(lex: Lexicon, source: string) returns (line: string)
    ensures line == CleanLine(lex, source)
  {
    var without := DropParentheticals(lex, source);
    if without != source {
      without := LeadingColon(without);
    }
    line := StripLabels(lex, without);
    if Strip(line) == "#" {
      line := RStrip(line);
    }
  }

  method RewriteLines(lex: Lexicon, lines: seq<string>) returns (out: seq<string>)
    ensures out == CleanLines(lex, lines)
  {
    hide CleanLine;
    out := [];
    for n := 0 to |lines|
      invariant |out| == n
      invariant forall i :: 0 <= i < n ==> out[i] == CleanLine(lex, lines[i])
    {
      var line := RewriteLine(lex, lines[n]);
      out := out + [line];
    }
  }

  method RewriteText(lex: Lexicon, text: string) returns (cleaned: string)
    ensures cleaned == CleanText(lex, text)
  {
    var out := RewriteLines(lex, SplitOn(text, '\n'));
    return JoinWith(out, '\n');
  }

  // ---------------------------------------------------------------- what cleaning keeps

  /** Cutting `[i, j)` behind a part without openers creates no parenthetical. */
  lemma CutAddsNoParenthetical(lex: Lexicon, line: string, i: nat, j: nat)
    requires i <= j <= |line|
    requires forall k :: 0 <= k < i ==> line[k] != '('
    requires NoProvenanceParenthetical(lex, line)
    ensures NoProvenanceParenthetical(lex, line[..i] + line[j..])
  {
    var cut := line[..i] + line[j..];
    forall m | IsInnermost(cut, m)
      ensures !lex.isProvenance(Inner(cut, m))
    {
      assert m.start >= i by {
        assert cut[m.start] == '(';
      }
      var shifted := Span(m.start - i + j, m.end - i + j);
      assert forall k :: i <= k < |cut| ==> cut[k] == line[k - i + j];
      assert ParenFree(line, shifted.start + 1, shifted.end - 1) by {
        forall k | shifted.start + 1 <= k < shifted.end - 1
          ensures line[k] != '(' && line[k] != ')'
        {
          assert line[k] == cut[k - j + i];
        }
      }
      assert IsInnermost(line, shifted);
      assert Inner(cut, m) == Inner(line, shifted);
    }
  }

  lemma CutFacts(lex: Lexicon, line: string, i: nat, j: nat)
    requires i <= j <= |line|
    requires forall k :: 0 <= k < i ==> line[k] != '('
    requires Unmatched(line[i..j]) == BALANCED
    ensures IsSubsequence(line[..i] + line[j..], line)
    ensures Unmatched(line[..i] + line[j..]) == Unmatched(line)
    ensures NoProvenanceParenthetical(lex, line) ==> NoProvenanceParenthetical(lex, line[..i] + line[j..])
  {
    CutIsSubsequence(line, i, j);
    CutBalanced(line, i, j);
    if NoProvenanceParenthetical(lex, line) {
      CutAddsNoParenthetical(lex, line, i, j);
    }
  }

  lemma LabelAndColonBalanced(line: string, i: nat)
    requires i <= |line| && LabelColon(line, i, 0).Some?
    ensures Unmatched(line[i..AfterBlanks(line, LabelColon(line, i, 0).value + 1)]) == BALANCED
  {
    var colon := LabelColon(line, i, 0).value;
    var piece := line[i..AfterBlanks(line, colon + 1)];
    assert line[i..i] == "";
    LabelIsBalanced(line, i, i, 0);
    ParenFreeTail(piece, colon - i);
    assert piece[..colon - i] == line[i..colon];
  }

  /** Removing a label cuts one balanced piece behind a lead without openers. */
  lemma LabelIsCut(lex: Lexicon, line: string, parts: Label) returns (i: nat, j: nat)
    requires LabelOf(lex, line) == Some(parts)
    ensures i <= j <= |line| && parts.lead == line[..i] && parts.rest == line[j..]
    ensures forall k :: 0 <= k < i ==> line[k] != '('
    ensures Unmatched(line[i..j]) == BALANCED
  {
    hide LeadEnd, LabelColon, AfterBlanks, Unmatched;
    i := LeadEnd(lex, line);
    j := AfterBlanks(line, LabelColon(line, i, 0).value + 1);
    LabelAndColonBalanced(line, i);
  }

  lemma {:induction false} DropLabelsFacts(lex: Lexicon, line: string)
    ensures IsSubsequence(DropLabels(lex, line), line)
    ensures Unmatched(DropLabels(lex, line)) == Unmatched(line)
    ensures NoProvenanceParenthetical(lex, line) ==> NoProvenanceParenthetical(lex, DropLabels(lex, line))
    ensures RemovableLabel(lex, DropLabels(lex, line)) == None
    decreases |line|
  {
    match RemovableLabel(lex, line)
    case None => SubsequenceReflexive(line);
    case Some(parts) =>
      var i, j := LabelIsCut(lex, line, parts);
      CutFacts(lex, line, i, j);
      DropLabelsFacts(lex, parts.lead + parts.rest);
      SubsequenceTransitive(DropLabels(lex, line), parts.lead + parts.rest, line);
  }

  lemma ColonBalanced(line: string, i: nat)
    requires i < |line| && line[i] == ':'
    ensures Unmatched(line[i..AfterBlanks(line, i + 1)]) == BALANCED
  {
    var piece := line[i..AfterBlanks(line, i + 1)];
    ParenFreeTail(piece, 0);
    assert piece[..0] == "";
  }

  lemma DropLeadingColonFacts(lex: Lexicon, line: string)
    ensures IsSubsequence(DropLeadingColon(line), line)
    ensures Unmatched(DropLeadingColon(line)) == Unmatched(line)
    ensures NoProvenanceParenthetical(lex, line) ==> NoProvenanceParenthetical(lex, DropLeadingColon(line))
  {
    hide IsSubsequence, Unmatched, NoProvenanceParenthetical, TextStart;
    var i := TextStart(line);
    if i < |line| && line[i] == ':' && (i + 1 == |line| || IsBlank(line[i + 1])) {
      ColonBalanced(line, i);
      CutFacts(lex, line, i, AfterBlanks(line, i + 1));
    } else {
      SubsequenceReflexive(line);
    }
  }

  lemma EmptyCommentChars(line: string)
    requires Strip(line) == "#"
    ensures forall k :: 0 <= k < |RStrip(line)| ==> IsSpace(RStrip(line)[k]) || RStrip(line)[k] == '#'
  {
    var r := RStrip(line);
    var stripped := LStrip(r);
    assert stripped == r[|r| - 1..];
    assert r[|r| - 1] == stripped[0];
    assert forall k :: 0 <= k < |r| - 1 ==> r[k] == r[..|r| - 1][k];
  }

  lemma RStripUnmatched(line: string)
    ensures Unmatched(RStrip(line)) == Unmatched(line)
  {
    var r := RStrip(line);
    assert ParenFree(line, |r|, |line|) by {
      assert forall k :: |r| <= k < |line| ==> line[k] == line[|r|..][k - |r|];
    }
    ParenFreeTail(line, |r|);
    assert line[..|r|] == r;
  }

  lemma NoColonNoLabel(lex: Lexicon, line: string)
    requires forall k :: 0 <= k < |line| ==> line[k] != ':'
    ensures RemovableLabel(lex, line) == None
  {
    assert LabelColon(line, LeadEnd(lex, line), 0) == None;
  }

  lemma NoOpenerNoParenthetical(lex: Lexicon, line: string)
    requires forall k :: 0 <= k < |line| ==> line[k] != '('
    ensures NoProvenanceParenthetical(lex, line)
  {
  }

  lemma TrimFacts(lex: Lexicon, line: string)
    requires NoProvenanceParenthetical(lex, line) && RemovableLabel(lex, line) == None
    ensures IsClean(lex, TrimEmptyComment(line))
    ensures IsSubsequence(TrimEmptyComment(line), line)
    ensures Unmatched(TrimEmptyComment(line)) == Unmatched(line)
  {
    hide RemovableLabel, NoProvenanceParenthetical, IsSubsequence, Unmatched;
    if Strip(line) == "#" {
      EmptyCommentChars(line);
      NoColonNoLabel(lex, RStrip(line));
      NoOpenerNoParenthetical(lex, RStrip(line));
      StripIsSubsequence(line);
      RStripUnmatched(line);
      RStripIdempotent(line);
    } else {
      SubsequenceReflexive(line);
    }
  }

  /** Nothing for the rewriter to do. */
  ghost predicate IsClean(lex: Lexicon, line: string) {
    && NoProvenanceParenthetical(lex, line)
    && RemovableLabel(lex, line) == None
    && (Strip(line) == "#" ==> RStrip(line) == line)
  }

  /** Cleaning a line only deletes, keeps the line's unmatched parentheses (so a
      parenthesis spanning lines is never broken) and leaves nothing to remove. */
  lemma CleanLineFacts(lex: Lexicon, line: string)
    ensures IsSubsequence(CleanLine(lex, line), line)
    ensures Unmatched(CleanLine(lex, line)) == Unmatched(line)
    ensures IsClean(lex, CleanLine(lex, line))
  {
    var without := DropAll(lex, line);
    DropAllFacts(lex, line);
    var tagless := if without != line then DropLeadingColon(without) else without;
    DropLeadingColonFacts(lex, without);
    SubsequenceReflexive(without);
    var labelless := DropLabels(lex, tagless);
    DropLabelsFacts(lex, tagless);
    TrimFacts(lex, labelless);
    SubsequenceTransitive(tagless, without, line);
    SubsequenceTransitive(labelless, tagless, line);
    SubsequenceTransitive(TrimEmptyComment(labelless), labelless, line);
  }

  /** The rewriter leaves a line alone exactly when it carries no removable attribution. */
  lemma CleanLineFixpoint(lex: Lexicon, line: string)
    ensures CleanLine(lex, line) == line <==> IsClean(lex, line)
  {
    CleanLineFacts(lex, line);
    if IsClean(lex, line) {
      StableLine(lex, line);
      assert DropLabels(lex, line) == line;
    }
  }

  // ---------------------------------------------------------------- texts

  lemma CleanLinesStaySeparate(lex: Lexicon, lines: seq<string>)
    requires forall i :: 0 <= i < |lines| ==> '\n' !in lines[i]
    ensures forall i :: 0 <= i < |lines| ==> '\n' !in CleanLines(lex, lines)[i]
  {
    forall i | 0 <= i < |lines|
      ensures '\n' !in CleanLine(lex, lines[i])
    {
      CleanLineFacts(lex, lines[i]);
      if '\n' in CleanLine(lex, lines[i]) {
        SubsequenceContains(CleanLine(lex, lines[i]), lines[i], '\n');
      }
    }
  }

  /** Line by line: the cleaned text has the same lines, each cleaned. */
  lemma CleanTextByLine(lex: Lexicon, text: string)
    ensures SplitOn(CleanText(lex, text), '\n') == CleanLines(lex, SplitOn(text, '\n'))
  {
    var lines := SplitOn(text, '\n');
    CleanLinesStaySeparate(lex, lines);
    SplitJoin(CleanLines(lex, lines), '\n');
  }

  lemma CleanLinesIdempotent(lex: Lexicon, lines: seq<string>)
    ensures CleanLines(lex, CleanLines(lex, lines)) == CleanLines(lex, lines)
    ensures CleanLines(lex, lines) == lines <==> forall i :: 0 <= i < |lines| ==> IsClean(lex, lines[i])
  {
    var cleaned := CleanLines(lex, lines);
    forall i | 0 <= i < |lines|
      ensures CleanLine(lex, cleaned[i]) == cleaned[i]
      ensures cleaned[i] == lines[i] <==> IsClean(lex, lines[i])
    {
      CleanLineFacts(lex, lines[i]);
      CleanLineFixpoint(lex, cleaned[i]);
      CleanLineFixpoint(lex, lines[i]);
    }
  }

  /** `clean_text` is idempotent, and it leaves a text alone exactly when every
      line of it is clean. */
  lemma CleanTextIdempotent(lex: Lexicon, text: string)
    ensures CleanText(lex, CleanText(lex, text)) == CleanText(lex, text)
    ensures CleanText(lex, text) == text <==>
      forall i :: 0 <= i < |SplitOn(text, '\n')| ==> IsClean(lex, SplitOn(text, '\n')[i])
  {
    CleanTextByLine(lex, text);
    CleanLinesIdempotent(lex, SplitOn(text, '\n'));
    JoinSplit(text, '\n');
  }

  lemma {:induction false} JoinSubsequence(a: seq<string>, b: seq<string>)
    requires |a| == |b|
    requires forall i :: 0 <= i < |a| ==> IsSubsequence(a[i], b[i])
    ensures IsSubsequence(JoinWith(a, '\n'), JoinWith(b, '\n'))
  {
    if |a| == 0 {
      SubsequenceReflexive("");
    } else if |a| > 1 {
      JoinSubsequence(a[1..], b[1..]);
      SubsequenceReflexive("\n");
      SubsequenceConcat(a[0], "\n", b[0], "\n");
      SubsequenceConcat(a[0] + "\n", JoinWith(a[1..], '\n'), b[0] + "\n", JoinWith(b[1..], '\n'));
    }
  }

  lemma {:induction false} JoinUnmatched(a: seq<string>, b: seq<string>)
    requires |a| == |b|
    requires forall i :: 0 <= i < |a| ==> Unmatched(a[i]) == Unmatched(b[i])
    ensures Unmatched(JoinWith(a, '\n')) == Unmatched(JoinWith(b, '\n'))
  {
    if |a| > 1 {
      JoinUnmatched(a[1..], b[1..]);
      UnmatchedConcat(a[0] + "\n", JoinWith(a[1..], '\n'));
      UnmatchedConcat(b[0] + "\n", JoinWith(b[1..], '\n'));
      UnmatchedConcat(a[0], "\n");
      UnmatchedConcat(b[0], "\n");
    }
  }

  /** `clean_text` only deletes, and keeps the unmatched parentheses of every
      line and of the whole text. */
  lemma CleanTextOnlyDeletes(lex: Lexicon, text: string)
    ensures IsSubsequence(CleanText(lex, text), text)
    ensures Unmatched(CleanText(lex, text)) == Unmatched(text)
    ensures var before, after := SplitOn(text, '\n'), SplitOn(CleanText(lex, text), '\n');
      |after| == |before| && forall i :: 0 <= i < |before| ==> Unmatched(after[i]) == Unmatched(before[i])
  {
    var lines := SplitOn(text, '\n');
    forall i | 0 <= i < |lines|
      ensures IsSubsequence(CleanLines(lex, lines)[i], lines[i])
      ensures Unmatched(CleanLines(lex, lines)[i]) == Unmatched(lines[i])
    {
      CleanLineFacts(lex, lines[i]);
    }
    JoinSubsequence(CleanLines(lex, lines), lines);
    JoinUnmatched(CleanLines(lex, lines), lines);
    JoinSplit(text, '\n');
    CleanTextByLine(lex, text);
  }
}
