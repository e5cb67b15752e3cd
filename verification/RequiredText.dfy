/** Required vacancy text in `app/agents/candidate_job_matcher.py`: what the typed
    requirements evaluated is blanked out, and the rest is split into clauses. */
module RequiredText {
  import opened PythonText
  import opened Wrappers

  datatype Span = Span(start: nat, end: nat)

  predicate Inside(spans: seq<Span>, i: int) {
    exists k :: 0 <= k < |spans| && spans[k].start <= i < spans[k].end
  }

  // ---------------------------------------------------------------- masking

  function Masked(segment: string, spans: seq<Span>): (masked: string)
    ensures |masked| == |segment|
    ensures forall i :: 0 <= i < |segment| ==> masked[i] == if Inside(spans, i) then ' ' else segment[i]
  {
    seq(|segment|, i requires 0 <= i < |segment| => if Inside(spans, i) then ' ' else segment[i])
  }

  /** Blanks the spans in a character list, as the source does. */
  method Mask(segment: string, spans: seq<Span>) returns (masked: string)
    ensures masked == Masked(segment, spans)
  {
    var chars := new char[|segment|](i requires 0 <= i < |segment| => segment[i]);
    for k := 0 to |spans|
      invariant forall i :: 0 <= i < chars.Length ==> chars[i] == if Inside(spans[..k], i) then ' ' else segment[i]
    {
      var end := if spans[k].end < chars.Length then spans[k].end else chars.Length;
      assert forall i :: Inside(spans[..k + 1], i) <==> Inside(spans[..k], i) || spans[k].start <= i < spans[k].end by {
        InsideGrows(spans, k);
      }
      if spans[k].start < end {
        for i := spans[k].start to end
          invariant forall j :: 0 <= j < chars.Length ==>
            chars[j] == if Inside(spans[..k], j) || spans[k].start <= j < i then ' ' else segment[j]
        {
          chars[i] := ' ';
        }
      }
    }
    assert spans[..|spans|] == spans;
    masked := chars[..];
  }

  lemma InsideGrows(spans: seq<Span>, k: nat)
    requires k < |spans|
    ensures forall i :: Inside(spans[..k + 1], i) <==> Inside(spans[..k], i) || spans[k].start <= i < spans[k].end
  {
    forall i ensures Inside(spans[..k + 1], i) <==> Inside(spans[..k], i) || spans[k].start <= i < spans[k].end {
      if Inside(spans[..k], i) {
        var j :| 0 <= j < k && spans[..k][j].start <= i < spans[..k][j].end;
        assert spans[..k + 1][j].start <= i < spans[..k + 1][j].end;
      }
      if spans[k].start <= i < spans[k].end {
        assert spans[..k + 1][k].start <= i < spans[..k + 1][k].end;
      }
      if Inside(spans[..k + 1], i) {
        var j :| 0 <= j < k + 1 && spans[..k + 1][j].start <= i < spans[..k + 1][j].end;
        if j < k {
          assert spans[..k][j].start <= i < spans[..k][j].end;
        }
      }
    }
  }

  // ---------------------------------------------------------------- identity

  predicate IsTrailing(c: char) {
    c == ' ' || c == '.' || c == '!' || c == '?' || c == ';' || c == ':' || c == ','
  }

  /** `s.rstrip(" .!?;:,")` */
  function DropTrailing(s: string): (r: string)
    ensures r <= s
    ensures r != "" ==> !IsTrailing(r[|r| - 1])
  {
    if s != "" && IsTrailing(s[|s| - 1]) then DropTrailing(s[..|s| - 1]) else s
  }

  lemma {:induction false} DroppedIsTrailing(s: string)
    ensures forall i :: |DropTrailing(s)| <= i < |s| ==> IsTrailing(s[i])
  {
    if s != "" && IsTrailing(s[|s| - 1]) {
      DroppedIsTrailing(s[..|s| - 1]);
    }
  }

  lemma DropKeepsOccurrence(x: string, y: string)
    requires Occurs(x, y)
    ensures Occurs(DropTrailing(x), DropTrailing(y))
  {
    var k: nat :| OccursAt(x, y, k);
    var p, q := DropTrailing(x), DropTrailing(y);
    DroppedIsTrailing(y);
    if p == "" {
      assert OccursAt(p, q, 0);
    } else {
      assert y[k + |p| - 1] == x[|p| - 1] == p[|p| - 1];
      assert OccursAt(p, q, k);
    }
  }

  /** `_other_identity` */
  function Identity(fold: char -> string, text: string): string {
    DropTrailing(Collapse(Fold(fold, text)))
  }

  lemma FoldedRun(fold: char -> string, word: string, text: string, k: nat)
    requires OccursAt(word, text, k)
    ensures exists a: nat :: OccursAt(Fold(fold, word), Fold(fold, text), a)
  {
    hide Fold;
    var left, right := text[..k], text[k + |word|..];
    assert text == left + word + right;
    FoldConcat(fold, left, word);
    FoldConcat(fold, left + word, right);
    assert OccursAt(Fold(fold, word), Fold(fold, text), |Fold(fold, left)|);
  }

  /** A word of a text is still in its identity, folded and without trailing punctuation. */
  lemma WordInIdentity(fold: char -> string, word: string, text: string)
    requires FoldsWords(fold) && NoSpaces(word) && Occurs(word, text)
    ensures Occurs(DropTrailing(Fold(fold, word)), Identity(fold, text))
  {
    hide Fold, Collapse, DropTrailing, IsSpace;
    var k: nat :| OccursAt(word, text, k);
    FoldedRun(fold, word, text, k);
    FoldNoSpaces(fold, word);
    var s, w := Fold(fold, text), Fold(fold, word);
    var a: nat :| OccursAt(w, s, a);
    assert forall i :: a <= i < a + |w| ==> s[i] == w[i - a];
    RunOccurs(s, a, a + |w|);
    assert s[a..a + |w|] == w;
    DropKeepsOccurrence(w, Collapse(s));
  }

  // ---------------------------------------------------------------- what the patterns find

  /** A clause boundary found in the masked text. */
  datatype Boundary = Boundary(start: nat, end: nat, parenthesis: bool, conjunction: bool)

  datatype Word = Word(start: nat, text: string)

  /** The regular expressions and word lists: any functions. Positions are relative
      to the whole line; `parenthetical` gives the inside of a parenthesis. */
  datatype Reader = Reader(
    boundaries: string -> seq<Boundary>, tokens: (string, nat, nat) -> seq<Span>, isMaterial: string -> bool,
    isHead: string -> bool, isExperience: string -> bool, qualified: seq<string> -> set<nat>,
    startsRequirement: string -> bool, ellipsis: (string, nat, nat) -> Option<nat>,
    leadingWord: (string, nat, nat) -> Option<Word>, stops: string -> bool,
    parenthetical: (string, nat) -> Option<Span>, separators: string -> seq<Span>)

  /** Matches of one pattern: in range, in order, not empty, not overlapping. */
  predicate GoodTokens(masked: string, lo: nat, hi: nat, tokens: seq<Span>)
    requires lo <= hi <= |masked|
  {
    && (forall k :: 0 <= k < |tokens| ==> lo <= tokens[k].start < tokens[k].end <= hi)
    && (forall k, i :: 0 <= k < |tokens| && tokens[k].start <= i < tokens[k].end ==> !IsSpace(masked[i]))
    && (forall j, k :: 0 <= j < k < |tokens| ==> tokens[j].end <= tokens[k].start)
  }

  predicate GoodBoundaries(masked: string, found: seq<Boundary>) {
    && (forall k :: 0 <= k < |found| ==> found[k].start <= found[k].end <= |masked|)
    && (forall j, k :: 0 <= j < k < |found| ==> found[j].end <= found[k].start)
  }

  ghost predicate Regular(r: Reader) {
    && (forall m, lo: nat, hi: nat :: lo <= hi <= |m| ==> GoodTokens(m, lo, hi, r.tokens(m, lo, hi)))
    && (forall m :: GoodBoundaries(m, r.boundaries(m)))
  }

  // ---------------------------------------------------------------- clauses

  /** `compound`: experience heads that are about a technology of their clause. */
  datatype Clause = Clause(
    tokens: seq<Span>, owned: bool, conjunctionAfter: bool, start: nat, end: nat, compound: set<nat>)

  function Slice(s: string, span: Span): string {
    if span.start <= span.end <= |s| then s[span.start..span.end] else ""
  }

  function BackOverBlanks(s: string, i: nat, lo: nat): (r: nat)
    requires i <= |s|
    ensures r <= i && (lo <= i ==> lo <= r)
  {
    if i > lo && (s[i - 1] == ' ' || s[i - 1] == '\t') then BackOverBlanks(s, i - 1, lo) else i
  }

  /** `_technology_compounds` */
  predicate IsCompound(r: Reader, segment: string, masked: string, technology: seq<Span>, lo: nat, hi: nat, token: Span)
    requires token.start <= token.end <= |segment| == |masked|
  {
    var word := masked[token.start..token.end];
    var i := BackOverBlanks(segment, token.start, lo);
    && !("-" <= word) && r.isExperience(word)
    && ((lo < i < token.start && Inside(technology, i - 1))
        || exists k :: 0 <= k < |technology| && token.end <= technology[k].start < hi)
  }

  function ClauseAt(r: Reader, segment: string, spans: seq<Span>, technology: seq<Span>, lo: nat, hi: nat,
                    conjunctionAfter: bool): Clause
    requires lo <= hi <= |segment|
  {
    var masked := Masked(segment, spans);
    var tokens := r.tokens(masked, lo, hi);
    Clause(tokens,
           exists k :: 0 <= k < |spans| && spans[k].start < hi && lo < spans[k].end, conjunctionAfter, lo, hi,
           set k | 0 <= k < |tokens| && tokens[k].start <= tokens[k].end <= |segment|
                   && IsCompound(r, segment, masked, technology, lo, hi, tokens[k]) :: tokens[k].start)
  }

  /** The boundary counts: not the comma or conjunction of a hyphen ellipsis. */
  predicate Counts(segment: string, b: Boundary) {
    b.parenthesis || b.start == 0 || b.start > |segment| || segment[b.start - 1] != '-'
  }

  function Counting(segment: string, found: seq<Boundary>): seq<Boundary> {
    if found == [] then []
    else Counting(segment, found[..|found| - 1])
         + (if Counts(segment, found[|found| - 1]) then [found[|found| - 1]] else [])
  }

  lemma {:induction false} CountingFrom(segment: string, found: seq<Boundary>, k: nat)
    requires k < |Counting(segment, found)|
    ensures exists i: nat :: i < |found| && found[i] == Counting(segment, found)[k]
  {
    hide Counts;
    var n := |found| - 1;
    var before := Counting(segment, found[..n]);
    if k < |before| {
      CountingFrom(segment, found[..n], k);
      var i: nat :| i < n && found[..n][i] == before[k];
      assert found[i] == before[k];
    } else {
      assert found[n] == Counting(segment, found)[k];
    }
  }

  lemma {:induction false} CountingIsGood(segment: string, found: seq<Boundary>)
    requires GoodBoundaries(segment, found)
    ensures GoodBoundaries(segment, Counting(segment, found))
  {
    hide Counts;
    if found != [] {
      var n := |found| - 1;
      CountingIsGood(segment, found[..n]);
      var before := Counting(segment, found[..n]);
      forall k: nat | k < |before| ensures before[k].end <= found[n].start {
        CountingFrom(segment, found[..n], k);
        var i: nat :| i < n && found[..n][i] == before[k];
        assert found[i].end <= found[n].start;
      }
    }
  }

  /** Where the clause after the first `k` boundaries starts. */
  function StartAfter(bounds: seq<Boundary>, k: nat): nat
    requires k <= |bounds|
  {
    if k == 0 then 0 else bounds[k - 1].end
  }

  /** The clauses between the boundaries that count. */
  ghost predicate IsPieces(r: Reader, segment: string, spans: seq<Span>, technology: seq<Span>, pieces: seq<Clause>) {
    var masked := Masked(segment, spans);
    var bounds := Counting(segment, r.boundaries(masked));
    && |pieces| == |bounds| + 1
    && forall k :: 0 <= k < |pieces| ==>
         var hi := if k < |bounds| then bounds[k].start else |segment|;
         && StartAfter(bounds, k) <= hi <= |segment|
         && pieces[k] == ClauseAt(r, segment, spans, technology, StartAfter(bounds, k), hi,
                                  k < |bounds| && bounds[k].conjunction)
  }

  lemma BoundariesGood(r: Reader, segment: string, masked: string)
    requires Regular(r) && |masked| == |segment|
    ensures GoodBoundaries(segment, Counting(segment, r.boundaries(masked)))
  {
    assert GoodBoundaries(masked, r.boundaries(masked));
    assert GoodBoundaries(segment, r.boundaries(masked));
    CountingIsGood(segment, r.boundaries(masked));
  }

  /** All clauses of a line. */
  function PiecesOf(r: Reader, segment: string, spans: seq<Span>, technology: seq<Span>): (pieces: seq<Clause>)
    requires Regular(r)
    ensures IsPieces(r, segment, spans, technology, pieces)
  {
    var masked := Masked(segment, spans);
    var bounds := Counting(segment, r.boundaries(masked));
    BoundariesGood(r, segment, masked);
    seq(|bounds| + 1, k requires 0 <= k < |bounds| + 1 =>
      ClauseAt(r, segment, spans, technology, StartAfter(bounds, k), if k < |bounds| then bounds[k].start else |segment|,
               k < |bounds| && bounds[k].conjunction))
  }

  /** No boundary that counts reaches into the stretch. */
  predicate ClearOf(bounds: seq<Boundary>, a: nat, b: nat) {
    forall k :: 0 <= k < |bounds| ==> bounds[k].end <= a || b <= bounds[k].start
  }

  /** The last clause that starts before a stretch no boundary reaches into holds it. */
  lemma {:induction false} ClauseHolding(bounds: seq<Boundary>, n: nat, a: nat, b: nat) returns (k: nat)
    requires n <= |bounds| && ClearOf(bounds, a, b)
    requires n < |bounds| ==> b <= bounds[n].start
    ensures k <= n && StartAfter(bounds, k) <= a && (k < |bounds| ==> b <= bounds[k].start)
  {
    if n == 0 || bounds[n - 1].end <= a {
      k := n;
    } else {
      k := ClauseHolding(bounds, n - 1, a, b);
    }
  }

  /** One of the clauses holds the stretch. */
  ghost predicate SomeClauseHolds(pieces: seq<Clause>, a: nat, b: nat) {
    exists k: nat :: k < |pieces| && pieces[k].start <= a && b <= pieces[k].end
  }

  /** One of the clauses has the token. */
  ghost predicate SomeClauseHas(pieces: seq<Clause>, t: Span) {
    exists k: nat :: k < |pieces| && t in pieces[k].tokens
  }

  /** Clauses and counting boundaries cover the line: a stretch that no counting
      boundary reaches into lies in one clause. */
  lemma ClausesCover(r: Reader, segment: string, spans: seq<Span>, technology: seq<Span>, a: nat, b: nat)
    requires Regular(r) && a <= b <= |segment|
    requires ClearOf(Counting(segment, r.boundaries(Masked(segment, spans))), a, b)
    ensures SomeClauseHolds(PiecesOf(r, segment, spans, technology), a, b)
  {
    hide Regular, Counting, Masked;
    var bounds := Counting(segment, r.boundaries(Masked(segment, spans)));
    var pieces := PiecesOf(r, segment, spans, technology);
    var k := ClauseHolding(bounds, |bounds|, a, b);
    assert pieces[k].start == StartAfter(bounds, k);
    assert pieces[k].end == if k < |bounds| then bounds[k].start else |segment|;
  }

  /** Every match of the token pattern in the line that lies in the stretch is matched there too. */
  ghost predicate FoundWithin(r: Reader, masked: string, lo: nat, hi: nat)
    requires lo <= hi <= |masked|
  {
    forall t :: t in r.tokens(masked, 0, |masked|) && lo <= t.start && t.end <= hi ==> t in r.tokens(masked, lo, hi)
  }

  /** Tokens do not depend on the text around them, as for a pattern of maximal runs. */
  ghost predicate Tokenwise(r: Reader) {
    forall masked, lo: nat, hi: nat :: lo <= hi <= |masked| ==> FoundWithin(r, masked, lo, hi)
  }

  lemma PieceTokens(r: Reader, segment: string, spans: seq<Span>, technology: seq<Span>, k: nat)
    requires Regular(r) && k < |PiecesOf(r, segment, spans, technology)|
    ensures var piece := PiecesOf(r, segment, spans, technology)[k];
      && piece.start <= piece.end <= |segment|
      && piece.tokens == r.tokens(Masked(segment, spans), piece.start, piece.end)
  {
    hide Regular, Counting, Masked, IsCompound;
  }

  lemma WithinStretch(r: Reader, masked: string, lo: nat, hi: nat, t: Span)
    requires Tokenwise(r) && lo <= hi <= |masked| && t in r.tokens(masked, 0, |masked|) && lo <= t.start && t.end <= hi
    ensures t in r.tokens(masked, lo, hi)
  {
    assert FoundWithin(r, masked, lo, hi);
  }

  /** A token of the masked line that no counting boundary reaches into is a token of a clause. */
  lemma TokenInClause(r: Reader, segment: string, spans: seq<Span>, technology: seq<Span>, t: Span)
    requires Regular(r) && Tokenwise(r) && t in r.tokens(Masked(segment, spans), 0, |segment|)
    requires ClearOf(Counting(segment, r.boundaries(Masked(segment, spans))), t.start, t.end)
    ensures SomeClauseHas(PiecesOf(r, segment, spans, technology), t)
  {
    hide Counting, PiecesOf, Tokenwise;
    var masked, pieces := Masked(segment, spans), PiecesOf(r, segment, spans, technology);
    assert t.start <= t.end <= |segment| by {
      hide Masked;
      assert GoodTokens(masked, 0, |masked|, r.tokens(masked, 0, |masked|));
    }
    hide Regular, Masked, IsPieces;
    ClausesCover(r, segment, spans, technology, t.start, t.end);
    var k: nat :| k < |pieces| && pieces[k].start <= t.start && t.end <= pieces[k].end;
    PieceTokens(r, segment, spans, technology, k);
    WithinStretch(r, masked, pieces[k].start, pieces[k].end, t);
  }

  /** Splits the masked line into clauses. */
  method SplitClauses(r: Reader, segment: string, spans: seq<Span>, technology: seq<Span>) returns (pieces: seq<Clause>)
    requires Regular(r)
    ensures pieces == PiecesOf(r, segment, spans, technology)
  {
    hide Regular, ClauseAt, Counting, Masked;
    var masked := Mask(segment, spans);
    BoundariesGood(r, segment, masked);
    var bounds := Counting(segment, r.boundaries(masked));
    var position := 0;
    pieces := [];
    for k := 0 to |bounds|
      invariant |pieces| == k && position == StartAfter(bounds, k) <= |segment|
      invariant forall j :: 0 <= j < k ==>
        && StartAfter(bounds, j) <= bounds[j].start <= |segment|
        && pieces[j] == ClauseAt(r, segment, spans, technology, StartAfter(bounds, j), bounds[j].start, bounds[j].conjunction)
    {
      pieces := pieces + [ClauseAt(r, segment, spans, technology, position, bounds[k].start, bounds[k].conjunction)];
      position := bounds[k].end;
    }
    pieces := pieces + [ClauseAt(r, segment, spans, technology, position, |segment|, false)];
  }

  // ---------------------------------------------------------------- the words of a clause

  function StripHyphens(s: string): string
    decreases |s|
  {
    if s != "" && s[0] == '-' then StripHyphens(s[1..])
    else if s != "" && s[|s| - 1] == '-' then StripHyphens(s[..|s| - 1])
    else s
  }

  function Words(masked: string, clause: Clause): (words: seq<string>)
    ensures |words| == |clause.tokens|
  {
    seq(|clause.tokens|, k requires 0 <= k < |clause.tokens| =>
      (if clause.tokens[k].start in clause.compound then "-" else "") + Slice(masked, clause.tokens[k]))
  }

  /** `_qualified_experience`: the token positions of qualified experience wording. */
  function QualifiedAt(r: Reader, masked: string, clause: Clause): set<nat> {
    r.qualified(Words(masked, clause))
  }

  /** The tokens at the chosen positions, in order. */
  function Chosen(tokens: seq<Span>, at: set<nat>): seq<Span> {
    if tokens == [] then []
    else
      var n := |tokens| - 1;
      Chosen(tokens[..n], at) + (if n in at then [tokens[n]] else [])
  }

  function MaterialAt(r: Reader, masked: string, clause: Clause): set<nat> {
    set k: nat | k < |clause.tokens| && r.isMaterial(Slice(masked, clause.tokens[k]))
  }

  /** The words that make the clause a requirement: material or qualified experience. */
  function Kept(r: Reader, masked: string, clause: Clause): seq<Span> {
    Chosen(clause.tokens, MaterialAt(r, masked, clause) + QualifiedAt(r, masked, clause))
  }

  function Qualified(r: Reader, masked: string, clause: Clause): seq<Span> {
    Chosen(clause.tokens, QualifiedAt(r, masked, clause))
  }

  ghost predicate PickedFrom(tokens: seq<Span>, at: set<nat>, t: Span) {
    exists i: nat :: i < |tokens| && i in at && tokens[i] == t
  }

  lemma {:induction false} ChosenFrom(tokens: seq<Span>, at: set<nat>, k: nat)
    requires k < |Chosen(tokens, at)|
    ensures PickedFrom(tokens, at, Chosen(tokens, at)[k])
  {
    var n := |tokens| - 1;
    var before := Chosen(tokens[..n], at);
    if k < |before| {
      ChosenFrom(tokens[..n], at, k);
      var i: nat :| i < n && i in at && tokens[..n][i] == before[k];
      assert tokens[i] == before[k];
    } else {
      assert tokens[n] == Chosen(tokens, at)[k];
    }
  }

  lemma {:induction false} ChosenHas(tokens: seq<Span>, at: set<nat>, i: nat)
    requires i < |tokens| && i in at
    ensures tokens[i] in Chosen(tokens, at)
  {
    var n := |tokens| - 1;
    if i < n {
      ChosenHas(tokens[..n], at, i);
    }
  }

  /** Tokens follow one another. */
  predicate Ascending(tokens: seq<Span>, lo: nat, hi: nat) {
    && (forall k :: 0 <= k < |tokens| ==> lo <= tokens[k].start < tokens[k].end <= hi)
    && (forall j, k :: 0 <= j < k < |tokens| ==> tokens[j].end <= tokens[k].start)
  }

  lemma {:induction false} ChosenAscending(tokens: seq<Span>, at: set<nat>, lo: nat, hi: nat)
    requires Ascending(tokens, lo, hi)
    ensures Ascending(Chosen(tokens, at), lo, hi)
  {
    if tokens != [] {
      var n := |tokens| - 1;
      ChosenAscending(tokens[..n], at, lo, hi);
      var before := Chosen(tokens[..n], at);
      forall j | 0 <= j < |before| ensures before[j].end <= tokens[n].start {
        ChosenFrom(tokens[..n], at, j);
        var i: nat :| i < n && i in at && tokens[..n][i] == before[j];
      }
    }
  }
}
