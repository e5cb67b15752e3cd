/** `clean_source` of `scripts/strip_review_attribution.py`: the docstrings and
    comments of a source file are cleaned and spliced back into it. */
module SourceSplicing {
  import opened Sequences
  import opened PythonText
  import opened AttributionStripper
  import opened Sorting

  /** Replace `[start, end)`; `end` may lie one past the end of the source. */
  datatype Edit = Edit(start: nat, end: nat, replacement: string)

  function Min(a: nat, b: nat): nat {
    if a < b then a else b
  }

  // ---------------------------------------------------------------- splicing

  predicate Apart(a: Edit, b: Edit) {
    a.end <= b.start || b.end <= a.start
  }

  /** Non-empty spans of `source`, pairwise apart. */
  ghost predicate Disjoint(source: string, edits: seq<Edit>) {
    && (forall i :: 0 <= i < |edits| ==> edits[i].start < edits[i].end && edits[i].start < |source|)
    && (forall i, j :: 0 <= i < j < |edits| ==> Apart(edits[i], edits[j]))
  }

  /** The order of `sorted(kept, reverse=True)`: later spans first. */
  predicate Before(a: Edit, b: Edit) {
    a.start > b.start || (a.start == b.start && a.end > b.end)
  }

  function SortDescending(edits: seq<Edit>): seq<Edit> {
    SortWith(Before, edits)
  }

  lemma SortFacts(edits: seq<Edit>)
    ensures OrderedWith(Before, SortDescending(edits)) && multiset(SortDescending(edits)) == multiset(edits)
  {
    assert WeakOrder(Before);
    SortWithFacts(Before, edits);
  }

  function SpliceOne(source: string, e: Edit): string
    requires e.start <= |source| && e.start <= e.end
  {
    source[..e.start] + e.replacement + source[Min(e.end, |source|)..]
  }

  ghost predicate StartsAt(edits: set<Edit>, p: nat) {
    exists e :: e in edits && e.start == p
  }

  ghost function EditAt(edits: set<Edit>, p: nat): (e: Edit)
    requires StartsAt(edits, p)
    ensures e in edits && e.start == p
  {
    var e :| e in edits && e.start == p;
    e
  }

  /** Where copying resumes after an edit at `p`. */
  function Resume(source: string, e: Edit, p: nat): (r: nat)
    requires p < |source|
    ensures p < r <= |source|
  {
    if e.end <= p then p + 1 else Min(e.end, |source|)
  }

  /** What all edits together say, independent of any order: at each position
      either an edit starts, or the character stands. */
  ghost function Simultaneous(source: string, edits: set<Edit>, p: nat): string
    requires p <= |source|
    decreases |source| - p
  {
    if p == |source| then ""
    else if StartsAt(edits, p) then
      var e := EditAt(edits, p);
      e.replacement + Simultaneous(source, edits, Resume(source, e, p))
    else [source[p]] + Simultaneous(source, edits, p + 1)
  }

  /** The characters no edit covers. */
  ghost function Outside(source: string, edits: set<Edit>, p: nat): string
    requires p <= |source|
    decreases |source| - p
  {
    if p == |source| then ""
    else if StartsAt(edits, p) then
      Outside(source, edits, Resume(source, EditAt(edits, p), p))
    else [source[p]] + Outside(source, edits, p + 1)
  }

  ghost predicate UniqueStarts(edits: set<Edit>) {
    forall e, f :: e in edits && f in edits && e.start == f.start ==> e == f
  }

  lemma {:induction false} CopyGap(source: string, edits: set<Edit>, p: nat, q: nat)
    requires p <= q <= |source|
    requires forall e :: e in edits ==> !(p <= e.start < q)
    ensures Simultaneous(source, edits, p) == source[p..q] + Simultaneous(source, edits, q)
    decreases q - p
  {
    if p < q {
      CopyGap(source, edits, p + 1, q);
      assert !StartsAt(edits, p);
      var rest := Simultaneous(source, edits, q);
      assert source[p..q] + rest == [source[p]] + (source[p + 1..q] + rest);
    } else {
      assert source[p..q] == "";
    }
  }

  /** An edit that starts before `p` has no say from `p` on. */
  lemma {:induction false} IgnoreEarlier(source: string, edits: set<Edit>, e: Edit, p: nat)
    requires e.start < p <= |source|
    requires UniqueStarts(edits + {e})
    ensures Simultaneous(source, edits + {e}, p) == Simultaneous(source, edits, p)
    decreases |source| - p
  {
    if p < |source| {
      if StartsAt(edits, p) {
        var f := EditAt(edits, p);
        assert f in edits + {e};
        IgnoreEarlier(source, edits, e, Resume(source, f, p));
      } else {
        IgnoreEarlier(source, edits, e, p + 1);
      }
    }
  }

  lemma TakeEdit(source: string, edits: set<Edit>, e: Edit)
    requires e.start < e.end && e.start < |source|
    requires UniqueStarts(edits + {e})
    ensures Simultaneous(source, edits + {e}, e.start) ==
      e.replacement + Simultaneous(source, edits, Min(e.end, |source|))
  {
    assert e in edits + {e};
    IgnoreEarlier(source, edits, e, Min(e.end, |source|));
  }

  ghost function Elements(edits: seq<Edit>): set<Edit> {
    set e | e in edits
  }

  /** Splices performed so far, from the right: `edits` are done, everything
      before `bound` is untouched. */
  ghost predicate SplicedFrom(source: string, edits: set<Edit>, bound: nat, current: string) {
    && bound <= |source|
    && (forall e :: e in edits ==> bound <= e.start < |source|)
    && UniqueStarts(edits)
    && current == source[..bound] + Simultaneous(source, edits, bound)
  }

  lemma SpliceStep(source: string, edits: set<Edit>, bound: nat, current: string, e: Edit)
    requires SplicedFrom(source, edits, bound, current)
    requires e.start < e.end && e.start < bound
    requires e.end <= bound || (bound == |source| && edits == {})
    ensures e.start <= |current|
    ensures SplicedFrom(source, edits + {e}, e.start, SpliceOne(current, e))
  {
    var from := Min(e.end, |source|);
    CopyGap(source, edits, from, bound);
    assert source[..bound][..e.start] == source[..e.start];
    assert current[..e.start] == source[..e.start];
    assert current[Min(e.end, |current|)..] == source[from..bound] + Simultaneous(source, edits, bound);
    TakeEdit(source, edits, e);
  }

  method SpliceRightToLeft(original: string, sorted: seq<Edit>) returns (source: string)
    requires Disjoint(original, sorted) && OrderedWith(Before, sorted)
    ensures source == Simultaneous(original, Elements(sorted), 0)
  {
    source := original;
    ghost var bound: nat := |original|;
    assert Simultaneous(original, {}, bound) == "";
    hide Simultaneous;
    for i := 0 to |sorted|
      invariant SplicedFrom(original, Elements(sorted[..i]), bound, source)
      invariant i == 0 ==> bound == |original|
      invariant i > 0 ==> bound == sorted[i - 1].start
    {
      var e := sorted[i];
      if i > 0 {
        assert !Before(e, sorted[i - 1]) && Apart(sorted[i - 1], e);
      }
      SpliceStep(original, Elements(sorted[..i]), bound, source, e);
      source := SpliceOne(source, e);
      bound := e.start;
      assert sorted[..i + 1] == sorted[..i] + [e];
      assert Elements(sorted[..i + 1]) == Elements(sorted[..i]) + {e};
    }
    assert sorted[..|sorted|] == sorted;
    CopyGap(original, Elements(sorted), 0, bound);
    assert original[0..bound] == original[..bound];
  }

  lemma SortKeepsDisjoint(source: string, edits: seq<Edit>)
    requires Disjoint(source, edits)
    ensures Disjoint(source, SortDescending(edits))
    ensures Elements(SortDescending(edits)) == Elements(edits)
  {
    SortFacts(edits);
    var sorted := SortDescending(edits);
    assert forall e :: e in sorted <==> e in multiset(sorted);
    assert forall e :: e in edits <==> e in multiset(edits);
    assert forall i :: 0 <= i < |sorted| ==> sorted[i] in edits;
    forall i, j | 0 <= i < j < |sorted|
      ensures Apart(sorted[i], sorted[j])
    {
      var a, b := sorted[i], sorted[j];
      if a == b {
        DuplicateInPermutation(sorted, edits, i, j);
      } else {
        var k :| 0 <= k < |edits| && edits[k] == a;
        var l :| 0 <= l < |edits| && edits[l] == b;
        assert k != l;
      }
    }
  }

  /** A value standing twice in a sequence stands twice in every permutation of
      it, so it would overlap itself. */
  lemma DuplicateInPermutation(sorted: seq<Edit>, edits: seq<Edit>, i: nat, j: nat)
    requires i < j < |sorted| && sorted[i] == sorted[j]
    requires multiset(sorted) == multiset(edits)
    ensures exists k, l :: 0 <= k < l < |edits| && edits[k] == edits[l] == sorted[i]
  {
    var x := sorted[i];
    assert sorted == sorted[..j] + [x] + sorted[j + 1..];
    assert x in sorted[..j];
    assert multiset(sorted)[x] >= 2;
    var k :| 0 <= k < |edits| && edits[k] == x;
    assert edits == edits[..k] + [x] + edits[k + 1..];
    assert multiset(edits) == multiset(edits[..k]) + multiset{x} + multiset(edits[k + 1..]);
    if x in edits[..k] {
      var l :| 0 <= l < k && edits[..k][l] == x;
      assert edits[l] == edits[k];
    } else {
      assert x in edits[k + 1..];
      var l :| 0 <= l < |edits[k + 1..]| && edits[k + 1..][l] == x;
      assert edits[k] == edits[k + 1 + l];
    }
  }

  /** Sorting and splicing is the simultaneous substitution, whatever the order
      in which the edits were collected. */
  method SpliceAll(source: string, kept: seq<Edit>) returns (result: string)
    requires Disjoint(source, kept)
    ensures result == Simultaneous(source, Elements(kept), 0)
  {
    SortFacts(kept);
    SortKeepsDisjoint(source, kept);
    result := SpliceRightToLeft(source, SortDescending(kept));
  }

  /** The characters outside all edits survive, in order. */
  lemma {:induction false} OutsideSurvives(source: string, edits: set<Edit>, p: nat)
    requires p <= |source|
    ensures IsSubsequence(Outside(source, edits, p), Simultaneous(source, edits, p))
    decreases |source| - p
  {
    hide IsSubsequence;
    SubsequenceReflexive("");
    if p < |source| {
      if StartsAt(edits, p) {
        var e := EditAt(edits, p);
        var next := Resume(source, e, p);
        OutsideSurvives(source, edits, next);
        EmptyIsSubsequence(e.replacement);
        SubsequenceConcat("", Outside(source, edits, next), e.replacement, Simultaneous(source, edits, next));
        assert "" + Outside(source, edits, next) == Outside(source, edits, next);
      } else {
        OutsideSurvives(source, edits, p + 1);
        SubsequenceReflexive([source[p]]);
        SubsequenceConcat([source[p]], Outside(source, edits, p + 1), [source[p]], Simultaneous(source, edits, p + 1));
      }
    }
  }

  /** The edit only deletes within its span. */
  ghost predicate Shrinks(source: string, e: Edit) {
    e.start < e.end && e.start < |source| && IsSubsequence(e.replacement, source[e.start..Min(e.end, |source|)])
  }

  lemma {:induction false} ShrinkingEdits(source: string, edits: set<Edit>, p: nat)
    requires p <= |source|
    requires forall e :: e in edits ==> Shrinks(source, e)
    ensures IsSubsequence(Simultaneous(source, edits, p), source[p..])
    decreases |source| - p
  {
    hide IsSubsequence;
    EmptyIsSubsequence(source[p..]);
    if p < |source| {
      if StartsAt(edits, p) {
        var e := EditAt(edits, p);
        var next := Min(e.end, |source|);
        ShrinkingEdits(source, edits, next);
        SubsequenceConcat(e.replacement, Simultaneous(source, edits, next), source[p..next], source[next..]);
        assert source[p..] == source[p..next] + source[next..];
      } else {
        ShrinkingEdits(source, edits, p + 1);
        SubsequenceReflexive([source[p]]);
        SubsequenceConcat([source[p]], Simultaneous(source, edits, p + 1), [source[p]], source[p + 1..]);
        assert source[p..] == [source[p]] + source[p + 1..];
      }
    }
  }

  // ---------------------------------------------------------------- tokens

  /** A docstring as the parser reports it: rows from 1, columns in characters. */
  datatype Docstring = Docstring(startRow: nat, startCol: nat, endRow: nat, endCol: nat)

  /** A comment token, which never leaves its row. */
  datatype Comment = Comment(row: nat, startCol: nat, endCol: nat)

  /** Offset of the first character of the line with index `row`. */
  function LineStart(lines: seq<string>, row: nat): nat
    requires row <= |lines|
  {
    if row == 0 then 0 else LineStart(lines, row - 1) + |lines[row - 1]| + 1
  }

  function Offset(lines: seq<string>, row: nat, col: nat): nat
    requires 1 <= row <= |lines|
  {
    LineStart(lines, row - 1) + col
  }

  predicate InLines(lines: seq<string>, d: Docstring) {
    && 1 <= d.startRow <= d.endRow <= |lines|
    && d.startCol <= |lines[d.startRow - 1]| && d.endCol <= |lines[d.endRow - 1]|
    && Offset(lines, d.startRow, d.startCol) < Offset(lines, d.endRow, d.endCol)
  }

  predicate CommentInLine(lines: seq<string>, c: Comment) {
    1 <= c.row <= |lines| && c.startCol < c.endCol <= |lines[c.row - 1]|
  }

  /** What parser and tokenizer promise: docstrings do not overlap, and a line
      carries at most one comment. */
  ghost predicate Tokenized(lines: seq<string>, docs: seq<Docstring>, comments: seq<Comment>) {
    && (forall i :: 0 <= i < |docs| ==> InLines(lines, docs[i]))
    && (forall i, j :: 0 <= i < j < |docs| ==>
        Offset(lines, docs[i].endRow, docs[i].endCol) <= Offset(lines, docs[j].startRow, docs[j].startCol) ||
        Offset(lines, docs[j].endRow, docs[j].endCol) <= Offset(lines, docs[i].startRow, docs[i].startCol))
    && (forall i :: 0 <= i < |comments| ==> CommentInLine(lines, comments[i]))
    && (forall i, j :: 0 <= i < j < |comments| ==> comments[i].row != comments[j].row)
  }

  lemma {:induction false} LinesInOrder(lines: seq<string>, r: nat, s: nat)
    requires r < s <= |lines|
    ensures LineStart(lines, r) + |lines[r]| + 1 <= LineStart(lines, s)
  {
    if s > r + 1 {
      LinesInOrder(lines, r, s - 1);
    }
  }

  lemma {:induction false} LineStartShift(lines: seq<string>, r: nat)
    requires r < |lines|
    ensures LineStart(lines, r + 1) == |lines[0]| + 1 + LineStart(lines[1..], r)
  {
    if r > 0 {
      LineStartShift(lines, r - 1);
    }
  }

  lemma {:induction false} JoinLength(lines: seq<string>)
    requires |lines| > 0
    ensures |JoinWith(lines, '\n')| + 1 == LineStart(lines, |lines|)
  {
    if |lines| > 1 {
      JoinLength(lines[1..]);
      LineStartShift(lines, |lines| - 1);
    }
  }

  lemma OffsetInSource(source: string, row: nat, col: nat)
    requires 1 <= row <= |SplitOn(source, '\n')| && col <= |SplitOn(source, '\n')[row - 1]|
    ensures Offset(SplitOn(source, '\n'), row, col) <= |source|
  {
    var lines := SplitOn(source, '\n');
    JoinSplit(source, '\n');
    JoinLength(lines);
    LinesInOrder(lines, row - 1, |lines|);
  }

  // ---------------------------------------------------------------- the edits

  predicate ApartFromAll(e: Edit, docEdits: seq<Edit>) {
    forall i :: 0 <= i < |docEdits| ==> !(e.start < docEdits[i].end && docEdits[i].start < e.end)
  }

  /** The comment edits that no docstring edit overlaps. */
  function OutsideDocstrings(docEdits: seq<Edit>, edits: seq<Edit>): seq<Edit> {
    if edits == [] then []
    else
      var last := |edits| - 1;
      OutsideDocstrings(docEdits, edits[..last]) + if ApartFromAll(edits[last], docEdits) then [edits[last]] else []
  }

  /** Disjoint spans only: a docstring edit wins over any comment inside it. */
  function Kept(docEdits: seq<Edit>, commentEdits: seq<Edit>): seq<Edit> {
    docEdits + OutsideDocstrings(docEdits, commentEdits)
  }

  lemma {:induction false} OutsideDocstringsElements(docEdits: seq<Edit>, edits: seq<Edit>)
    ensures forall e :: e in OutsideDocstrings(docEdits, edits) <==> e in edits && ApartFromAll(e, docEdits)
  {
    if edits != [] {
      var last := |edits| - 1;
      assert edits == edits[..last] + [edits[last]];
      OutsideDocstringsElements(docEdits, edits[..last]);
    }
  }

  lemma {:induction false} OutsideDocstringsDisjoint(source: string, docEdits: seq<Edit>, edits: seq<Edit>)
    requires Disjoint(source, edits)
    ensures Disjoint(source, OutsideDocstrings(docEdits, edits))
  {
    if edits != [] {
      var last := |edits| - 1;
      var earlier := OutsideDocstrings(docEdits, edits[..last]);
      OutsideDocstringsDisjoint(source, docEdits, edits[..last]);
      OutsideDocstringsElements(docEdits, edits[..last]);
      forall k | 0 <= k < |earlier|
        ensures Apart(earlier[k], edits[last])
      {
        assert earlier[k] in edits[..last];
      }
    }
  }

  /** After the docstrings have won, the kept spans are pairwise disjoint. */
  lemma KeptIsDisjoint(source: string, docEdits: seq<Edit>, commentEdits: seq<Edit>)
    requires Disjoint(source, docEdits) && Disjoint(source, commentEdits)
    ensures Disjoint(source, Kept(docEdits, commentEdits))
    ensures forall e :: e in Kept(docEdits, commentEdits) <==>
      e in docEdits || (e in commentEdits && ApartFromAll(e, docEdits))
  {
    var outside := OutsideDocstrings(docEdits, commentEdits);
    OutsideDocstringsDisjoint(source, docEdits, commentEdits);
    OutsideDocstringsElements(docEdits, commentEdits);
    forall i, k | 0 <= i < |docEdits| && 0 <= k < |outside|
      ensures Apart(docEdits[i], outside[k])
    {
      assert outside[k] in outside;
    }
  }

  lemma ApartByElements(e: Edit, docEdits: seq<Edit>)
    ensures ApartFromAll(e, docEdits) <==> forall d :: d in docEdits ==> !(e.start < d.end && d.start < e.end)
  {
  }

  /** The order in which the edits were collected does not matter: the same
      edits in any other order are kept and give the same result. */
  lemma CollectionOrderIrrelevant(
      source: string, docEdits: seq<Edit>, commentEdits: seq<Edit>, docEdits2: seq<Edit>, commentEdits2: seq<Edit>)
    requires multiset(docEdits) == multiset(docEdits2) && multiset(commentEdits) == multiset(commentEdits2)
    ensures Elements(Kept(docEdits, commentEdits)) == Elements(Kept(docEdits2, commentEdits2))
  {
    assert forall e :: e in docEdits <==> e in multiset(docEdits);
    assert forall e :: e in docEdits2 <==> e in multiset(docEdits2);
    assert forall e :: e in commentEdits <==> e in multiset(commentEdits);
    assert forall e :: e in commentEdits2 <==> e in multiset(commentEdits2);
    OutsideDocstringsElements(docEdits, commentEdits);
    OutsideDocstringsElements(docEdits2, commentEdits2);
    forall e
      ensures ApartFromAll(e, docEdits) <==> ApartFromAll(e, docEdits2)
    {
      ApartByElements(e, docEdits);
      ApartByElements(e, docEdits2);
    }
  }

  /** The text a docstring edit replaces. */
  function DocSpan(lines: seq<string>, d: Docstring): Span
    requires InLines(lines, d)
  {
    Span(Offset(lines, d.startRow, d.startCol), Offset(lines, d.endRow, d.endCol))
  }

  function CommentSpan(lines: seq<string>, c: Comment): Span
    requires CommentInLine(lines, c)
  {
    Span(Offset(lines, c.row, c.startCol), Offset(lines, c.row, c.endCol))
  }

  function TextAt(source: string, span: Span): string
    requires span.start <= span.end <= |source|
  {
    source[span.start..span.end]
  }

  /** `clean_text` for one table of words. */
  type Cleaner = string -> string

  ghost predicate OnlyDeletes(clean: Cleaner) {
    forall s :: IsSubsequence(clean(s), s)
  }

  function DocEdit(clean: Cleaner, source: string, span: Span): Edit
    requires span.start < span.end <= |source|
  {
    Edit(span.start, span.end, clean(TextAt(source, span)))
  }

  /** A comment alone on its line that carried nothing but a label. */
  predicate OnlyALabel(before: string, text: string, cleaned: string) {
    Strip(before) == "" && Strip(cleaned) == "#" && Strip(text) != "#"
  }

  /** `line` is the span of the comment's line, without its newline. */
  function CommentEdit(clean: Cleaner, source: string, line: Span, span: Span): Edit
    requires line.start <= span.start < span.end <= line.end <= |source|
  {
    var text := TextAt(source, span);
    var cleaned := clean(text);
    if OnlyALabel(TextAt(source, Span(line.start, span.start)), text, cleaned)
    then Edit(line.start, line.end + 1, "")
    else Edit(span.start, span.end, cleaned)
  }

  function LineSpan(lines: seq<string>, row: nat): Span
    requires 1 <= row <= |lines|
  {
    Span(Offset(lines, row, 0), Offset(lines, row, |lines[row - 1]|))
  }

  lemma DocEditShrinks(clean: Cleaner, source: string, span: Span)
    requires OnlyDeletes(clean)
    requires span.start < span.end <= |source|
    ensures Shrinks(source, DocEdit(clean, source, span))
  {
    hide IsSubsequence;
  }

  function DocEditAt(clean: Cleaner, source: string, d: Docstring): Edit
    requires InLines(SplitOn(source, '\n'), d)
  {
    OffsetInSource(source, d.endRow, d.endCol);
    DocEdit(clean, source, DocSpan(SplitOn(source, '\n'), d))
  }

  /** Edits of the docstrings: each cleans the text of its own span. */
  function DocEditsOf(clean: Cleaner, source: string, docs: seq<Docstring>): (edits: seq<Edit>)
    requires Tokenized(SplitOn(source, '\n'), docs, [])
    ensures |edits| == |docs| && forall i :: 0 <= i < |docs| ==> edits[i] == DocEditAt(clean, source, docs[i])
  {
    seq(|docs|, i requires 0 <= i < |docs| => DocEditAt(clean, source, docs[i]))
  }

  function CommentEditAt(clean: Cleaner, source: string, c: Comment): Edit
    requires CommentInLine(SplitOn(source, '\n'), c)
  {
    var lines := SplitOn(source, '\n');
    OffsetInSource(source, c.row, |lines[c.row - 1]|);
    CommentEdit(clean, source, LineSpan(lines, c.row), CommentSpan(lines, c))
  }

  function CommentEditsOf(clean: Cleaner, source: string, comments: seq<Comment>): (edits: seq<Edit>)
    requires Tokenized(SplitOn(source, '\n'), [], comments)
    ensures |edits| == |comments| && forall i :: 0 <= i < |comments| ==> edits[i] == CommentEditAt(clean, source, comments[i])
  {
    seq(|comments|, i requires 0 <= i < |comments| => CommentEditAt(clean, source, comments[i]))
  }

  lemma DocEditsFacts(clean: Cleaner, source: string, docs: seq<Docstring>)
    requires OnlyDeletes(clean)
    requires Tokenized(SplitOn(source, '\n'), docs, [])
    ensures var edits := DocEditsOf(clean, source, docs);
      Disjoint(source, edits) && forall i :: 0 <= i < |edits| ==> Shrinks(source, edits[i])
  {
    hide IsSubsequence, LineStart, SplitOn;
    var edits, lines := DocEditsOf(clean, source, docs), SplitOn(source, '\n');
    forall i | 0 <= i < |edits|
      ensures Shrinks(source, edits[i])
      ensures edits[i].start == DocSpan(lines, docs[i]).start && edits[i].end == DocSpan(lines, docs[i]).end
    {
      assert edits[i] == DocEditAt(clean, source, docs[i]);
      OffsetInSource(source, docs[i].endRow, docs[i].endCol);
      DocEditShrinks(clean, source, DocSpan(lines, docs[i]));
    }
    forall i, j | 0 <= i < j < |edits| ensures Apart(edits[i], edits[j]) {
      assert edits[i].end == Offset(lines, docs[i].endRow, docs[i].endCol);
    }
  }

  lemma CommentEditWithin(clean: Cleaner, source: string, c: Comment)
    requires OnlyDeletes(clean)
    requires CommentInLine(SplitOn(source, '\n'), c)
    ensures var lines, e := SplitOn(source, '\n'), CommentEditAt(clean, source, c);
      && Shrinks(source, e)
      && LineStart(lines, c.row - 1) <= e.start && e.end <= LineStart(lines, c.row - 1) + |lines[c.row - 1]| + 1
  {
    hide IsSubsequence, OnlyALabel, LineStart, SplitOn;
    var lines := SplitOn(source, '\n');
    OffsetInSource(source, c.row, |lines[c.row - 1]|);
    var e := CommentEditAt(clean, source, c);
    assert IsSubsequence(clean(TextAt(source, CommentSpan(lines, c))), TextAt(source, CommentSpan(lines, c)));
    EmptyIsSubsequence(source[e.start..Min(e.end, |source|)]);
  }

  /** Comments of different lines have disjoint edits, even when one takes its
      whole line and newline along. */
  lemma CommentEditsFacts(clean: Cleaner, source: string, comments: seq<Comment>)
    requires OnlyDeletes(clean)
    requires Tokenized(SplitOn(source, '\n'), [], comments)
    ensures var edits := CommentEditsOf(clean, source, comments);
      Disjoint(source, edits) && forall i :: 0 <= i < |edits| ==> Shrinks(source, edits[i])
  {
    hide CommentEditAt, IsSubsequence, LineStart, SplitOn;
    var lines, edits := SplitOn(source, '\n'), CommentEditsOf(clean, source, comments);
    forall i | 0 <= i < |edits| ensures Shrinks(source, edits[i]) {
      CommentEditWithin(clean, source, comments[i]);
    }
    forall i, j | 0 <= i < j < |edits|
      ensures Apart(edits[i], edits[j])
    {
      CommentEditWithin(clean, source, comments[i]);
      CommentEditWithin(clean, source, comments[j]);
      if comments[i].row < comments[j].row {
        LinesInOrder(lines, comments[i].row - 1, comments[j].row - 1);
      } else {
        LinesInOrder(lines, comments[j].row - 1, comments[i].row - 1);
      }
    }
  }

  /** The edits `clean_source` keeps, in its order. */
  function KeptEdits(clean: Cleaner, source: string, docs: seq<Docstring>, comments: seq<Comment>): seq<Edit>
    requires Tokenized(SplitOn(source, '\n'), docs, comments)
  {
    Kept(DocEditsOf(clean, source, docs), CommentEditsOf(clean, source, comments))
  }

  /** The source with all kept edits applied at once. */
  ghost function Cleaned(clean: Cleaner, source: string, docs: seq<Docstring>, comments: seq<Comment>): string
    requires Tokenized(SplitOn(source, '\n'), docs, comments)
  {
    Simultaneous(source, Elements(KeptEdits(clean, source, docs, comments)), 0)
  }

  /** What cleaning a source means: disjoint edits, of which each only deletes;
      every character outside them survives, in order. */
  lemma CleanedFacts(clean: Cleaner, source: string, docs: seq<Docstring>, comments: seq<Comment>)
    requires OnlyDeletes(clean)
    requires Tokenized(SplitOn(source, '\n'), docs, comments)
    ensures Disjoint(source, KeptEdits(clean, source, docs, comments))
    ensures IsSubsequence(Cleaned(clean, source, docs, comments), source)
    ensures IsSubsequence(Outside(source, Elements(KeptEdits(clean, source, docs, comments)), 0),
                          Cleaned(clean, source, docs, comments))
  {
    hide IsSubsequence, Simultaneous, Outside, DocEditsOf, CommentEditsOf;
    DocEditsFacts(clean, source, docs);
    CommentEditsFacts(clean, source, comments);
    KeptIsDisjoint(source, DocEditsOf(clean, source, docs), CommentEditsOf(clean, source, comments));
    var kept := Elements(KeptEdits(clean, source, docs, comments));
    OutsideSurvives(source, kept, 0);
    ShrinkingEdits(source, kept, 0);
    assert source[0..] == source;
  }

  method CollectDocEdits(clean: Cleaner, source: string, docs: seq<Docstring>) returns (edits: seq<Edit>)
    requires Tokenized(SplitOn(source, '\n'), docs, [])
    ensures edits == DocEditsOf(clean, source, docs)
  {
    hide DocEdit, SplitOn;
    var lines := SplitOn(source, '\n');
    edits := [];
    for i := 0 to |docs|
      invariant |edits| == i && forall j :: 0 <= j < i ==> edits[j] == DocEditAt(clean, source, docs[j])
    {
      OffsetInSource(source, docs[i].endRow, docs[i].endCol);
      edits := edits + [DocEdit(clean, source, DocSpan(lines, docs[i]))];
    }
  }

  method CollectCommentEdits(clean: Cleaner, source: string, comments: seq<Comment>) returns (edits: seq<Edit>)
    requires Tokenized(SplitOn(source, '\n'), [], comments)
    ensures edits == CommentEditsOf(clean, source, comments)
  {
    hide CommentEdit, SplitOn;
    var lines := SplitOn(source, '\n');
    edits := [];
    for i := 0 to |comments|
      invariant |edits| == i && forall j :: 0 <= j < i ==> edits[j] == CommentEditAt(clean, source, comments[j])
    {
      OffsetInSource(source, comments[i].row, |lines[comments[i].row - 1]|);
      edits := edits + [CommentEdit(clean, source, LineSpan(lines, comments[i].row), CommentSpan(lines, comments[i]))];
    }
  }

  ghost predicate AllKept(clean: Cleaner, source: string, docs: seq<Docstring>, comments: seq<Comment>, edits: set<Edit>) {
    forall e :: e in edits <==> IsKept(clean, source, docs, comments, e)
  }

  function TextCleaner(lex: Lexicon): Cleaner {
    (s: string) => CleanText(lex, s)
  }

  /** `clean_source`: docstring edits, then comment edits, then the splice. */
  method CleanSource(lex: Lexicon, source: string, docs: seq<Docstring>, comments: seq<Comment>) returns (result: string)
    requires Tokenized(SplitOn(source, '\n'), docs, comments)
    ensures result == Cleaned(TextCleaner(lex), source, docs, comments)
    ensures IsSubsequence(result, source)
    ensures IsSubsequence(Outside(source, Elements(KeptEdits(TextCleaner(lex), source, docs, comments)), 0), result)
    ensures exists edits: set<Edit> ::
      AllKept(s => CleanText(lex, s), source, docs, comments, edits) && result == Simultaneous(source, edits, 0)
  {
    hide Simultaneous, DocEditsOf, CommentEditsOf, CleanText, IsSubsequence, IsKept;
    forall e ensures IsKept(TextCleaner(lex), source, docs, comments, e) <==> e in KeptEdits(TextCleaner(lex), source, docs, comments) {
      KeptMeaning(TextCleaner(lex), source, docs, comments, e);
    }
    assert AllKept(TextCleaner(lex), source, docs, comments, Elements(KeptEdits(TextCleaner(lex), source, docs, comments)));
    forall s ensures IsSubsequence(TextCleaner(lex)(s), s) {
      CleanTextOnlyDeletes(lex, s);
    }
    hide TextCleaner;
    var docEdits := CollectDocEdits(TextCleaner(lex), source, docs);
    var commentEdits := CollectCommentEdits(TextCleaner(lex), source, comments);
    CleanedFacts(TextCleaner(lex), source, docs, comments);
    result := SpliceAll(source, Kept(docEdits, commentEdits));
  }

  // ---------------------------------------------------------------- which edits there are

  function Newlines(s: string): nat {
    if s == "" then 0 else Newlines(s[..|s| - 1]) + (if s[|s| - 1] == '\n' then 1 else 0)
  }

  /** `from` is where the row starts: so many newlines come before, one of them directly. */
  predicate StartsRow(source: string, row: nat, from: nat) {
    from <= |source| && Newlines(source[..from]) + 1 == row && (from == 0 || source[from - 1] == '\n')
  }

  /** `at` is the place of that row and column, columns counted in characters from 0. */
  predicate Stands(source: string, row: nat, col: nat, at: nat) {
    col <= at <= |source| && StartsRow(source, row, at - col) && '\n' !in source[at - col..at]
  }

  /** `end` is where the row of the place `at` ends. */
  predicate EndsRow(source: string, at: nat, end: nat) {
    at <= end <= |source| && '\n' !in source[at..end] && (end == |source| || source[end] == '\n')
  }

  lemma {:induction false} NewlinesInFront(c: char, s: string)
    ensures Newlines([c] + s) == (if c == '\n' then 1 else 0) + Newlines(s)
  {
    var t := [c] + s;
    if s == "" {
      assert t[..0] == "";
    } else {
      NewlinesInFront(c, s[..|s| - 1]);
      assert t[..|t| - 1] == [c] + s[..|s| - 1];
    }
  }

  /** The line is the text from `from` to the next newline or the end. */
  predicate LineThere(source: string, from: nat, line: string) {
    && from + |line| <= |source| && source[from..from + |line|] == line
    && (from + |line| == |source| || source[from + |line|] == '\n')
  }

  lemma ShiftedLine(source: string, from: nat, line: string)
    requires source != "" && LineThere(source[1..], from, line)
    ensures LineThere(source, from + 1, line)
    ensures from == 0 ==> LineThere(source, 0, [source[0]] + line)
  {
    assert source[1..][from..from + |line|] == source[from + 1..from + 1 + |line|];
    if from == 0 {
      assert source[0..1 + |line|] == [source[0]] + source[1..][0..|line|];
    }
  }

  lemma SplitFront(source: string)
    requires source != ""
    ensures var rest := SplitOn(source[1..], '\n');
      SplitOn(source, '\n') == if source[0] == '\n' then [""] + rest else [[source[0]] + rest[0]] + rest[1..]
  {
  }

  /** Where the rows after the first one start, once the first character is cut off. */
  lemma LaterStart(source: string, row: nat)
    requires source != "" && 2 <= row <= |SplitOn(source, '\n')|
    ensures var lines, rest := SplitOn(source, '\n'), SplitOn(source[1..], '\n');
      if source[0] == '\n' then
        row - 1 <= |rest| && lines[row - 1] == rest[row - 2] && LineStart(lines, row - 1) == 1 + LineStart(rest, row - 2)
      else
        row <= |rest| && lines[row - 1] == rest[row - 1] && LineStart(lines, row - 1) == 1 + LineStart(rest, row - 1)
  {
    var lines, rest := SplitOn(source, '\n'), SplitOn(source[1..], '\n');
    SplitFront(source);
    hide SplitOn;
    LineStartShift(lines, row - 2);
    if source[0] == '\n' {
      assert lines[1..] == rest;
    } else {
      LineStartShift(rest, row - 2);
      assert lines[1..] == rest[1..];
    }
  }

  lemma {:induction false} LineText(source: string, row: nat)
    requires 1 <= row <= |SplitOn(source, '\n')|
    ensures LineThere(source, LineStart(SplitOn(source, '\n'), row - 1), SplitOn(source, '\n')[row - 1])
  {
    if source == "" {
      NoText();
    } else {
      var lines, rest := SplitOn(source, '\n'), SplitOn(source[1..], '\n');
      SplitFront(source);
      hide LineThere, SplitOn;
      if row == 1 {
        LineText(source[1..], 1);
        ShiftedLine(source, 0, rest[0]);
        if source[0] == '\n' {
          EmptyLine(source);
        }
      } else {
        LaterStart(source, row);
        if source[0] == '\n' {
          LineText(source[1..], row - 1);
          ShiftedLine(source, LineStart(rest, row - 2), rest[row - 2]);
        } else {
          LineText(source[1..], row);
          ShiftedLine(source, LineStart(rest, row - 1), rest[row - 1]);
        }
      }
    }
  }

  lemma NoText()
    ensures LineThere("", 0, "")
  {
  }

  lemma EmptyLine(source: string)
    requires source != "" && source[0] == '\n'
    ensures LineThere(source, 0, "")
  {
  }

  lemma {:induction false} RowStarts(source: string, row: nat)
    requires 1 <= row <= |SplitOn(source, '\n')|
    requires LineStart(SplitOn(source, '\n'), row - 1) <= |source|
    ensures StartsRow(source, row, LineStart(SplitOn(source, '\n'), row - 1))
  {
    if row == 1 {
      FirstRow(source);
    } else if source != "" {
      LaterStart(source, row);
      hide StartsRow, SplitOn;
      var rest := SplitOn(source[1..], '\n');
      if source[0] == '\n' {
        RowStarts(source[1..], row - 1);
        ShiftedRow(source, row, LineStart(rest, row - 2));
      } else {
        RowStarts(source[1..], row);
        LineStartPositive(rest, row - 1);
        ShiftedRow(source, row, LineStart(rest, row - 1));
      }
    }
  }

  lemma LineStartPositive(lines: seq<string>, row: nat)
    requires 0 < row <= |lines|
    ensures LineStart(lines, row) > 0
  {
  }

  lemma FirstRow(source: string)
    ensures StartsRow(source, 1, 0)
  {
    assert source[..0] == "";
  }

  /** The line of a row is the text from where the row starts to where it ends. */
  lemma LineFacts(source: string, row: nat)
    requires 1 <= row <= |SplitOn(source, '\n')|
    ensures var from, line := LineStart(SplitOn(source, '\n'), row - 1), SplitOn(source, '\n')[row - 1];
      StartsRow(source, row, from) && LineThere(source, from, line)
  {
    LineText(source, row);
    hide StartsRow, SplitOn;
    RowStarts(source, row);
  }

  lemma ShiftedRow(source: string, row: nat, from: nat)
    requires source != "" && from <= |source| - 1
    requires row > 0 && StartsRow(source[1..], if source[0] == '\n' then row - 1 else row, from)
    requires from == 0 ==> source[0] == '\n'
    ensures StartsRow(source, row, from + 1)
  {
    assert source[..from + 1] == [source[0]] + source[1..][..from];
    NewlinesInFront(source[0], source[1..][..from]);
  }

  lemma OffsetStands(source: string, row: nat, col: nat)
    requires 1 <= row <= |SplitOn(source, '\n')| && col <= |SplitOn(source, '\n')[row - 1]|
    ensures Stands(source, row, col, Offset(SplitOn(source, '\n'), row, col))
  {
    LineFacts(source, row);
    var lines := SplitOn(source, '\n');
    var from := LineStart(lines, row - 1);
    assert source[from..from + col] == lines[row - 1][..col];
  }

  lemma OffsetEnds(source: string, row: nat, col: nat)
    requires 1 <= row <= |SplitOn(source, '\n')| && col <= |SplitOn(source, '\n')[row - 1]|
    ensures var lines := SplitOn(source, '\n');
      EndsRow(source, Offset(lines, row, col), Offset(lines, row, |lines[row - 1]|))
  {
    LineFacts(source, row);
    var lines := SplitOn(source, '\n');
    var from := LineStart(lines, row - 1);
    assert source[from + col..from + |lines[row - 1]|] == lines[row - 1][col..];
  }

  /** The edit puts the cleaned text in the place of a docstring. */
  ghost predicate CleansDocstring(clean: Cleaner, source: string, docs: seq<Docstring>, e: Edit) {
    exists i :: 0 <= i < |docs|
      && Stands(source, docs[i].startRow, docs[i].startCol, e.start)
      && Stands(source, docs[i].endRow, docs[i].endCol, e.end)
      && e.start < e.end <= |source| && e.replacement == clean(source[e.start..e.end])
  }

  /** Where a comment starts and ends, and where its row ends. */
  predicate CommentPlace(source: string, c: Comment, from: nat, to: nat, end: nat) {
    && c.startCol <= from < to <= end <= |source|
    && Stands(source, c.row, c.startCol, from) && Stands(source, c.row, c.endCol, to) && EndsRow(source, to, end)
  }

  /** A comment alone on its line that carried nothing but a label goes with the whole
      line and its newline; in the place of any other comment comes its cleaned text. */
  predicate CleansAt(clean: Cleaner, source: string, col: nat, from: nat, to: nat, end: nat, e: Edit)
    requires col <= from < to <= end <= |source|
  {
    var text := source[from..to];
    if IsBlankText(source[from - col..from]) && Strip(clean(text)) == "#" && Strip(text) != "#"
    then e == Edit(from - col, end + 1, "")
    else e == Edit(from, to, clean(text))
  }

  ghost predicate CleansComment(clean: Cleaner, source: string, c: Comment, e: Edit) {
    exists from: nat, to: nat, end: nat ::
      CommentPlace(source, c, from, to, end) && CleansAt(clean, source, c.startCol, from, to, end, e)
  }

  /** The edit is one of a docstring, or one of a comment that meets no docstring's edit. */
  ghost predicate IsKept(clean: Cleaner, source: string, docs: seq<Docstring>, comments: seq<Comment>, e: Edit) {
    || CleansDocstring(clean, source, docs, e)
    || ((exists i :: 0 <= i < |comments| && CleansComment(clean, source, comments[i], e))
        && forall d :: CleansDocstring(clean, source, docs, d) ==> Apart(e, d))
  }

  lemma {:induction false} NewlinesGrow(s: string, a: nat, b: nat)
    requires a <= b <= |s|
    ensures Newlines(s[..a]) <= Newlines(s[..b])
    ensures a < b && s[b - 1] == '\n' ==> Newlines(s[..a]) < Newlines(s[..b])
  {
    if a < b {
      assert s[..b][..b - 1] == s[..b - 1];
      NewlinesGrow(s, a, b - 1);
    }
  }

  /** A row and column have one place. */
  lemma PlaceIsUnique(source: string, row: nat, col: nat, p: nat, q: nat)
    requires Stands(source, row, col, p) && Stands(source, row, col, q)
    ensures p == q
  {
    hide Newlines;
    if p < q {
      NewlinesGrow(source, p - col, q - col);
    } else if q < p {
      NewlinesGrow(source, q - col, p - col);
    }
  }

  lemma NotBefore(source: string, at: nat, end: nat, other: nat)
    requires EndsRow(source, at, end) && EndsRow(source, at, other)
    ensures other <= end
  {
    forall k | at <= k < other ensures source[k] != '\n' {
      assert source[k] in source[at..other];
    }
  }

  lemma EndIsUnique(source: string, at: nat, end: nat, other: nat)
    requires EndsRow(source, at, end) && EndsRow(source, at, other)
    ensures end == other
  {
    hide EndsRow;
    NotBefore(source, at, end, other);
    NotBefore(source, at, other, end);
  }

  /** An edit cleans a docstring exactly when it is one of those collected. */
  lemma DocstringEdits(clean: Cleaner, source: string, docs: seq<Docstring>, e: Edit)
    requires Tokenized(SplitOn(source, '\n'), docs, [])
    ensures CleansDocstring(clean, source, docs, e) <==> e in DocEditsOf(clean, source, docs)
  {
    hide Stands, LineStart, SplitOn;
    var edits, lines := DocEditsOf(clean, source, docs), SplitOn(source, '\n');
    forall i | 0 <= i < |docs|
      ensures Stands(source, docs[i].startRow, docs[i].startCol, edits[i].start)
      ensures Stands(source, docs[i].endRow, docs[i].endCol, edits[i].end)
      ensures edits[i].end <= |source| && edits[i].start < edits[i].end
      ensures edits[i].replacement == clean(source[edits[i].start..edits[i].end])
    {
      assert edits[i] == DocEditAt(clean, source, docs[i]);
      OffsetInSource(source, docs[i].endRow, docs[i].endCol);
      OffsetStands(source, docs[i].startRow, docs[i].startCol);
      OffsetStands(source, docs[i].endRow, docs[i].endCol);
    }
    hide DocEditsOf;
    if CleansDocstring(clean, source, docs, e) {
      var i :| 0 <= i < |docs|
        && Stands(source, docs[i].startRow, docs[i].startCol, e.start)
        && Stands(source, docs[i].endRow, docs[i].endCol, e.end)
        && e.start < e.end <= |source| && e.replacement == clean(source[e.start..e.end]);
      PlaceIsUnique(source, docs[i].startRow, docs[i].startCol, e.start, edits[i].start);
      PlaceIsUnique(source, docs[i].endRow, docs[i].endCol, e.end, edits[i].end);
      assert edits[i] == e;
    }
    if e in edits {
      var i :| 0 <= i < |edits| && edits[i] == e;
      assert CleansDocstring(clean, source, docs, e);
    }
  }

  lemma BlankStrip(s: string)
    ensures Strip(s) == "" <==> IsBlankText(s)
  {
    var r := RStrip(s);
    var l := LStrip(r);
    if l == "" {
      assert IsBlankText(r[..|r|]) && r[..|r|] == r;
      forall i | 0 <= i < |s| ensures IsSpace(s[i]) {
        if i < |r| {
          assert s[i] == r[i];
        } else {
          assert s[i] == s[|r|..][i - |r|];
        }
      }
    } else {
      assert l[0] == r[|r| - |l|] == s[|r| - |l|];
    }
  }

  lemma CommentPlaced(source: string, c: Comment)
    requires CommentInLine(SplitOn(source, '\n'), c)
    ensures var lines := SplitOn(source, '\n');
      var from, to := Offset(lines, c.row, c.startCol), Offset(lines, c.row, c.endCol);
      CommentPlace(source, c, from, to, Offset(lines, c.row, |lines[c.row - 1]|))
  {
    hide SplitOn, Stands, EndsRow;
    OffsetInSource(source, c.row, |SplitOn(source, '\n')[c.row - 1]|);
    OffsetStands(source, c.row, c.startCol);
    OffsetStands(source, c.row, c.endCol);
    OffsetEnds(source, c.row, c.endCol);
  }

  lemma PlaceOfComment(source: string, c: Comment, from: nat, to: nat, end: nat, f: nat, t: nat, n: nat)
    requires CommentPlace(source, c, from, to, end) && CommentPlace(source, c, f, t, n)
    ensures from == f && to == t && end == n
  {
    hide Stands, EndsRow;
    PlaceIsUnique(source, c.row, c.startCol, from, f);
    PlaceIsUnique(source, c.row, c.endCol, to, t);
    EndIsUnique(source, to, end, n);
  }

  lemma CommentEditCleans(clean: Cleaner, source: string, c: Comment, e: Edit)
    requires CommentInLine(SplitOn(source, '\n'), c)
    ensures var lines := SplitOn(source, '\n');
      var from, to, end := Offset(lines, c.row, c.startCol), Offset(lines, c.row, c.endCol), Offset(lines, c.row, |lines[c.row - 1]|);
      && c.startCol <= from < to <= end <= |source|
      && (CleansAt(clean, source, c.startCol, from, to, end, e) <==> e == CommentEditAt(clean, source, c))
  {
    hide SplitOn, Strip, IsBlankText;
    var lines := SplitOn(source, '\n');
    OffsetInSource(source, c.row, |lines[c.row - 1]|);
    var from := Offset(lines, c.row, c.startCol);
    BlankStrip(source[from - c.startCol..from]);
  }

  /** The edit made for a comment is the one that cleans it, and the only one. */
  lemma CommentEditMeaning(clean: Cleaner, source: string, c: Comment, e: Edit)
    requires CommentInLine(SplitOn(source, '\n'), c)
    ensures CleansComment(clean, source, c, e) <==> e == CommentEditAt(clean, source, c)
  {
    CommentEditCleans(clean, source, c, e);
    CommentPlaced(source, c);
    var lines := SplitOn(source, '\n');
    var from, to := Offset(lines, c.row, c.startCol), Offset(lines, c.row, c.endCol);
    var end := Offset(lines, c.row, |lines[c.row - 1]|);
    hide SplitOn, Offset, CommentEditAt, CleansAt;
    if CleansComment(clean, source, c, e) {
      var f: nat, t: nat, n: nat :|
        CommentPlace(source, c, f, t, n) && CleansAt(clean, source, c.startCol, f, t, n, e);
      PlaceOfComment(source, c, from, to, end, f, t, n);
    }
  }

  /** The kept edits are exactly those of the docstrings, and those of the comments that
      meet none of them. */
  lemma KeptMeaning(clean: Cleaner, source: string, docs: seq<Docstring>, comments: seq<Comment>, e: Edit)
    requires Tokenized(SplitOn(source, '\n'), docs, comments)
    ensures IsKept(clean, source, docs, comments, e) <==> e in KeptEdits(clean, source, docs, comments)
  {
    hide SplitOn, CleansDocstring, CleansComment, CommentEditAt, DocEditAt, Offset;
    var docEdits, commentEdits := DocEditsOf(clean, source, docs), CommentEditsOf(clean, source, comments);
    forall d ensures CleansDocstring(clean, source, docs, d) <==> d in docEdits {
      DocstringEdits(clean, source, docs, d);
    }
    forall i | 0 <= i < |comments| ensures CleansComment(clean, source, comments[i], e) <==> e == commentEdits[i] {
      CommentEditMeaning(clean, source, comments[i], e);
    }
    hide DocEditsOf, CommentEditsOf;
    OutsideDocstringsElements(docEdits, commentEdits);
    ApartByElements(e, docEdits);
    if e in commentEdits {
      var i :| 0 <= i < |commentEdits| && commentEdits[i] == e;
      assert CleansComment(clean, source, comments[i], e);
    }
  }
}
