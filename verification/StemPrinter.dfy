/** `render` of `scripts/build_job_ad_common_stems.py`: a wrapped word list that the
    generated module reads back with `.split()`. */
module StemPrinter {
  import opened PythonText

  const WIDTH := 96
  const MARGIN := "   "
  /** `STEM_LENGTH` of `app/agents/description_similarity.py`. */
  const STEM_LENGTH := 6

  /** `s.split()`: the maximal runs without white space. */
  function Words(s: string): (words: seq<string>)
    ensures s != "" && !IsSpace(s[|s| - 1]) ==> words != []
  {
    if s == "" then []
    else
      var n := |s| - 1;
      var before := Words(s[..n]);
      if IsSpace(s[n]) then before
      else if n > 0 && !IsSpace(s[n - 1])
      then before[..|before| - 1] + [before[|before| - 1] + [s[n]]]
      else before + [[s[n]]]
  }

  /** The finished lines and the line being filled. */
  datatype Page = Page(lines: seq<string>, line: string)

  function Add(page: Page, stem: string): Page {
    if |page.line| + |stem| + 1 > WIDTH then Page(page.lines + [page.line], MARGIN + " " + stem)
    else page.(line := page.line + " " + stem)
  }

  function Fill(stems: seq<string>): Page {
    if stems == [] then Page([], MARGIN) else Add(Fill(stems[..|stems| - 1]), stems[|stems| - 1])
  }

  function LinesOf(stems: seq<string>): seq<string> {
    Fill(stems).lines + [Fill(stems).line]
  }

  /** The body of the generated literal. */
  function Body(stems: seq<string>): string {
    JoinWith(LinesOf(stems), '\n')
  }

  /** The wrapping loop of `render`. */
  method Render(stems: seq<string>) returns (body: string)
    ensures body == Body(stems)
  {
    var lines: seq<string> := [];
    var line := MARGIN;
    for k := 0 to |stems|
      invariant Page(lines, line) == Fill(stems[..k])
    {
      assert stems[..k + 1][..k] == stems[..k];
      if |line| + |stems[k]| + 1 > WIDTH {
        lines := lines + [line];
        line := MARGIN;
      }
      line := line + " " + stems[k];
    }
    assert stems[..|stems|] == stems;
    body := JoinWith(lines + [line], '\n');
  }

  // ---------------------------------------------------------------- reading back

  predicate IsStem(s: string) {
    s != "" && NoSpaces(s)
  }

  lemma {:induction false} WordsSkipSpace(s: string, gap: string)
    requires forall i :: 0 <= i < |gap| ==> IsSpace(gap[i])
    ensures Words(s + gap) == Words(s)
  {
    if gap == "" {
      assert s + gap == s;
    } else {
      var n := |gap| - 1;
      WordsSkipSpace(s, gap[..n]);
      assert (s + gap)[..|s + gap| - 1] == s + gap[..n];
    }
  }

  /** After white space a stem is one more word. */
  lemma {:induction false} WordsAddStem(s: string, stem: string)
    requires s != "" && IsSpace(s[|s| - 1]) && IsStem(stem)
    ensures Words(s + stem) == Words(s) + [stem]
  {
    hide IsSpace;
    var t, n := s + stem, |stem| - 1;
    assert t[..|t| - 1] == s + stem[..n] && t[|t| - 1] == stem[n] && !IsSpace(stem[n]);
    if n == 0 {
      assert s + stem[..0] == s && stem == [stem[0]];
    } else {
      WordsAddStem(s, stem[..n]);
      assert t[|t| - 2] == stem[n - 1] && !IsSpace(stem[n - 1]);
      assert stem == stem[..n] + [stem[n]];
    }
  }

  lemma {:induction false} JoinAppend(lines: seq<string>, line: string)
    ensures JoinWith(lines + [line], '\n') == if lines == [] then line else JoinWith(lines, '\n') + "\n" + line
  {
    if |lines| > 1 {
      JoinAppend(lines[1..], line);
      assert (lines + [line])[1..] == lines[1..] + [line];
    } else if |lines| == 1 {
      assert (lines + [line])[1..] == [line];
    }
  }

  /** The text of a page. */
  function Text(page: Page): string {
    JoinWith(page.lines + [page.line], '\n')
  }

  lemma AddToText(page: Page, stem: string)
    ensures Text(Add(page, stem)) == Text(page) + " " + stem || Text(Add(page, stem)) == Text(page) + "\n" + MARGIN + " " + stem
  {
    hide JoinWith;
    JoinAppend(page.lines, page.line);
    JoinAppend(page.lines, page.line + " " + stem);
    JoinAppend(page.lines + [page.line], MARGIN + " " + stem);
  }

  lemma {:induction false} SplitTextBack(stems: seq<string>)
    requires forall k :: 0 <= k < |stems| ==> IsStem(stems[k])
    ensures Words(Text(Fill(stems))) == stems
  {
    hide IsSpace, Text, IsStem, Add, Words;
    if stems == [] {
      MarginIsBlank();
    } else {
      var n := |stems| - 1;
      SplitTextBack(stems[..n]);
      AddToText(Fill(stems[..n]), stems[n]);
      var before := Text(Fill(stems[..n]));
      var gap := if Text(Fill(stems)) == before + " " + stems[n] then " " else "\n" + MARGIN + " ";
      AfterGap(before, gap, stems[n]);
      assert Text(Fill(stems)) == (before + gap) + stems[n];
      assert stems == stems[..n] + [stems[n]];
    }
  }

  lemma AfterGap(before: string, gap: string, stem: string)
    requires gap == " " || gap == "\n" + MARGIN + " "
    requires IsStem(stem)
    ensures Words(before + gap + stem) == Words(before) + [stem]
  {
    hide Words;
    WordsSkipSpace(before, gap);
    WordsAddStem(before + gap, stem);
  }

  lemma MarginIsBlank()
    ensures Words(Text(Page([], MARGIN))) == []
  {
    WordsSkipSpace("", MARGIN);
    assert "" + MARGIN == MARGIN;
  }

  /** Splitting the printed body at white space gives back the stems, in order, also
      inside the white space the generated literal puts around it. */
  lemma SplitBack(stems: seq<string>, after: string)
    requires forall k :: 0 <= k < |stems| ==> IsStem(stems[k])
    requires forall i :: 0 <= i < |after| ==> IsSpace(after[i])
    ensures Words(Body(stems)) == stems && Words(Body(stems) + after) == stems
  {
    SplitTextBack(stems);
    WordsSkipSpace(Body(stems), after);
  }

  // ---------------------------------------------------------------- line lengths

  predicate Narrow(page: Page) {
    |page.line| <= WIDTH && forall k :: 0 <= k < |page.lines| ==> |page.lines[k]| <= WIDTH
  }

  /** No line is wider than 96 characters unless a single stem is too long for one. */
  lemma {:induction false} LinesNarrow(stems: seq<string>)
    ensures Narrow(Fill(stems)) <==> forall k :: 0 <= k < |stems| ==> |stems[k]| <= WIDTH - |MARGIN| - 1
  {
    if stems != [] {
      var n := |stems| - 1;
      var page := Fill(stems[..n]);
      LinesNarrow(stems[..n]);
      LineAtLeastMargin(stems[..n]);
      assert forall k :: 0 <= k < n ==> stems[..n][k] == stems[k];
      if !Narrow(page) {
        StaysWide(page, stems[n]);
      }
    }
  }

  lemma {:induction false} LineAtLeastMargin(stems: seq<string>)
    ensures |Fill(stems).line| >= |MARGIN|
  {
    if stems != [] {
      LineAtLeastMargin(stems[..|stems| - 1]);
    }
  }

  lemma StaysWide(page: Page, stem: string)
    requires !Narrow(page)
    ensures !Narrow(Add(page, stem))
  {
    if |page.line| > WIDTH {
      assert Add(page, stem).lines[|page.lines|] == page.line;
    } else {
      var k :| 0 <= k < |page.lines| && |page.lines[k]| > WIDTH;
      assert Add(page, stem).lines[k] == page.lines[k];
    }
  }

  /** Stems of the generated list fit. */
  lemma GeneratedLinesNarrow(stems: seq<string>)
    requires forall k :: 0 <= k < |stems| ==> |stems[k]| <= STEM_LENGTH
    ensures forall k :: 0 <= k < |LinesOf(stems)| ==> |LinesOf(stems)[k]| <= WIDTH
  {
    LinesNarrow(stems);
  }
}
