/** A required line whose residual text takes over a parenthesis without technologies,
    against a comment in `app/agents/candidate_job_matcher.py`. */
module ParenthesisExample {
  import opened PythonText
  import opened RequiredText
  import opened ResidualText
  import opened ShownParentheses
  import opened SubjectRestoration
  import opened Wrappers

  function ExampleLine(): string {
    "Erfahrung mit SQL (Deutsch B2)"
  }

  const ExampleSpans := [Span(14, 17), Span(19, 29)]
  const ExampleTechnology := [Span(14, 17)]

  /** What the patterns and word lists find in the line. */
  ghost predicate ReadsExample(r: Reader) {
    var line, masked := ExampleLine(), Masked(ExampleLine(), ExampleSpans);
    && r.boundaries(masked) == [Boundary(18, 19, true, false), Boundary(29, 30, true, false)]
    && r.tokens(masked, 0, 18) == [Span(0, 9), Span(10, 13)]
    && r.tokens(masked, 19, 29) == [] && r.tokens(masked, 30, 30) == []
    && !r.isMaterial("Erfahrung") && !r.isMaterial("mit") && r.isExperience("Erfahrung") && !r.isExperience("mit")
    && r.qualified(["-Erfahrung", "mit"]) == {0} && r.qualified([]) == {}
    && r.ellipsis(line, 0, 0) == None && r.leadingWord(masked, 0, 0) == None
    && r.parenthetical(line, 17) == Some(Span(19, 29)) && r.separators("          ") == [Span(0, 10)]
  }

  function ExampleReader(): Reader {
    var line, masked := ExampleLine(), Masked(ExampleLine(), ExampleSpans);
    Reader(
      m => if m == masked then [Boundary(18, 19, true, false), Boundary(29, 30, true, false)] else [],
      (m, lo, hi) => if m == masked && lo == 0 && hi == 18 then [Span(0, 9), Span(10, 13)] else [],
      w => false, w => w == "Erfahrung", w => w == "Erfahrung",
      words => if words == ["-Erfahrung", "mit"] then {0} else {},
      w => false, (s, lo, hi) => None, (s, lo, hi) => None, w => w == "mit",
      (s, end) => if s == line && end == 17 then Some(Span(19, 29)) else None,
      s => if s == "          " then [Span(0, 10)] else [])
  }

  lemma ExampleWords(i: int)
    ensures var masked := Masked(ExampleLine(), ExampleSpans);
      |masked| == 30 && (0 <= i < 9 || 10 <= i < 13 ==> !IsSpace(masked[i]))
  {
    hide Masked, IsSpace, ExampleLine;
    ExampleMasked();
    ExampleLetters();
    var masked := Masked(ExampleLine(), ExampleSpans);
    if 0 <= i < 9 {
      assert masked[i] == masked[0..9][i];
    } else if 10 <= i < 13 {
      assert masked[i] == masked[10..13][i - 10];
    }
  }

  lemma ExampleRegular()
    ensures Regular(ExampleReader())
  {
    hide Masked, IsSpace, ExampleLine;
    var r, masked := ExampleReader(), Masked(ExampleLine(), ExampleSpans);
    forall i: int
      ensures |masked| == 30 && (0 <= i < 9 || 10 <= i < 13 ==> !IsSpace(masked[i]))
    {
      ExampleWords(i);
    }
    forall m, lo: nat, hi: nat | lo <= hi <= |m| ensures GoodTokens(m, lo, hi, r.tokens(m, lo, hi)) {
    }
  }

  /** There are such patterns and word lists. */
  lemma ExampleIsRead()
    ensures Regular(ExampleReader()) && Unnested(ExampleReader()) && ReadsExample(ExampleReader())
  {
    hide Masked, IsSpace, ExampleLine, Regular;
    ExampleRegular();
    ExampleLetters();
    assert Unnested(ExampleReader());
    assert "mit" != "Erfahrung";
  }

  lemma ExampleLetters()
    ensures NoSpaces("Erfahrung") && NoSpaces("mit") && NoParenthesis(ExampleLine(), 19, 29)
  {
  }

  lemma ExampleInside(i: nat)
    ensures Inside(ExampleSpans, i) <==> 14 <= i < 17 || 19 <= i < 29
    ensures Inside(ExampleTechnology, i) <==> 14 <= i < 17
  {
    assert ExampleSpans[0] == Span(14, 17) && ExampleSpans[1] == Span(19, 29) && ExampleTechnology[0] == Span(14, 17);
  }

  lemma ExampleMasked()
    ensures var line, masked := ExampleLine(), Masked(ExampleLine(), ExampleSpans);
      && |line| == 30 && line[18] == '(' && line[29] == ')'
      && masked[0..9] == "Erfahrung" && masked[10..13] == "mit"
      && masked[19..29] == "          "
      && line[..19] == "Erfahrung mit SQL (" && (forall i :: 19 <= i < 29 && IsSpace(line[i]) ==> line[i] == ' ')
  {
    forall i: nat ensures Inside(ExampleSpans, i) <==> 14 <= i < 17 || 19 <= i < 29 {
      ExampleInside(i);
    }
    hide Inside;
    var line, masked := ExampleLine(), Masked(ExampleLine(), ExampleSpans);
    assert masked[0..9] == line[0..9] && masked[10..13] == line[10..13];
    assert line[10] == 'm' && line[11] == 'i' && line[12] == 't';
  }

  function ExampleClauses(): seq<Clause> {
    [Clause([Span(0, 9), Span(10, 13)], true, false, 0, 18, {0}), Clause([], true, false, 19, 29, {}),
     Clause([], false, false, 30, 30, {})]
  }

  lemma ExampleCompound(r: Reader, masked: string)
    requires ReadsExample(r) && masked == Masked(ExampleLine(), ExampleSpans)
    ensures IsCompound(r, ExampleLine(), masked, ExampleTechnology, 0, 18, Span(0, 9))
    ensures !IsCompound(r, ExampleLine(), masked, ExampleTechnology, 0, 18, Span(10, 13))
  {
    hide Masked, Inside, ExampleLine;
    ExampleMasked();
    assert masked[0..9][0] == 'E' && ExampleTechnology[0] == Span(14, 17);
  }

  lemma ExampleFirst(r: Reader)
    requires ReadsExample(r)
    ensures |ExampleLine()| == 30
    ensures ClauseAt(r, ExampleLine(), ExampleSpans, ExampleTechnology, 0, 18, false) == ExampleClauses()[0]
    ensures ClauseAt(r, ExampleLine(), ExampleSpans, ExampleTechnology, 19, 29, false) == ExampleClauses()[1]
    ensures ClauseAt(r, ExampleLine(), ExampleSpans, ExampleTechnology, 30, 30, false) == ExampleClauses()[2]
  {
    hide Masked, IsCompound, Inside, ExampleLine;
    ExampleMasked();
    var masked := Masked(ExampleLine(), ExampleSpans);
    ExampleCompound(r, masked);
    assert ExampleSpans[0] == Span(14, 17) && ExampleSpans[1] == Span(19, 29);
    var tokens := r.tokens(masked, 0, 18);
    var compound := ClauseAt(r, ExampleLine(), ExampleSpans, ExampleTechnology, 0, 18, false).compound;
    assert tokens[0] == Span(0, 9) && tokens[1] == Span(10, 13);
    forall n ensures n in compound <==> n == 0 {
      if n == 0 {
        assert tokens[0].start == n;
      }
    }
    assert compound == {0};
    assert ClauseAt(r, ExampleLine(), ExampleSpans, ExampleTechnology, 19, 29, false).compound == {};
    assert ClauseAt(r, ExampleLine(), ExampleSpans, ExampleTechnology, 30, 30, false).compound == {};
  }

  lemma ExamplePieces(r: Reader)
    requires Regular(r) && ReadsExample(r)
    ensures PiecesOf(r, ExampleLine(), ExampleSpans, ExampleTechnology) == ExampleClauses()
  {
    hide Masked, ClauseAt, ExampleLine, Regular;
    ExampleFirst(r);
    var masked := Masked(ExampleLine(), ExampleSpans);
    var found := r.boundaries(masked);
    assert found[..1] == [found[0]] && found[..1][..0] == [];
    assert Counting(ExampleLine(), found[..1]) == [found[0]];
    assert Counting(ExampleLine(), found) == found;
  }

  function ExampleRead(): (x: Line)
    ensures GoodLine(x) && x == Line(ExampleLine(), Masked(ExampleLine(), ExampleSpans), ExampleTechnology)
  {
    assert |ExampleLine()| == 30;
    LineOf(ExampleLine(), ExampleSpans, ExampleTechnology)
  }

  lemma ExampleKept(r: Reader)
    requires ReadsExample(r)
    ensures var masked, clauses := Masked(ExampleLine(), ExampleSpans), ExampleClauses();
      && Kept(r, masked, clauses[0]) == Qualified(r, masked, clauses[0]) == [Span(0, 9)]
      && Kept(r, masked, clauses[1]) == Kept(r, masked, clauses[2]) == []
      && !HasHead(r, masked, clauses[1]) && !HasHead(r, masked, clauses[2])
  {
    hide Masked, ExampleLine;
    ExampleMasked();
    var masked, clauses := Masked(ExampleLine(), ExampleSpans), ExampleClauses();
    var tokens := clauses[0].tokens;
    assert Slice(masked, tokens[0]) == "Erfahrung" && Slice(masked, tokens[1]) == "mit";
    var words := Words(masked, clauses[0]);
    assert "-" + "Erfahrung" == "-Erfahrung" && "" + "mit" == "mit";
    assert |words| == 2 && words[0] == "-Erfahrung" && words[1] == "mit";
    assert words == ["-Erfahrung", "mit"];
    assert MaterialAt(r, masked, clauses[0]) == {} && QualifiedAt(r, masked, clauses[0]) == {0};
    assert tokens[..1] == [tokens[0]] && tokens[..1][..0] == [];
    assert Chosen(tokens[..1], {0}) == [tokens[0]];
    assert Chosen(tokens, {0}) == [tokens[0]];
    assert {} + {0} == {0};
  }

  /** The subject of the phrase is not extended to the left, and what follows the head is shown. */
  lemma ExampleSubject(r: Reader)
    requires ReadsExample(r)
    ensures var x := ExampleRead();
      var v := WithSubject(r, x, View(x.masked, 0, 9), 0, 18, 0, Span(0, 9));
      && v.from == 0 && v.to == 30 && PairAfter(r, x, 9, Span(0, 9), 18) == Some(Span(18, 29))
      && v.display[..19] == "Erfahrung mit SQL (" && v.display[19..29] == "          " && v.display[29] == ')'
  {
    hide Masked, ExampleLine, Inside;
    ExampleMasked();
    forall i: nat ensures Inside(ExampleTechnology, i) <==> 14 <= i < 17 {
      ExampleInside(i);
    }
    var x := ExampleRead();
    assert StepBack(r, x, 0, Reach(0, false)) == None;
    assert x.technology[..0] == [] && LastTrailing(x.technology, 9, 18) == 17;
    assert Restored(x, x.masked, 0, 0) == x.masked;
    var shown := Restored(x, x.masked, 9, 17);
    ExampleParenthesis(r);
    var pair := Span(18, 29);
    assert ParenthesisAfter(r, x, 17) == Some(pair);
    var trailing := View(WithPair(x, shown, pair), 0, 30);
    assert WithTrailing(r, x, View(x.masked, 0, 9), Span(0, 9), 18) == trailing;
    assert WithLeading(r, x, trailing.display, 0, Reach(0, false)) == trailing.display;
    assert PhraseStart(r, x, 0, Reach(0, false)) == 0;
    ExampleShown(trailing.display);
  }

  lemma ExampleShown(display: string)
    requires var x := ExampleRead(); display == WithPair(x, Restored(x, x.masked, 9, 17), Span(18, 29))
    ensures |display| == 30
    ensures display[..19] == "Erfahrung mit SQL (" && display[19..29] == "          " && display[29] == ')'
  {
    hide Masked, ExampleLine, Inside, IsSpace;
    ExampleMasked();
    var x := ExampleRead();
    forall i: nat
      ensures Inside(ExampleSpans, i) <==> 14 <= i < 17 || 19 <= i < 29
      ensures Inside(ExampleTechnology, i) <==> 14 <= i < 17
    {
      ExampleInside(i);
    }
    forall i | 0 <= i < 19 ensures display[i] == x.segment[i] {
    }
    assert display[..19] == x.segment[..19];
    forall i | 19 <= i < 29 ensures display[i] == x.masked[i] {
    }
    assert display[19..29] == x.masked[19..29];
  }

  lemma ExampleParenthesis(r: Reader)
    requires ReadsExample(r)
    ensures EvaluatedParenthesis(r, ExampleRead(), Span(18, 29))
  {
    hide Masked, ExampleLine;
    ExampleMasked();
    assert [Span(0, 10)][0] == Span(0, 10);
  }

  lemma ExampleCollapsed(shown: string)
    requires |shown| == 30
    requires shown[..19] == "Erfahrung mit SQL (" && shown[19..29] == "          " && shown[29] == ')'
    ensures Collapse(shown) == "Erfahrung mit SQL ( )"
  {
    hide Collapse;
    var a, blanks := "Erfahrung", "          ";
    var ab := a + " " + "mit";
    var abc := ab + " " + "SQL";
    var abcd := abc + " " + "(";
    OneWord(a);
    CollapseNext(a, " ", "mit");
    CollapseNext(ab, " ", "SQL");
    CollapseNext(abc, " ", "(");
    CollapseNext(abcd, blanks, ")");
    assert abcd == "Erfahrung mit SQL (";
    assert shown == abcd + blanks + ")";
  }

  lemma OneWord(word: string)
    requires word != "" && NoSpaces(word)
    ensures Collapse(word) == word
  {
    CollapseWord("", word);
    assert "" + word == word;
  }

  lemma ExampleView(r: Reader)
    requires ReadsExample(r) && GoodPieces(ExampleRead(), ExampleClauses())
    ensures var x, pieces := ExampleRead(), ExampleClauses();
      && TextsOf(r, x, pieces, 3) == ["Erfahrung mit SQL ( )"] && PairsOfClause(r, x, pieces, 0) == [Span(18, 29)]
  {
    hide Masked, ExampleLine, Collapse, GoodPieces;
    var x, pieces := ExampleRead(), ExampleClauses();
    ExampleKept(r);
    hide Kept, Qualified, HasHead;
    ExampleSubject(r);
    var first := View(x.masked, 0, 9);
    var view := WithSubject(r, x, first, 0, 18, 0, Span(0, 9));
    hide WithSubject, PairAfter;
    ExampleHead(r);
    var qualified := [Span(0, 9)];
    assert WithWords(r, x, qualified, 0, 0, 18, first) == first;
    assert WithWords(r, x, qualified, 1, 0, 18, first) == view;
    assert Pairs(r, x, qualified, 1, 0, 18, first) == [Span(18, 29)];
    ExampleCollapsed(view.display[0..30]);
    assert TextsOfClause(r, x, pieces, 0) == ["Erfahrung mit SQL ( )"];
    assert TextsOfClause(r, x, pieces, 1) == [] && TextsOfClause(r, x, pieces, 2) == [];
    hide TextsOfClause;
    assert TextsOf(r, x, pieces, 1) == ["Erfahrung mit SQL ( )"];
    assert TextsOf(r, x, pieces, 2) == ["Erfahrung mit SQL ( )"];
  }

  lemma ExampleHead(r: Reader)
    requires ReadsExample(r)
    ensures HeadAt(r, ExampleRead(), [Span(0, 9)], 0) && GroupStart(r, ExampleRead(), [Span(0, 9)], 0) == 0
  {
    hide Masked, ExampleLine;
    ExampleMasked();
    var word := Slice(ExampleRead().masked, Span(0, 9));
    assert word[0] == 'E' && word[8] == 'g';
  }

  /** Any evaluated text is taken for a technology. Of "Erfahrung mit SQL (Deutsch B2)",
      with SQL and the language evaluated, "Erfahrung mit SQL ( )" is left: the
      parenthesis is taken over although it holds no technology at all. */
  lemma LanguageInParenthesis(r: Reader)
    requires Regular(r) && ReadsExample(r)
    ensures ResidualOf(r, ExampleLine(), ExampleSpans, ExampleTechnology) == ["Erfahrung mit SQL ( )"]
    ensures TakesOver(r, ExampleLine(), ExampleSpans, ExampleTechnology, 0, Span(18, 29))
    ensures !OnlyTechnologies(ExampleLine(), ExampleSpans, ExampleTechnology, Span(18, 29))
  {
    hide Masked, ExampleLine, Regular, PiecesOf, PairsOfClause, TextsOf, GoodPieces;
    ExamplePieces(r);
    assert SpansIn(ExampleLine(), ExampleTechnology) by {
      ExampleMasked();
    }
    PiecesAreGood(r, ExampleLine(), ExampleSpans, ExampleTechnology, ExampleClauses());
    ExampleView(r);
    assert [Span(18, 29)][0] == Span(18, 29);
    ExampleInside(19);
    ExampleLanguage();
  }

  lemma ExampleLanguage()
    ensures |ExampleLine()| == 30 && !IsSpace(ExampleLine()[19])
  {
  }
}
