/** The few `str` operations of Python the models rely on. */
module PythonText {
  import opened Sequences

  /** Python's `str.isspace` for one character. */
  predicate IsSpace(c: char) {
    var n := c as int;
    9 <= n <= 13 || 28 <= n <= 32 || n == 0x85 || n == 0xA0 || n == 0x1680 || 0x2000 <= n <= 0x200A
    || n == 0x2028 || n == 0x2029 || n == 0x202F || n == 0x205F || n == 0x3000
  }

  predicate IsBlankText(s: string) {
    forall i :: 0 <= i < |s| ==> IsSpace(s[i])
  }

  /** `s.rstrip()`: the longest prefix that does not end in white space. */
  function RStrip(s: string): (r: string)
    ensures r <= s
    ensures r != "" ==> !IsSpace(r[|r| - 1])
    ensures IsBlankText(s[|r|..])
  {
    if s != "" && IsSpace(s[|s| - 1]) then RStrip(s[..|s| - 1]) else s
  }

  /** `s.lstrip()` */
  function LStrip(s: string): (r: string)
    ensures |r| <= |s| && r == s[|s| - |r|..]
    ensures r != "" ==> !IsSpace(r[0])
    ensures IsBlankText(s[..|s| - |r|])
  {
    if s != "" && IsSpace(s[0]) then
      var r := LStrip(s[1..]);
      assert s[..|s| - |r|] == [s[0]] + s[1..][..|s| - 1 - |r|];
      r
    else s
  }

  function Strip(s: string): string {
    LStrip(RStrip(s))
  }

  lemma StripIsSubsequence(s: string)
    ensures IsSubsequence(RStrip(s), s)
    ensures IsSubsequence(Strip(s), s)
  {
    var r := RStrip(s);
    CutIsSubsequence(s, |r|, |s|);
    assert s[..|r|] + s[|s|..] == r;
    CutIsSubsequence(r, 0, |r| - |Strip(s)|);
    assert r[..0] + r[|r| - |Strip(s)|..] == Strip(s);
    SubsequenceTransitive(Strip(s), r, s);
  }

  lemma RStripIdempotent(s: string)
    ensures RStrip(RStrip(s)) == RStrip(s)
  {
  }

  /** `s.split(separator)` for a one-character separator: never empty. */
  function SplitOn(s: string, separator: char): (lines: seq<string>)
    ensures |lines| > 0
    ensures forall i :: 0 <= i < |lines| ==> separator !in lines[i]
  {
    if s == "" then [""]
    else
      var rest := SplitOn(s[1..], separator);
      if s[0] == separator then [""] + rest else [[s[0]] + rest[0]] + rest[1..]
  }

  /** `separator.join(lines)` */
  function JoinWith(lines: seq<string>, separator: char): string {
    if |lines| == 0 then ""
    else if |lines| == 1 then lines[0]
    else lines[0] + [separator] + JoinWith(lines[1..], separator)
  }

  lemma {:induction false} JoinSplit(s: string, separator: char)
    ensures JoinWith(SplitOn(s, separator), separator) == s
  {
    if s != "" {
      JoinSplit(s[1..], separator);
      var rest := SplitOn(s[1..], separator);
      if s[0] == separator {
        assert ([""] + rest)[1..] == rest;
      } else {
        var lines := [[s[0]] + rest[0]] + rest[1..];
        assert lines[1..] == rest[1..];
        if |rest| > 1 {
          assert JoinWith(rest, separator) == rest[0] + [separator] + JoinWith(rest[1..], separator);
        }
      }
    }
  }

  lemma {:induction false} SplitLine(line: string, separator: char)
    requires separator !in line
    ensures SplitOn(line, separator) == [line]
  {
    if line != "" {
      SplitLine(line[1..], separator);
      assert [line[0]] + line[1..] == line;
    }
  }

  lemma {:induction false} SplitAtSeparator(line: string, rest: string, separator: char)
    requires separator !in line
    ensures SplitOn(line + [separator] + rest, separator) == [line] + SplitOn(rest, separator)
  {
    var s := line + [separator] + rest;
    if line == "" {
      assert s[1..] == rest;
    } else {
      SplitAtSeparator(line[1..], rest, separator);
      assert s[1..] == line[1..] + [separator] + rest;
      assert [s[0]] + line[1..] == line;
    }
  }

  lemma {:induction false} SplitJoin(lines: seq<string>, separator: char)
    requires |lines| > 0
    requires forall i :: 0 <= i < |lines| ==> separator !in lines[i]
    ensures SplitOn(JoinWith(lines, separator), separator) == lines
  {
    if |lines| == 1 {
      SplitLine(lines[0], separator);
    } else {
      SplitJoin(lines[1..], separator);
      SplitAtSeparator(lines[0], JoinWith(lines[1..], separator), separator);
    }
  }

  predicate OccursAt(t: string, s: string, k: nat) {
    k + |t| <= |s| && forall i :: 0 <= i < |t| ==> s[k + i] == t[i]
  }

  ghost predicate Occurs(t: string, s: string) {
    exists k: nat :: OccursAt(t, s, k)
  }

  predicate NoSpaces(s: string) {
    forall i :: 0 <= i < |s| ==> !IsSpace(s[i])
  }

  /** `" ".join(s.split())` */
  function Collapse(s: string): string {
    if s == "" then ""
    else
      var n := |s| - 1;
      var before := Collapse(s[..n]);
      if IsSpace(s[n]) then before
      else if before == "" || (n > 0 && !IsSpace(s[n - 1])) then before + [s[n]]
      else before + " " + [s[n]]
  }

  lemma {:induction false} CollapseBlanks(s: string, blanks: string)
    requires IsBlankText(blanks)
    ensures Collapse(s + blanks) == Collapse(s)
  {
    hide IsSpace;
    if blanks == "" {
      assert s + blanks == s;
    } else {
      var n := |blanks| - 1;
      CollapseBlanks(s, blanks[..n]);
      assert (s + blanks)[..|s| + n] == s + blanks[..n];
    }
  }

  lemma {:induction false} CollapseWord(s: string, word: string)
    requires NoSpaces(word) && word != "" && (s == "" || IsSpace(s[|s| - 1]))
    ensures Collapse(s + word) == if Collapse(s) == "" then word else Collapse(s) + " " + word
  {
    hide IsSpace;
    var n, text := |word| - 1, s + word;
    assert text[..|s| + n] == s + word[..n] && text[|s| + n] == word[n];
    CollapseStep(text);
    hide Collapse;
    if n == 0 {
      assert s + word[..n] == s && word == [word[0]];
    } else {
      CollapseWord(s, word[..n]);
      assert text[|s| + n - 1] == word[n - 1];
      assert word[..n] + [word[n]] == word;
      assert Collapse(s) + " " + word[..n] + [word[n]] == Collapse(s) + " " + word;
    }
  }

  /** What one more character does. */
  lemma CollapseStep(text: string)
    requires text != ""
    ensures var n := |text| - 1;
      var before := Collapse(text[..n]);
      Collapse(text) ==
        if IsSpace(text[n]) then before
        else if before == "" || (n > 0 && !IsSpace(text[n - 1])) then before + [text[n]]
        else before + " " + [text[n]]
  {
  }

  lemma CollapseNext(s: string, blanks: string, word: string)
    requires Collapse(s) != "" && blanks != "" && IsBlankText(blanks) && word != "" && NoSpaces(word)
    ensures Collapse(s + blanks + word) == Collapse(s) + " " + word
  {
    hide IsSpace, Collapse;
    CollapseBlanks(s, blanks);
    CollapseWord(s + blanks, word);
  }

  /** The characters that are no white space, in order. */
  function Letters(s: string): string {
    if s == "" then "" else Letters(s[..|s| - 1]) + (if IsSpace(s[|s| - 1]) then "" else [s[|s| - 1]])
  }

  lemma {:induction false} LettersOfCollapse(s: string)
    ensures Letters(Collapse(s)) == Letters(s)
  {
    hide IsSpace;
    if s != "" {
      var n := |s| - 1;
      var before := Collapse(s[..n]);
      LettersOfCollapse(s[..n]);
      assert (before + [s[n]])[..|before|] == before;
      assert (before + " ")[..|before|] == before && (before + " " + [s[n]])[..|before| + 1] == before + " ";
      assert Letters(before + " ") == Letters(before) by {
        SpaceIsSpace();
      }
    }
  }

  lemma SpaceIsSpace()
    ensures IsSpace(' ')
  {
  }

  /** The letters of `text` stand in `segment` at these allowed positions, in order. */
  ghost predicate SpelledAt(segment: string, text: string, allowed: iset<nat>, at: seq<nat>) {
    && |at| == |Letters(text)|
    && (forall a, b :: 0 <= a < b < |at| ==> at[a] < at[b])
    && (forall a :: 0 <= a < |at| ==> at[a] < |segment| && at[a] in allowed && segment[at[a]] == Letters(text)[a])
  }

  /** `text` shows nothing but allowed letters of `segment`, each at most once and in order. */
  ghost predicate Spells(segment: string, text: string, allowed: iset<nat>) {
    exists at :: SpelledAt(segment, text, allowed, at)
  }

  lemma {:induction false} SpelledStretch(segment: string, from: nat, shown: string, allowed: iset<nat>)
    returns (at: seq<nat>)
    requires from + |shown| <= |segment|
    requires forall i: nat :: i < |shown| && !IsSpace(shown[i]) ==> shown[i] == segment[from + i] && from + i in allowed
    ensures SpelledAt(segment, shown, allowed, at) && forall a :: 0 <= a < |at| ==> at[a] < from + |shown|
  {
    hide IsSpace;
    at := [];
    if shown != "" {
      var n := |shown| - 1;
      at := SpelledStretch(segment, from, shown[..n], allowed);
      if IsSpace(shown[n]) {
        assert Letters(shown) == Letters(shown[..n]);
      } else {
        assert Letters(shown) == Letters(shown[..n]) + [shown[n]];
        hide Letters;
        SpelledOneMore(segment, shown[..n], shown, allowed, at, from + n);
        at := at + [from + n];
      }
    }
  }

  lemma SpelledOneMore(segment: string, before: string, text: string, allowed: iset<nat>, at: seq<nat>, place: nat)
    requires SpelledAt(segment, before, allowed, at) && place < |segment| && place in allowed
    requires Letters(text) == Letters(before) + [segment[place]] && forall a :: 0 <= a < |at| ==> at[a] < place
    ensures SpelledAt(segment, text, allowed, at + [place])
  {
    hide Letters;
  }

  /** A collapsed stretch of a display spells what the display shows. */
  lemma DisplaySpells(segment: string, display: string, from: nat, to: nat, allowed: iset<nat>)
    requires from <= to <= |display| == |segment|
    requires forall i: nat :: from <= i < to && !IsSpace(display[i]) ==> display[i] == segment[i] && i in allowed
    ensures Spells(segment, Collapse(display[from..to]), allowed)
  {
    hide IsSpace, Collapse, Letters;
    var shown := display[from..to];
    var at := SpelledStretch(segment, from, shown, allowed);
    LettersOfCollapse(shown);
    assert SpelledAt(segment, Collapse(shown), allowed, at);
  }

  lemma {:induction false} CollapsePrefix(s: string, b: nat)
    requires b <= |s|
    ensures Collapse(s[..b]) <= Collapse(s)
  {
    if b < |s| {
      var n := |s| - 1;
      CollapsePrefix(s[..n], b);
      assert s[..n][..b] == s[..b];
    } else {
      assert s[..b] == s;
    }
  }

  /** A run without white space is the end of what is collapsed up to it. */
  lemma {:induction false} CollapseEndsInRun(s: string, a: nat)
    requires a < |s| && forall i :: a <= i < |s| ==> !IsSpace(s[i])
    ensures var c := Collapse(s);
      |c| >= |s| - a && forall j :: a <= j < |s| ==> c[|c| - |s| + j] == s[j]
    decreases |s|
  {
    hide IsSpace;
    var n := |s| - 1;
    var before := Collapse(s[..n]);
    if a < n {
      CollapseEndsInRun(s[..n], a);
      assert Collapse(s) == before + [s[n]];
      forall j | a <= j < |s| ensures Collapse(s)[|before| + 1 - |s| + j] == s[j] {
        if j < n {
          assert before[|before| - n + j] == s[..n][j];
        }
      }
    }
  }

  lemma RunOccurs(s: string, a: nat, b: nat)
    requires a <= b <= |s| && forall i :: a <= i < b ==> !IsSpace(s[i])
    ensures Occurs(s[a..b], Collapse(s))
  {
    hide IsSpace, Collapse;
    hide OccursAt;
    if a == b {
      NothingOccurs(Collapse(s));
      assert s[a..b] == "";
    } else {
      var head := s[..b];
      assert |head| == b && forall i :: a <= i < b ==> head[i] == s[i];
      CollapseEndsInRun(head, a);
      CollapsePrefix(s, b);
      EndOccurs(Collapse(head), Collapse(s), head, a);
      assert head[a..] == s[a..b];
    }
  }

  lemma NothingOccurs(t: string)
    ensures Occurs("", t)
  {
    assert OccursAt("", t, 0);
  }

  lemma EndOccurs(p: string, t: string, head: string, a: nat)
    requires a < |head| && p <= t && |head| - a <= |p|
    requires forall j :: a <= j < |head| ==> p[|p| - |head| + j] == head[j]
    ensures Occurs(head[a..], t)
  {
    var run, k: nat := head[a..], |p| - |head| + a;
    forall i | 0 <= i < |run| ensures t[k + i] == run[i] {
      var j := a + i;
      assert p[|p| - |head| + j] == head[j];
    }
    assert OccursAt(run, t, k);
  }

  /** `casefold`, character by character. */
  function Fold(fold: char -> string, s: string): string {
    if s == "" then "" else Fold(fold, s[..|s| - 1]) + fold(s[|s| - 1])
  }

  /** Folding makes no white space out of a letter, nor the reverse. */
  ghost predicate FoldsWords(fold: char -> string) {
    forall c :: !IsSpace(c) ==> NoSpaces(fold(c))
  }

  lemma {:induction false} FoldConcat(fold: char -> string, a: string, b: string)
    ensures Fold(fold, a + b) == Fold(fold, a) + Fold(fold, b)
  {
    if b == "" {
      assert a + b == a;
    } else {
      var n := |b| - 1;
      assert (a + b)[..|a + b| - 1] == a + b[..n];
      FoldConcat(fold, a, b[..n]);
    }
  }

  lemma {:induction false} FoldNoSpaces(fold: char -> string, s: string)
    requires FoldsWords(fold) && NoSpaces(s)
    ensures NoSpaces(Fold(fold, s))
  {
    if s != "" {
      var n := |s| - 1;
      assert !IsSpace(s[n]);
      FoldNoSpaces(fold, s[..n]);
    }
  }
}
