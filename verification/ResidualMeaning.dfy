/** The rules behind the residual texts of `app/agents/candidate_job_matcher.py`, said
    in terms of the characters, words and technologies of the line. */
module ResidualMeaning {
  import opened PythonText
  import opened RequiredText
  import opened ResidualText
  import opened Sequences
  import opened SubjectRestoration
  import opened Wrappers

  predicate IsGap(c: char) {
    c == ' ' || c == '\t'
  }

  /** A technology covers the position. */
  ghost predicate Covered(technology: seq<Span>, i: int) {
    exists t :: t in technology && t.start <= i < t.end
  }

  lemma CoveredMeaning(technology: seq<Span>, i: int)
    ensures Covered(technology, i) <==> Inside(technology, i)
  {
    if Covered(technology, i) {
      var t :| t in technology && t.start <= i < t.end;
      var k :| 0 <= k < |technology| && technology[k] == t;
      assert technology[k].start <= i < technology[k].end;
    }
  }

  /** Between `gap` and `at` stand only spaces and tabs, and none directly before `gap` after `lo`. */
  ghost predicate GapBefore(s: string, lo: nat, at: nat, gap: nat) {
    && gap <= at <= |s| && lo <= gap
    && (forall i :: gap <= i < at ==> IsGap(s[i]))
    && (gap > lo ==> !IsGap(s[gap - 1]))
  }

  lemma {:induction false} GapMeaning(s: string, lo: nat, at: nat, gap: nat)
    requires lo <= at <= |s|
    ensures GapBefore(s, lo, at, gap) <==> gap == BackOverBlanks(s, at, lo)
  {
    if at > lo && IsGap(s[at - 1]) {
      GapMeaning(s, lo, at - 1, gap);
    }
  }

  // ---------------------------------------------------------------- words and clauses

  /** `core` is `s` without the hyphens around it. */
  ghost predicate HyphensOff(s: string, core: string) {
    exists a: nat, b: nat :: HyphensOffAt(s, core, a, b)
  }

  ghost predicate HyphensOffAt(s: string, core: string, a: nat, b: nat) {
    && a <= b <= |s| && core == s[a..b]
    && (forall i :: 0 <= i < a || b <= i < |s| ==> s[i] == '-')
    && (core != "" ==> core[0] != '-' && core[|core| - 1] != '-')
  }

  /** The words as they are judged: a word about a technology of its clause is written as a compound. */
  ghost predicate AreWords(masked: string, clause: Clause, words: seq<string>) {
    && |words| == |clause.tokens|
    && forall k :: 0 <= k < |words| ==>
         words[k] == if clause.tokens[k].start in clause.compound then "-" + Slice(masked, clause.tokens[k])
                     else Slice(masked, clause.tokens[k])
  }

  lemma WordsMeaning(masked: string, clause: Clause, words: seq<string>)
    ensures AreWords(masked, clause, words) <==> words == Words(masked, clause)
  {
    assert forall s: string :: "" + s == s;
  }

  /** An experience head with a technology directly before it, or somewhere after it in its clause. */
  ghost predicate IsAboutTechnology(r: Reader, segment: string, masked: string, technology: seq<Span>, lo: nat, hi: nat,
                                    token: Span)
    requires token.start <= token.end <= |segment| == |masked|
  {
    var word := masked[token.start..token.end];
    && (word != "" ==> word[0] != '-') && r.isExperience(word)
    && (NextToTechnology(segment, technology, lo, token.start)
        || exists t :: t in technology && token.end <= t.start < hi)
  }

  /** A technology ends directly before the gap in front of the position. */
  ghost predicate NextToTechnology(segment: string, technology: seq<Span>, lo: nat, at: nat) {
    exists gap: nat :: GapBefore(segment, lo, at, gap) && lo < gap < at && Covered(technology, gap - 1)
  }

  lemma NextMeaning(segment: string, technology: seq<Span>, lo: nat, at: nat)
    requires lo <= at <= |segment|
    ensures var gap := BackOverBlanks(segment, at, lo);
      NextToTechnology(segment, technology, lo, at) <==> lo < gap < at && Inside(technology, gap - 1)
  {
    forall gap: nat ensures GapBefore(segment, lo, at, gap) <==> gap == BackOverBlanks(segment, at, lo) {
      GapMeaning(segment, lo, at, gap);
    }
    var gap: int := BackOverBlanks(segment, at, lo);
    CoveredMeaning(technology, gap - 1);
    hide GapBefore, Covered, Inside, BackOverBlanks;
    assert GapBefore(segment, lo, at, gap);
  }

  lemma CompoundMeaning(r: Reader, segment: string, masked: string, technology: seq<Span>, lo: nat, hi: nat, token: Span)
    requires lo <= token.start <= token.end <= |segment| == |masked|
    ensures IsCompound(r, segment, masked, technology, lo, hi, token)
      <==> IsAboutTechnology(r, segment, masked, technology, lo, hi, token)
  {
    var word := masked[token.start..token.end];
    assert "-" <= word <==> word != "" && word[0] == '-';
    NextMeaning(segment, technology, lo, token.start);
    hide NextToTechnology, Inside, BackOverBlanks;
    if k :| 0 <= k < |technology| && token.end <= technology[k].start < hi {
      assert technology[k] in technology;
    }
  }

  /** The clause between two positions: its words, whether an evaluated span reaches into
      it, and which of its experience heads are about a technology. */
  ghost predicate IsClause(r: Reader, segment: string, masked: string, spans: seq<Span>, technology: seq<Span>, lo: nat,
                           hi: nat, clause: Clause)
    requires lo <= hi <= |segment| == |masked|
  {
    && clause.start == lo && clause.end == hi && clause.tokens == r.tokens(masked, lo, hi)
    && (clause.owned <==> exists t :: t in spans && t.start < hi && lo < t.end)
    && (forall p :: p in clause.compound <==> CompoundAt(r, segment, masked, technology, clause, p))
  }

  ghost predicate CompoundAt(r: Reader, segment: string, masked: string, technology: seq<Span>, clause: Clause, p: nat)
    requires |segment| == |masked|
  {
    exists t :: t in clause.tokens && t.start == p && t.start <= t.end <= |segment|
      && IsAboutTechnology(r, segment, masked, technology, clause.start, clause.end, t)
  }

  lemma CompoundsMeaning(r: Reader, segment: string, masked: string, technology: seq<Span>, clause: Clause, p: nat)
    requires clause.start <= clause.end <= |segment| == |masked|
    requires forall k :: 0 <= k < |clause.tokens| ==> clause.start <= clause.tokens[k].start
    ensures CompoundAt(r, segment, masked, technology, clause, p) <==>
      exists k :: 0 <= k < |clause.tokens| && clause.tokens[k].start == p
        && clause.tokens[k].start <= clause.tokens[k].end <= |segment|
        && IsCompound(r, segment, masked, technology, clause.start, clause.end, clause.tokens[k])
  {
    var tokens := clause.tokens;
    forall k | 0 <= k < |tokens| && tokens[k].start <= tokens[k].end <= |segment|
      ensures tokens[k] in tokens
      ensures IsCompound(r, segment, masked, technology, clause.start, clause.end, tokens[k])
        <==> IsAboutTechnology(r, segment, masked, technology, clause.start, clause.end, tokens[k])
    {
      CompoundMeaning(r, segment, masked, technology, clause.start, clause.end, tokens[k]);
    }
    hide IsCompound, IsAboutTechnology;
  }

  lemma ClauseMeaning(r: Reader, segment: string, spans: seq<Span>, technology: seq<Span>, lo: nat, hi: nat, after: bool)
    requires Regular(r) && lo <= hi <= |segment|
    ensures IsClause(r, segment, Masked(segment, spans), spans, technology, lo, hi,
                     ClauseAt(r, segment, spans, technology, lo, hi, after))
  {
    hide IsCompound;
    var clause := ClauseAt(r, segment, spans, technology, lo, hi, after);
    var masked := Masked(segment, spans);
    assert GoodTokens(masked, lo, hi, r.tokens(masked, lo, hi));
    if t :| t in spans && t.start < hi && lo < t.end {
      var k :| 0 <= k < |spans| && spans[k] == t;
    }
    forall p: nat ensures p in clause.compound <==> CompoundAt(r, segment, masked, technology, clause, p) {
      CompoundsMeaning(r, segment, masked, technology, clause, p);
    }
    hide CompoundAt;
  }

  /** Boundaries count unless a hyphen stands before a comma or conjunction. */
  lemma {:induction false} CountingMeaning(segment: string, found: seq<Boundary>)
    ensures Selects(Counting(segment, found), found, (b: Boundary) =>
              b.parenthesis || !(0 < b.start <= |segment| && segment[b.start - 1] == '-'))
  {
    hide Selects;
    var keep := (b: Boundary) => b.parenthesis || !(0 < b.start <= |segment| && segment[b.start - 1] == '-');
    if found == [] {
      SelectsNothing(keep);
    } else {
      var n := |found| - 1;
      CountingMeaning(segment, found[..n]);
      SelectsNext(Counting(segment, found[..n]), found[..n], keep, found[n]);
      assert found == found[..n] + [found[n]];
    }
  }

  lemma {:induction false} HyphensMeaning(s: string, core: string)
    ensures HyphensOff(s, core) <==> core == StripHyphens(s)
    decreases |s|
  {
    if s != "" && s[0] == '-' {
      HyphensMeaning(s[1..], core);
      OneHyphenOff(s, core);
    } else if s != "" && s[|s| - 1] == '-' {
      HyphensMeaning(s[..|s| - 1], core);
      LastHyphenOff(s, core);
    } else {
      NoHyphenOff(s, core);
    }
  }

  lemma NoHyphenOff(s: string, core: string)
    requires s == "" || (s[0] != '-' && s[|s| - 1] != '-')
    ensures HyphensOff(s, core) <==> core == s
  {
    if s != "" {
      assert HyphensOff(s, core) ==> core == s[0..|s|];
    }
    assert s == s[0..|s|];
    assert HyphensOffAt(s, s, 0, |s|);
  }

  lemma OneHyphenOff(s: string, core: string)
    requires s != "" && s[0] == '-'
    ensures HyphensOff(s, core) <==> HyphensOff(s[1..], core)
  {
    var t := s[1..];
    if a: nat, b: nat :| HyphensOffAt(s, core, a, b) {
      if a == 0 {
        assert core == "";
        assert forall i :: 0 <= i < |t| ==> t[i] == s[i + 1];
        assert HyphensOffAt(t, core, 0, 0);
      } else {
        assert forall i :: 0 <= i < |t| ==> t[i] == s[i + 1];
        assert forall i :: 0 <= i < b - a ==> s[a..b][i] == s[a + i] == t[a + i - 1] == t[a - 1..b - 1][i];
        assert HyphensOffAt(t, core, a - 1, b - 1);
      }
    }
    if a: nat, b: nat :| HyphensOffAt(t, core, a, b) {
      assert forall i :: 1 <= i < |s| ==> s[i] == t[i - 1];
      assert core == s[a + 1..b + 1] && HyphensOffAt(s, core, a + 1, b + 1);
    }
  }

  lemma LastHyphenOff(s: string, core: string)
    requires s != "" && s[|s| - 1] == '-'
    ensures HyphensOff(s, core) <==> HyphensOff(s[..|s| - 1], core)
  {
    var n := |s| - 1;
    var t := s[..n];
    if a: nat, b: nat :| HyphensOffAt(s, core, a, b) {
      if b == |s| {
        assert core == "";
        assert HyphensOffAt(t, core, n, n);
      } else {
        assert core == t[a..b] && HyphensOffAt(t, core, a, b);
      }
    }
    if a: nat, b: nat :| HyphensOffAt(t, core, a, b) {
      assert core == s[a..b] && HyphensOffAt(s, core, a, b);
    }
  }

  // ---------------------------------------------------------------- the subject before a phrase

  /** Directly before the gap in front of `from` stands a run of evaluated characters, from
      `to` on, and a technology covers its start. */
  ghost predicate TechnologyBefore(x: Line, lo: nat, from: nat, to: nat) {
    exists gap: nat :: GapBefore(x.segment, lo, from, gap) && to < gap && EvaluatedRun(x, lo, to, gap)
      && Covered(x.technology, to)
  }

  /** All of `line[to..gap]` is visible and was blanked out, and no more before it. */
  ghost predicate EvaluatedRun(x: Line, lo: nat, to: nat, gap: nat) {
    && lo <= to <= gap <= |x.segment| == |x.masked|
    && (forall i :: to <= i < gap ==> BlankedOut(x, i))
    && (to > lo ==> !BlankedOut(x, to - 1))
  }

  predicate BlankedOut(x: Line, i: int) {
    0 <= i < |x.segment| && i < |x.masked| && x.masked[i] == ' ' && !IsSpace(x.segment[i])
  }

  /** From `at` the subject reaches further back, to `next`: over a technology, else over a hyphen
      ellipsis, else, once it is coordinated, over a leading word that is no stop word. */
  ghost predicate Extends(r: Reader, x: Line, lo: nat, at: nat, coordinated: bool, next: nat, after: bool) {
    if exists to :: TechnologyBefore(x, lo, at, to) then TechnologyBefore(x, lo, at, next) && after == coordinated
    else if exists to :: EllipsisBefore(r, x, lo, at, to) then EllipsisBefore(r, x, lo, at, next) && after
    else coordinated && after && ModifierBefore(r, x, lo, at, next)
  }

  predicate EllipsisBefore(r: Reader, x: Line, lo: nat, at: nat, to: nat) {
    r.ellipsis(x.segment, lo, at) == Some(to) && lo <= to < at
  }

  ghost predicate ModifierBefore(r: Reader, x: Line, lo: nat, at: nat, to: nat) {
    lo <= to < at && exists text :: r.leadingWord(x.masked, lo, at) == Some(Word(to, text)) && !r.stops(text)
  }

  lemma {:induction false} RunMeaning(x: Line, lo: nat, to: nat, gap: nat)
    requires GoodLine(x) && lo <= gap <= |x.segment|
    ensures EvaluatedRun(x, lo, to, gap) <==> to == BackOverMasked(x.segment, x.masked, gap, lo)
  {
    if gap > lo && BlankedOut(x, gap - 1) {
      RunMeaning(x, lo, to, gap - 1);
    }
  }

  lemma TechnologyBeforeMeaning(x: Line, lo: nat, from: nat, to: nat)
    requires GoodLine(x) && lo <= from <= |x.segment|
    ensures TechnologyBefore(x, lo, from, to) <==>
      var gap := BackOverBlanks(x.segment, from, lo);
      to == BackOverMasked(x.segment, x.masked, gap, lo) && to < gap && Inside(x.technology, to)
  {
    var gap := BackOverBlanks(x.segment, from, lo);
    forall g: nat ensures GapBefore(x.segment, lo, from, g) <==> g == gap {
      GapMeaning(x.segment, lo, from, g);
    }
    RunMeaning(x, lo, to, gap);
    CoveredMeaning(x.technology, to);
    hide GapBefore, EvaluatedRun, Covered, Inside, BackOverBlanks, BackOverMasked, GoodLine;
    assert GapBefore(x.segment, lo, from, gap);
  }

  /** Each step back is the first of the three that applies. */
  lemma StepMeaning(r: Reader, x: Line, lo: nat, now: Reach, next: Reach)
    requires GoodLine(x) && lo <= now.start <= |x.segment|
    ensures StepBack(r, x, lo, now) == Some(next)
      <==> Extends(r, x, lo, now.start, now.coordinated, next.start, next.coordinated)
  {
    forall to: nat ensures TechnologyBefore(x, lo, now.start, to) <==>
      var gap := BackOverBlanks(x.segment, now.start, lo);
      to == BackOverMasked(x.segment, x.masked, gap, lo) && to < gap && Inside(x.technology, to)
    {
      TechnologyBeforeMeaning(x, lo, now.start, to);
    }
    hide TechnologyBefore, Inside, BackOverBlanks, BackOverMasked, GoodLine;
    var run := BackOverMasked(x.segment, x.masked, BackOverBlanks(x.segment, now.start, lo), lo);
    assert TechnologyBefore(x, lo, now.start, run) || forall to :: !TechnologyBefore(x, lo, now.start, to);
    var ellipsis := r.ellipsis(x.segment, lo, now.start);
    assert ellipsis.Some? && lo <= ellipsis.value < now.start ==> EllipsisBefore(r, x, lo, now.start, ellipsis.value);
    var word := r.leadingWord(x.masked, lo, now.start);
    assert word.Some? ==> word == Some(Word(word.value.start, word.value.text));
  }

  /** The places the subject reaches back over: each extends the one before, and none the last. */
  ghost predicate IsWayBack(r: Reader, x: Line, lo: nat, way: seq<Reach>) {
    && way != []
    && (forall n :: 0 < n < |way| ==>
          Extends(r, x, lo, way[n - 1].start, way[n - 1].coordinated, way[n].start, way[n].coordinated))
    && forall next: Reach ::
         var last := way[|way| - 1];
         !Extends(r, x, lo, last.start, last.coordinated, next.start, next.coordinated)
  }

  /** The subject starts where the way back ends. */
  lemma {:induction false} PhraseMeaning(r: Reader, x: Line, lo: nat, now: Reach) returns (way: seq<Reach>)
    requires GoodLine(x) && lo <= now.start <= |x.segment|
    ensures IsWayBack(r, x, lo, way) && way[0] == now && way[|way| - 1].start == PhraseStart(r, x, lo, now)
    decreases now.start
  {
    forall next: Reach
      ensures StepBack(r, x, lo, now) == Some(next)
        <==> Extends(r, x, lo, now.start, now.coordinated, next.start, next.coordinated)
    {
      StepMeaning(r, x, lo, now, next);
    }
    hide StepBack, Extends, GoodLine;
    way := [now];
    if StepBack(r, x, lo, now).Some? {
      var rest := PhraseMeaning(r, x, lo, StepBack(r, x, lo, now).value);
      way := [now] + rest;
    }
  }

  /** The phrase of the `k`-th qualified word starts behind the last head before it. */
  lemma {:induction false} GroupMeaning(r: Reader, x: Line, qualified: seq<Span>, k: nat) returns (first: nat)
    requires k < |qualified|
    ensures first <= k && GroupStart(r, x, qualified, k) == qualified[first].start
    ensures forall i: nat :: first <= i < k ==> !r.isExperience(StripHyphens(Slice(x.masked, qualified[i])))
    ensures first > 0 ==> r.isExperience(StripHyphens(Slice(x.masked, qualified[first - 1])))
  {
    hide StripHyphens, Slice;
    first := k;
    if k > 0 && !HeadAt(r, x, qualified, k - 1) {
      first := GroupMeaning(r, x, qualified, k - 1);
    }
  }

  // ---------------------------------------------------------------- parentheses and shared technologies

  /** The parenthesis whose inside the pattern finds behind `end`, with nothing left in it but separators. */
  ghost predicate TakesPair(r: Reader, x: Line, end: nat, p: Span) {
    && end <= p.start < p.end < |x.segment| == |x.masked|
    && r.parenthetical(x.segment, end) == Some(Span(p.start + 1, p.end))
    && x.segment[p.start] == '(' && x.segment[p.end] == ')'
    && AllCovered(r.separators(x.masked[p.start + 1..p.end]), p.end - p.start - 1)
  }

  ghost predicate AllCovered(spans: seq<Span>, n: nat) {
    forall i: nat :: i < n ==> Covered(spans, i)
  }

  lemma PairMeaning(r: Reader, x: Line, end: nat, p: Span)
    requires GoodLine(x)
    ensures ParenthesisAfter(r, x, end) == Some(p) <==> TakesPair(r, x, end, p)
  {
    if p.start < p.end < |x.segment| == |x.masked| {
      var found := r.separators(x.masked[p.start + 1..p.end]);
      forall i ensures Covered(found, i) <==> Inside(found, i) {
        CoveredMeaning(found, i);
      }
    }
    hide Covered, Inside;
  }

  /** `start` is where the first technology between two positions starts. */
  ghost predicate StartsEarliest(technology: seq<Span>, lo: nat, hi: nat, start: nat) {
    && (exists t :: t in technology && lo <= t.start && t.end <= hi && t.start == start)
    && (forall t :: t in technology && lo <= t.start && t.end <= hi ==> start <= t.start)
  }

  lemma {:induction false} EarliestMeaning(technology: seq<Span>, lo: nat, hi: nat, start: nat)
    ensures EarliestIn(technology, lo, hi) == Some(start) <==> StartsEarliest(technology, lo, hi, start)
  {
    if technology != [] {
      var n := |technology| - 1;
      assert technology == technology[..n] + [technology[n]];
      var earlier := EarliestIn(technology[..n], lo, hi);
      EarliestMeaning(technology[..n], lo, hi, start);
      if earlier.Some? {
        EarliestMeaning(technology[..n], lo, hi, earlier.value);
      }
      SomeEarliest(technology[..n], lo, hi);
    }
  }

  lemma {:induction false} SomeEarliest(technology: seq<Span>, lo: nat, hi: nat)
    ensures EarliestIn(technology, lo, hi).None? <==> forall t :: t in technology ==> !(lo <= t.start && t.end <= hi)
  {
    if technology != [] {
      var n := |technology| - 1;
      assert technology == technology[..n] + [technology[n]];
      SomeEarliest(technology[..n], lo, hi);
    }
  }

  /** A bare experience clause after "and" shares the technology before the bare heads on its left. */
  ghost predicate SharesLeft(r: Reader, x: Line, left: Clause, clause: Clause, start: nat) {
    && left.conjunctionAfter && left.tokens != []
    && (exists t :: t in clause.tokens && r.isExperience(StripHyphens(Slice(x.masked, t))))
    && (forall t :: t in left.tokens + clause.tokens ==> r.isHead(Slice(x.masked, t)))
    && StartsEarliest(x.technology, left.start, left.tokens[0].start, start)
  }

  lemma LeftSharedMeaning(r: Reader, x: Line, left: Option<Clause>, clause: Clause, start: nat)
    ensures LeftShared(r, x, left, clause) == Some(start) <==> left.Some? && SharesLeft(r, x, left.value, clause, start)
  {
    hide StripHyphens, Slice;
    if left.Some? && left.value.tokens != [] {
      EarliestMeaning(x.technology, left.value.start, left.value.tokens[0].start, start);
      hide EarliestIn, StartsEarliest;
      var a, b := left.value.tokens, clause.tokens;
      forall k | 0 <= k < |a| ensures a[k] in a + b {
      }
      forall k | 0 <= k < |b| ensures b[k] in a + b {
      }
      if t :| t in b && r.isExperience(StripHyphens(Slice(x.masked, t))) {
        var k :| 0 <= k < |b| && b[k] == t;
      }
    }
  }

  // ---------------------------------------------------------------- what a clause leaves

  /** The clause after "and" starts with a requirement head, whose complement this one shares. */
  predicate SharesComplement(r: Reader, masked: string, clause: Clause, right: Clause) {
    && clause.conjunctionAfter && right.tokens != []
    && r.startsRequirement(Slice(masked, Span(right.tokens[0].start, right.tokens[|right.tokens| - 1].end)))
  }

  /** The stretch of the line shown for a clause that shares a complement or a technology. */
  ghost predicate SharedStretch(r: Reader, x: Line, pieces: seq<Clause>, k: nat, from: nat, to: nat)
    requires k < |pieces|
  {
    var clause := pieces[k];
    clause.tokens != [] &&
    if k + 1 < |pieces| && SharesComplement(r, x.masked, clause, pieces[k + 1])
    then from == clause.tokens[0].start && to == pieces[k + 1].end
    else k > 0 && SharesLeft(r, x, pieces[k - 1], clause, from) && to == clause.tokens[|clause.tokens| - 1].end
  }

  /** Nothing else of the clause says anything, and it stands on its own. */
  ghost predicate StandsAlone(r: Reader, x: Line, pieces: seq<Clause>, k: nat)
    requires k < |pieces|
  {
    NothingKept(r, x.masked, pieces[k]) && Independent(r, x.masked, pieces[k], RightOf(pieces, k))
  }

  /** These words of the clause are shown, with the subjects of its experience phrases. */
  ghost predicate ShowsWords(r: Reader, x: Line, clause: Clause, words: seq<Span>, view: Option<View>)
    requires GoodLine(x)
  {
    var qualified := Qualified(r, x.masked, clause);
    && words != [] && clause.end <= |x.segment|
    && Ascending(words, clause.start, clause.end) && Ascending(qualified, clause.start, clause.end)
    && view == Some(ClauseView(r, x, words, qualified, clause.start, clause.end))
  }

  lemma KeptView(r: Reader, x: Line, pieces: seq<Clause>, k: nat)
    requires GoodLine(x) && GoodPieces(x, pieces) && k < |pieces|
    requires !NothingKept(r, x.masked, pieces[k])
    ensures ShowsWords(r, x, pieces[k], Kept(r, x.masked, pieces[k]), ViewOfClause(r, x, pieces, k))
  {
    hide GoodLine, Kept, NothingKept, HasHead, HasExperienceHead, SharesRight, LeftShared, ClauseView, TechnologyView,
      Qualified;
    ClauseBounds(x, pieces[k]);
    KeptInClause(r, x, pieces[k]);
    KeptMeaning(r, x.masked, pieces[k], Span(0, 0));
  }

  /** A complement on the right is shared. */
  ghost predicate SharesOnward(r: Reader, x: Line, pieces: seq<Clause>, k: nat)
    requires k < |pieces|
  {
    k + 1 < |pieces| && SharesComplement(r, x.masked, pieces[k], pieces[k + 1])
  }

  lemma ComplementMeaning(r: Reader, masked: string, clause: Clause, right: Option<Clause>)
    requires NothingKept(r, masked, clause) && Independent(r, masked, clause, right)
    ensures right.Some? && SharesComplement(r, masked, clause, right.value) ==> HasExperienceHead(r, masked, clause)
  {
    HeadsMeaning(r, masked, clause, right);
    SharesRightMeaning(r, masked, clause, right);
    hide NothingKept, SharesRight, HasExperienceHead, SharesAway, SharesComplement, Slice, StripHyphens;
  }

  lemma AloneHasWords(r: Reader, x: Line, pieces: seq<Clause>, k: nat)
    requires k < |pieces| && StandsAlone(r, x, pieces, k)
    ensures pieces[k].tokens != [] && Kept(r, x.masked, pieces[k]) == [] && !pieces[k].owned
    ensures HasHead(r, x.masked, pieces[k])
    ensures SharesRight(r, x.masked, pieces[k], RightOf(pieces, k)) <==> SharesOnward(r, x, pieces, k)
    ensures SharesOnward(r, x, pieces, k) ==> HasExperienceHead(r, x.masked, pieces[k])
  {
    var clause, right := pieces[k], RightOf(pieces, k);
    KeptMeaning(r, x.masked, clause, Span(0, 0));
    HeadsMeaning(r, x.masked, clause, right);
    SharesRightMeaning(r, x.masked, clause, right);
    ComplementMeaning(r, x.masked, clause, right);
    hide Kept, NothingKept, HasExperienceHead, SharesRight, SharesAway, Slice, StripHyphens, SharesComplement;
  }

  lemma OnwardView(r: Reader, x: Line, pieces: seq<Clause>, k: nat)
    requires GoodLine(x) && GoodPieces(x, pieces) && k < |pieces|
    requires StandsAlone(r, x, pieces, k) && SharesOnward(r, x, pieces, k)
    ensures var from, to := pieces[k].tokens[0].start, pieces[k + 1].end;
      from <= to <= |x.segment| && ViewOfClause(r, x, pieces, k) == Some(TechnologyView(x, from, to))
  {
    hide StandsAlone, SharesComplement, SharesRight, LeftShared, HasHead, HasExperienceHead, TechnologyView, ClauseView,
      GoodLine, GoodPieces, Kept, Qualified;
    AloneHasWords(r, x, pieces, k);
    RightBounds(x, pieces, k);
  }

  lemma LeftView(r: Reader, x: Line, pieces: seq<Clause>, k: nat, from: nat)
    requires GoodLine(x) && GoodPieces(x, pieces) && k < |pieces|
    requires StandsAlone(r, x, pieces, k) && !SharesOnward(r, x, pieces, k)
    requires k > 0 && SharesLeft(r, x, pieces[k - 1], pieces[k], from)
    ensures pieces[k].tokens != []
    ensures var to := pieces[k].tokens[|pieces[k].tokens| - 1].end;
      from <= to <= |x.segment| && ViewOfClause(r, x, pieces, k) == Some(TechnologyView(x, from, to))
  {
    hide StandsAlone, SharesOnward, SharesLeft, SharesRight, LeftShared, HasHead, HasExperienceHead, TechnologyView,
      ClauseView, GoodLine, GoodPieces, Kept, Qualified;
    AloneHasWords(r, x, pieces, k);
    LeftSharedMeaning(r, x, LeftOf(pieces, k), pieces[k], from);
    SharedStart(r, x, pieces, k);
  }

  lemma SharedView(r: Reader, x: Line, pieces: seq<Clause>, k: nat, from: nat, to: nat)
    requires GoodLine(x) && GoodPieces(x, pieces) && k < |pieces|
    requires StandsAlone(r, x, pieces, k) && SharedStretch(r, x, pieces, k, from, to)
    ensures from <= to <= |x.segment| && ViewOfClause(r, x, pieces, k) == Some(TechnologyView(x, from, to))
  {
    hide StandsAlone, SharesComplement, SharesLeft, TechnologyView, ViewOfClause, GoodLine, GoodPieces;
    if SharesOnward(r, x, pieces, k) {
      OnwardView(r, x, pieces, k);
    } else {
      LeftView(r, x, pieces, k, from);
    }
  }

  lemma SomeStretch(r: Reader, x: Line, pieces: seq<Clause>, k: nat, start: nat)
    requires k < |pieces| && pieces[k].tokens != []
    requires SharesOnward(r, x, pieces, k) || (k > 0 && SharesLeft(r, x, pieces[k - 1], pieces[k], start))
    ensures exists from: nat, to: nat :: SharedStretch(r, x, pieces, k, from, to)
  {
    hide SharesComplement, SharesLeft;
    var clause := pieces[k];
    if SharesOnward(r, x, pieces, k) {
      assert SharedStretch(r, x, pieces, k, clause.tokens[0].start, pieces[k + 1].end);
    } else {
      assert SharedStretch(r, x, pieces, k, start, clause.tokens[|clause.tokens| - 1].end);
    }
  }

  lemma NoStretch(r: Reader, x: Line, pieces: seq<Clause>, k: nat)
    requires k < |pieces| && pieces[k].tokens != []
    requires forall from: nat, to: nat :: !SharedStretch(r, x, pieces, k, from, to)
    ensures !SharesOnward(r, x, pieces, k) && LeftShared(r, x, LeftOf(pieces, k), pieces[k]) == None
  {
    hide SharesOnward, SharedStretch, SharesLeft, LeftShared;
    if SharesOnward(r, x, pieces, k) {
      SomeStretch(r, x, pieces, k, 0);
    }
    var shared := LeftShared(r, x, LeftOf(pieces, k), pieces[k]);
    if shared.Some? {
      LeftSharedMeaning(r, x, LeftOf(pieces, k), pieces[k], shared.value);
      SomeStretch(r, x, pieces, k, shared.value);
    }
  }

  lemma AloneView(r: Reader, x: Line, pieces: seq<Clause>, k: nat)
    requires GoodLine(x) && GoodPieces(x, pieces) && k < |pieces| && StandsAlone(r, x, pieces, k)
    requires forall from: nat, to: nat :: !SharedStretch(r, x, pieces, k, from, to)
    ensures ShowsWords(r, x, pieces[k], pieces[k].tokens, ViewOfClause(r, x, pieces, k))
  {
    var clause := pieces[k];
    AloneHasWords(r, x, pieces, k);
    ClauseBounds(x, clause);
    KeptInClause(r, x, clause);
    NoStretch(r, x, pieces, k);
    hide StandsAlone, SharesOnward, SharedStretch, SharesRight, LeftShared, HasHead, HasExperienceHead, TechnologyView,
      ClauseView, GoodLine, GoodPieces, Kept, Qualified;
  }

  /** What is shown of a clause: its kept words with their subjects; of one that stands alone, the shared
      stretch with its technologies, or all its words with theirs; of any other, nothing. */
  lemma ViewMeaning(r: Reader, x: Line, pieces: seq<Clause>, k: nat)
    requires GoodLine(x) && GoodPieces(x, pieces) && k < |pieces|
    ensures var clause, view := pieces[k], ViewOfClause(r, x, pieces, k);
      && (NothingKept(r, x.masked, clause) && !StandsAlone(r, x, pieces, k) ==> view == None)
      && (!NothingKept(r, x.masked, clause) ==> ShowsWords(r, x, clause, Kept(r, x.masked, clause), view))
      && (StandsAlone(r, x, pieces, k) ==>
            (forall from: nat, to: nat :: SharedStretch(r, x, pieces, k, from, to) ==>
               from <= to <= |x.segment| && view == Some(TechnologyView(x, from, to)))
            && ((forall from: nat, to: nat :: !SharedStretch(r, x, pieces, k, from, to)) ==>
                  ShowsWords(r, x, clause, clause.tokens, view)))
  {
    hide GoodLine, GoodPieces, Kept, NothingKept, Independent, ShowsWords, SharedStretch, TechnologyView;
    SilentMeaning(r, x, pieces, k);
    if !NothingKept(r, x.masked, pieces[k]) {
      KeptView(r, x, pieces, k);
    } else if StandsAlone(r, x, pieces, k) {
      forall from: nat, to: nat | SharedStretch(r, x, pieces, k, from, to)
        ensures from <= to <= |x.segment| && ViewOfClause(r, x, pieces, k) == Some(TechnologyView(x, from, to))
      {
        SharedView(r, x, pieces, k, from, to);
      }
      if forall from: nat, to: nat :: !SharedStretch(r, x, pieces, k, from, to) {
        AloneView(r, x, pieces, k);
      }
    }
  }

  lemma SharesRightMeaning(r: Reader, masked: string, clause: Clause, right: Option<Clause>)
    requires NothingKept(r, masked, clause)
    ensures SharesRight(r, masked, clause, right) <==> right.Some? && SharesComplement(r, masked, clause, right.value)
  {
    KeptMeaning(r, masked, clause, Span(0, 0));
    hide Kept, Slice;
  }

  /** The qualified words are the tokens at the places the classifier names, given the words as judged. */
  lemma QualifiedMeaning(r: Reader, masked: string, clause: Clause, words: seq<string>, t: Span)
    requires AreWords(masked, clause, words)
    ensures t in Qualified(r, masked, clause) <==>
      exists i: nat :: i < |clause.tokens| && clause.tokens[i] == t && i in r.qualified(words)
  {
    WordsMeaning(masked, clause, words);
    hide Words;
    var at := r.qualified(words);
    forall i: nat | i < |clause.tokens| && i in at ensures clause.tokens[i] in Chosen(clause.tokens, at) {
      ChosenHas(clause.tokens, at, i);
    }
    if t in Chosen(clause.tokens, at) {
      var k :| 0 <= k < |Chosen(clause.tokens, at)| && Chosen(clause.tokens, at)[k] == t;
      ChosenFrom(clause.tokens, at, k);
    }
  }

  // ---------------------------------------------------------------- identity

  /** The identity is the folded text with single spaces, without trailing punctuation and spaces. */
  ghost predicate IsIdentity(fold: char -> string, text: string, identity: string) {
    var c := Collapse(Fold(fold, text));
    && identity <= c
    && (forall i :: |identity| <= i < |c| ==> c[i] in {' ', '.', '!', '?', ';', ':', ','})
    && (identity != "" ==> identity[|identity| - 1] !in {' ', '.', '!', '?', ';', ':', ','})
  }

  lemma {:induction false} DropTrailingMeaning(c: string, kept: string)
    ensures kept == DropTrailing(c) <==>
      && kept <= c
      && (forall i :: |kept| <= i < |c| ==> c[i] in {' ', '.', '!', '?', ';', ':', ','})
      && (kept != "" ==> kept[|kept| - 1] !in {' ', '.', '!', '?', ';', ':', ','})
  {
    if c != "" {
      var n := |c| - 1;
      if IsTrailing(c[n]) {
        DropTrailingMeaning(c[..n], kept);
      }
    }
  }

  lemma IdentityMeaning(fold: char -> string, text: string, identity: string)
    ensures identity == Identity(fold, text) <==> IsIdentity(fold, text, identity)
  {
    DropTrailingMeaning(Collapse(Fold(fold, text)), identity);
  }
}
