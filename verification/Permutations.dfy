/** Lists without repetition, and when two of them are permutations. */
module Permutations {

  predicate NoRepeats<T(==)>(s: seq<T>) {
    forall i, j :: 0 <= i < j < |s| ==> s[i] != s[j]
  }

  lemma {:induction false} CountInPrefix<T>(s: seq<T>, x: T)
    ensures x in s <==> multiset(s)[x] > 0
    ensures NoRepeats(s) ==> multiset(s)[x] <= 1
  {
    if s != [] {
      var init, last := s[..|s| - 1], s[|s| - 1];
      assert s == init + [last];
      CountInPrefix(init, x);
      if NoRepeats(s) && last == x {
        assert x !in init;
      }
    }
  }

  /** `Counter(s)` shows no count above one exactly when nothing repeats. */
  lemma CountsShowRepeats<T>(s: seq<T>)
    ensures NoRepeats(s) <==> forall i :: 0 <= i < |s| ==> multiset(s)[s[i]] == 1
  {
    if NoRepeats(s) {
      forall i | 0 <= i < |s| ensures multiset(s)[s[i]] == 1 {
        CountInPrefix(s, s[i]);
      }
    } else {
      var i, j :| 0 <= i < j < |s| && s[i] == s[j];
      assert s == s[..j] + s[j..];
      CountInPrefix(s[..j], s[i]);
      CountInPrefix(s[j..], s[i]);
      assert s[..j][i] == s[i] && s[j..][0] == s[i];
      assert multiset(s) == multiset(s[..j]) + multiset(s[j..]);
    }
  }

  /** Two lists without repetition are permutations when they have the same members. */
  lemma SameMembers<T>(a: seq<T>, b: seq<T>)
    requires NoRepeats(a) && NoRepeats(b)
    requires forall x :: x in a <==> x in b
    ensures multiset(a) == multiset(b)
  {
    forall x ensures multiset(a)[x] == multiset(b)[x] {
      CountInPrefix(a, x);
      CountInPrefix(b, x);
    }
  }

  lemma PermutationKeeps<T>(a: seq<T>, b: seq<T>)
    requires multiset(a) == multiset(b)
    ensures forall x :: x in a <==> x in b
    ensures forall i :: 0 <= i < |a| ==> a[i] in b
    ensures NoRepeats(b) ==> NoRepeats(a)
    ensures |a| == |b|
  {
    forall i | 0 <= i < |a| ensures a[i] in b {
      CountInPrefix(a, a[i]);
      CountInPrefix(b, a[i]);
    }
    forall x ensures x in a <==> x in b {
      CountInPrefix(a, x);
      CountInPrefix(b, x);
    }
    CountsShowRepeats(a);
    forall i | 0 <= i < |a| ensures NoRepeats(b) ==> multiset(a)[a[i]] == 1 {
      CountInPrefix(a, a[i]);
      CountInPrefix(b, a[i]);
    }
    assert |multiset(a)| == |a| && |multiset(b)| == |b|;
  }
}
