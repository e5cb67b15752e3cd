/** Facts about sequences shared by the models: the subsequence order, used to
    state that a text transformation only deletes, and filtering. */
module Sequences {

  /** `indices` embeds `part` into `whole`: an increasing choice of positions. */
  ghost predicate Embeds<T>(part: seq<T>, whole: seq<T>, indices: seq<nat>) {
    && |indices| == |part|
    && (forall i, j :: 0 <= i < j < |indices| ==> indices[i] < indices[j])
    && (forall i :: 0 <= i < |indices| ==> indices[i] < |whole| && part[i] == whole[indices[i]])
  }

  /** `part` arises from `whole` by deleting elements. */
  ghost predicate IsSubsequence<T>(part: seq<T>, whole: seq<T>) {
    exists indices :: Embeds(part, whole, indices)
  }

  lemma SubsequenceReflexive<T>(s: seq<T>)
    ensures IsSubsequence(s, s)
  {
    assert Embeds(s, s, seq(|s|, i => i));
  }

  lemma SubsequenceTransitive<T>(a: seq<T>, b: seq<T>, c: seq<T>)
    requires IsSubsequence(a, b) && IsSubsequence(b, c)
    ensures IsSubsequence(a, c)
  {
    var f :| Embeds(a, b, f);
    var g :| Embeds(b, c, g);
    assert Embeds(a, c, seq(|f|, i requires 0 <= i < |f| => g[f[i]]));
  }

  lemma SubsequenceConcat<T>(a: seq<T>, b: seq<T>, c: seq<T>, d: seq<T>)
    requires IsSubsequence(a, c) && IsSubsequence(b, d)
    ensures IsSubsequence(a + b, c + d)
  {
    var f :| Embeds(a, c, f);
    var g :| Embeds(b, d, g);
    var h := seq(|a| + |b|, i requires 0 <= i < |a| + |b| => if i < |a| then f[i] else |c| + g[i - |a|]);
    assert Embeds(a + b, c + d, h);
  }

  lemma EmptyIsSubsequence<T>(s: seq<T>)
    ensures IsSubsequence([], s)
  {
    assert Embeds([], s, []);
  }

  /** Cutting out `[from, to)` only deletes. */
  lemma CutIsSubsequence<T>(s: seq<T>, from: nat, to: nat)
    requires from <= to <= |s|
    ensures IsSubsequence(s[..from] + s[to..], s)
  {
    var h := seq(from + |s| - to, i requires 0 <= i < from + |s| - to => if i < from then i else i - from + to);
    assert Embeds(s[..from] + s[to..], s, h);
  }

  lemma SubsequenceContains<T>(a: seq<T>, b: seq<T>, x: T)
    requires IsSubsequence(a, b) && x in a
    ensures x in b
  {
    var f :| Embeds(a, b, f);
    var i :| 0 <= i < |a| && a[i] == x;
    assert b[f[i]] == x;
  }

  /** The items that satisfy a condition, in order. */
  function Filter<T>(keep: T -> bool, items: seq<T>): seq<T> {
    if items == [] then []
    else Filter(keep, items[..|items| - 1]) + (if keep(items[|items| - 1]) then [items[|items| - 1]] else [])
  }

  lemma FilterOne<T>(keep: T -> bool, item: T)
    requires keep(item)
    ensures Filter(keep, [item]) == [item]
  {
    assert [item][..0] == [];
  }

  lemma {:induction false} FilterMember<T>(keep: T -> bool, items: seq<T>, item: T)
    ensures item in Filter(keep, items) <==> item in items && keep(item)
  {
    if items != [] {
      var n := |items| - 1;
      assert items == items[..n] + [items[n]];
      FilterMember(keep, items[..n], item);
    }
  }

  lemma {:induction false} FilterKeeps<T>(keep: T -> bool, items: seq<T>)
    ensures forall k :: 0 <= k < |Filter(keep, items)| ==> keep(Filter(keep, items)[k])
  {
    if items != [] {
      FilterKeeps(keep, items[..|items| - 1]);
    }
  }

  /** `part` is what the items to keep become, in order; they stand at `at`. */
  ghost predicate PicksAt<T, U>(part: seq<U>, whole: seq<T>, keep: T -> bool, become: T -> U, at: seq<nat>) {
    && |at| == |part|
    && (forall i, j :: 0 <= i < j < |at| ==> at[i] < at[j])
    && (forall i :: 0 <= i < |at| ==> at[i] < |whole| && keep(whole[at[i]]) && part[i] == become(whole[at[i]]))
    && (forall k: nat :: k < |whole| && keep(whole[k]) ==> k in at)
  }

  ghost predicate Picks<T, U>(part: seq<U>, whole: seq<T>, keep: T -> bool, become: T -> U) {
    exists at :: PicksAt(part, whole, keep, become, at)
  }

  lemma PicksOneMore<T, U>(part: seq<U>, whole: seq<T>, keep: T -> bool, become: T -> U, at: seq<nat>, next: T)
    requires PicksAt(part, whole, keep, become, at) && keep(next)
    ensures PicksAt(part + [become(next)], whole + [next], keep, become, at + [|whole|])
  {
    var all, more := whole + [next], at + [|whole|];
    forall k: nat | k < |all| && keep(all[k])
      ensures k in more
    {
      if k == |whole| {
        assert more[|at|] == k;
      } else {
        assert whole[k] == all[k] && k in at;
      }
    }
  }

  lemma PicksNoMore<T, U>(part: seq<U>, whole: seq<T>, keep: T -> bool, become: T -> U, at: seq<nat>, next: T)
    requires PicksAt(part, whole, keep, become, at) && !keep(next)
    ensures PicksAt(part, whole + [next], keep, become, at)
  {
    var all := whole + [next];
    forall k: nat | k < |all| && keep(all[k])
      ensures k in at
    {
      assert whole[k] == all[k];
    }
  }

  lemma PicksNext<T, U>(part: seq<U>, whole: seq<T>, keep: T -> bool, become: T -> U, next: T)
    requires Picks(part, whole, keep, become)
    ensures Picks(part + (if keep(next) then [become(next)] else []), whole + [next], keep, become)
  {
    var at :| PicksAt(part, whole, keep, become, at);
    hide PicksAt;
    if keep(next) {
      PicksOneMore(part, whole, keep, become, at, next);
    } else {
      PicksNoMore(part, whole, keep, become, at, next);
      assert part + [] == part;
    }
  }

  lemma PicksNothing<T, U>(keep: T -> bool, become: T -> U)
    ensures Picks([], [], keep, become)
  {
    assert PicksAt([], [], keep, become, []);
  }

  /** `part` are the items to keep, in order. */
  ghost predicate Selects<T>(part: seq<T>, whole: seq<T>, keep: T -> bool) {
    Picks(part, whole, keep, (item: T) => item)
  }

  lemma SelectsNothing<T>(keep: T -> bool)
    ensures Selects([], [], keep)
  {
    PicksNothing(keep, (item: T) => item);
  }

  lemma SelectsNext<T>(part: seq<T>, whole: seq<T>, keep: T -> bool, next: T)
    requires Selects(part, whole, keep)
    ensures Selects(part + (if keep(next) then [next] else []), whole + [next], keep)
  {
    PicksNext(part, whole, keep, (item: T) => item, next);
  }

  lemma SelectsSame<T>(part: seq<T>, whole: seq<T>, keep: T -> bool, other: T -> bool)
    requires Selects(part, whole, keep)
    requires forall k :: 0 <= k < |whole| ==> keep(whole[k]) == other(whole[k])
    ensures Selects(part, whole, other)
  {
    var become := (item: T) => item;
    var at :| PicksAt(part, whole, keep, become, at);
    assert PicksAt(part, whole, other, become, at);
  }

  lemma {:induction false} FilterSelects<T>(keep: T -> bool, items: seq<T>)
    ensures Selects(Filter(keep, items), items, keep)
  {
    hide Selects;
    if items == [] {
      SelectsNothing(keep);
    } else {
      var n := |items| - 1;
      assert items == items[..n] + [items[n]];
      FilterSelects(keep, items[..n]);
      SelectsNext(Filter(keep, items[..n]), items[..n], keep, items[n]);
    }
  }
}
