/** Sorted lists of distinct numbers, as Python's `sorted(..., reverse=True)` gives for a set. */
module Ordering {

  function Elements(ids: seq<int>): set<int> {
    set id | id in ids
  }

  predicate Descending(ids: seq<int>) {
    forall i, j :: 0 <= i < j < |ids| ==> ids[i] > ids[j]
  }

  lemma {:induction false} DescendingCount(ids: seq<int>)
    requires Descending(ids)
    ensures |Elements(ids)| == |ids|
  {
    if ids != [] {
      var rest := ids[1..];
      DescendingCount(rest);
      assert Elements(ids) == {ids[0]} + Elements(rest) by { assert ids == [ids[0]] + rest; }
      assert ids[0] !in rest;
    }
  }

  lemma SplitElements(ids: seq<int>, start: nat, end: nat)
    requires start <= end <= |ids|
    ensures Elements(ids[..end]) == Elements(ids[..start]) + Elements(ids[start..end])
  {
    assert ids[..end] == ids[..start] + ids[start..end];
  }

  lemma SplitDisjoint(ids: seq<int>, start: nat, end: nat)
    requires start <= end <= |ids| && Descending(ids)
    ensures Elements(ids[..start]) !! Elements(ids[start..end])
    ensures Descending(ids[start..end])
  {
    var a, b := ids[..start], ids[start..end];
    assert forall i, j :: 0 <= i < |a| && 0 <= j < |b| ==> a[i] > b[j];
  }

  lemma NextSmallest(ids: seq<int>, k: nat)
    requires k < |ids| && Descending(ids)
    ensures ids[k] in Elements(ids) && ids[k] !in Elements(ids[..k])
    ensures forall x :: x in Elements(ids[..k]) ==> ids[k] < x
    ensures Elements(ids[..k + 1]) == Elements(ids[..k]) + {ids[k]}
  {
    assert ids[..k + 1] == ids[..k] + [ids[k]];
  }

  lemma DescendingAppend(ids: seq<int>, id: int)
    requires Descending(ids)
    ensures Elements(ids + [id]) == Elements(ids) + {id}
    ensures (forall x :: x in Elements(ids) ==> id < x) ==> Descending(ids + [id])
  {
    assert forall i :: 0 <= i < |ids| ==> ids[i] in Elements(ids);
  }

  lemma {:induction false} LargestExists(ids: set<int>)
    requires ids != {}
    ensures exists m :: m in ids && forall x :: x in ids ==> x <= m
  {
    if !(exists x: int :: x in ids) { assert false; }
    var first :| first in ids;
    var rest := ids - {first};
    if rest == {} {
      assert ids == {first};
    } else {
      LargestExists(rest);
      var m :| m in rest && forall x :: x in rest ==> x <= m;
      var top := if m < first then first else m;
      assert top in ids && forall x :: x in ids ==> x == first || x in rest;
    }
  }

  method SortedDescending(ids: set<int>) returns (sorted: seq<int>)
    ensures Descending(sorted) && Elements(sorted) == ids
  {
    sorted := [];
    var rest := ids;
    while rest != {}
      invariant Descending(sorted) && Elements(sorted) + rest == ids
      invariant forall i, y :: 0 <= i < |sorted| && y in rest ==> sorted[i] > y
    {
      LargestExists(rest);
      var top :| top in rest && forall x :: x in rest ==> x <= top;
      assert Elements(sorted + [top]) == Elements(sorted) + {top};
      sorted := sorted + [top];
      rest := rest - {top};
    }
  }

  predicate Ascending(ids: seq<int>) {
    forall i, j :: 0 <= i < j < |ids| ==> ids[i] < ids[j]
  }

  method SortedAscending(ids: set<int>) returns (sorted: seq<int>)
    ensures Ascending(sorted) && Elements(sorted) == ids
  {
    sorted := [];
    var rest := ids;
    while rest != {}
      invariant Ascending(sorted) && Elements(sorted) + rest == ids
      invariant forall i, y :: 0 <= i < |sorted| && y in rest ==> sorted[i] > y
    {
      LargestExists(rest);
      var top :| top in rest && forall x :: x in rest ==> x <= top;
      assert Elements([top] + sorted) == {top} + Elements(sorted);
      sorted := [top] + sorted;
      rest := rest - {top};
    }
  }
}
