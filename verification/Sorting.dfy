/** Python's `sorted(items, key=...)` for an integer key: stable insertion. */
module Sorting {
  import opened Permutations

  function Insert<T>(key: T -> int, item: T, sorted: seq<T>): seq<T> {
    if sorted == [] || key(item) < key(sorted[0]) then [item] + sorted
    else [sorted[0]] + Insert(key, item, sorted[1..])
  }

  function SortBy<T>(key: T -> int, items: seq<T>): seq<T> {
    if items == [] then [] else Insert(key, items[|items| - 1], SortBy(key, items[..|items| - 1]))
  }

  predicate Ordered<T>(key: T -> int, items: seq<T>) {
    forall i, j :: 0 <= i < j < |items| ==> key(items[i]) <= key(items[j])
  }

  predicate StrictlyOrdered<T>(key: T -> int, items: seq<T>) {
    forall i, j :: 0 <= i < j < |items| ==> key(items[i]) < key(items[j])
  }

  predicate DistinctKeys<T>(key: T -> int, items: seq<T>) {
    forall i, j :: 0 <= i < j < |items| ==> key(items[i]) != key(items[j])
  }

  lemma {:induction false} InsertKeeps<T>(key: T -> int, item: T, sorted: seq<T>)
    ensures multiset(Insert(key, item, sorted)) == multiset{item} + multiset(sorted)
  {
    if sorted == [] || key(item) < key(sorted[0]) {
    } else {
      InsertKeeps(key, item, sorted[1..]);
      assert sorted == [sorted[0]] + sorted[1..];
    }
  }

  lemma {:induction false} InsertOrders<T>(key: T -> int, item: T, sorted: seq<T>)
    requires Ordered(key, sorted)
    ensures Ordered(key, Insert(key, item, sorted))
  {
    if sorted == [] || key(item) < key(sorted[0]) {
    } else {
      var rest := Insert(key, item, sorted[1..]);
      InsertOrders(key, item, sorted[1..]);
      InsertKeeps(key, item, sorted[1..]);
      forall k | 0 <= k < |rest| ensures key(sorted[0]) <= key(rest[k]) {
        assert rest[k] in multiset(rest);
        assert rest[k] == item || rest[k] in sorted[1..];
      }
    }
  }

  lemma {:induction false} SortFacts<T>(key: T -> int, items: seq<T>)
    ensures multiset(SortBy(key, items)) == multiset(items) && Ordered(key, SortBy(key, items))
  {
    if items != [] {
      var n := |items| - 1;
      assert items == items[..n] + [items[n]];
      SortFacts(key, items[..n]);
      InsertKeeps(key, items[n], SortBy(key, items[..n]));
      InsertOrders(key, items[n], SortBy(key, items[..n]));
    }
  }

  lemma SortStrictly<T>(key: T -> int, items: seq<T>)
    requires DistinctKeys(key, items)
    ensures StrictlyOrdered(key, SortBy(key, items))
  {
    hide SortBy;
    var sorted := SortBy(key, items);
    SortFacts(key, items);
    assert NoRepeats(items) by {
      assert forall i, j :: 0 <= i < j < |items| ==> key(items[i]) != key(items[j]);
    }
    PermutationKeeps(sorted, items);
    forall i, j | 0 <= i < j < |sorted| ensures key(sorted[i]) < key(sorted[j]) {
      assert sorted[i] in items && sorted[j] in items && sorted[i] != sorted[j];
    }
  }

  lemma SmallestFirst<T>(key: T -> int, a: seq<T>, b: seq<T>)
    requires StrictlyOrdered(key, a) && StrictlyOrdered(key, b) && multiset(a) == multiset(b) && a != []
    ensures b != [] && a[0] == b[0] && multiset(a[1..]) == multiset(b[1..])
  {
    PermutationKeeps(a, b);
    assert a[0] in a && b[0] in b;
    RestOfMultiset(a);
    RestOfMultiset(b);
  }

  lemma RestOfMultiset<T>(s: seq<T>)
    requires s != []
    ensures multiset(s[1..]) == multiset(s) - multiset{s[0]}
  {
    assert s == [s[0]] + s[1..];
  }

  lemma {:induction false} StrictlyOrderedUnique<T>(key: T -> int, a: seq<T>, b: seq<T>)
    requires StrictlyOrdered(key, a) && StrictlyOrdered(key, b) && multiset(a) == multiset(b)
    ensures a == b
  {
    if a != [] {
      SmallestFirst(key, a, b);
      StrictlyOrderedUnique(key, a[1..], b[1..]);
      assert a == [a[0]] + a[1..] && b == [b[0]] + b[1..];
    } else {
      assert |multiset(b)| == 0;
    }
  }

  /** With distinct keys the sorted list only depends on which items there are. */
  lemma SortIgnoresOrder<T>(key: T -> int, a: seq<T>, b: seq<T>)
    requires DistinctKeys(key, a) && DistinctKeys(key, b)
    ensures SortBy(key, a) == SortBy(key, b) <==> multiset(a) == multiset(b)
  {
    SortFacts(key, a);
    SortFacts(key, b);
    SortStrictly(key, a);
    SortStrictly(key, b);
    if multiset(a) == multiset(b) {
      StrictlyOrderedUnique(key, SortBy(key, a), SortBy(key, b));
    }
  }

  // A stable sort by any comparison.

  function InsertWith<T>(less: (T, T) -> bool, item: T, sorted: seq<T>): seq<T> {
    if sorted == [] || less(item, sorted[0]) then [item] + sorted
    else [sorted[0]] + InsertWith(less, item, sorted[1..])
  }

  function SortWith<T>(less: (T, T) -> bool, items: seq<T>): seq<T> {
    if items == [] then [] else InsertWith(less, items[|items| - 1], SortWith(less, items[..|items| - 1]))
  }

  /** Nothing comes before an item that is less. */
  predicate OrderedWith<T>(less: (T, T) -> bool, items: seq<T>) {
    forall i, j :: 0 <= i < j < |items| ==> !less(items[j], items[i])
  }

  /** The comparison is a strict weak order. */
  ghost predicate WeakOrder<T(!new)>(less: (T, T) -> bool) {
    && (forall a, b :: less(a, b) ==> !less(b, a))
    && (forall a, b, c :: !less(b, a) && !less(c, b) ==> !less(c, a))
  }

  lemma {:induction false} InsertWithKeeps<T>(less: (T, T) -> bool, item: T, sorted: seq<T>)
    ensures multiset(InsertWith(less, item, sorted)) == multiset{item} + multiset(sorted)
  {
    if sorted == [] || less(item, sorted[0]) {
    } else {
      InsertWithKeeps(less, item, sorted[1..]);
      assert sorted == [sorted[0]] + sorted[1..];
    }
  }

  lemma {:induction false} InsertWithOrders<T(!new)>(less: (T, T) -> bool, item: T, sorted: seq<T>)
    requires WeakOrder(less) && OrderedWith(less, sorted)
    ensures OrderedWith(less, InsertWith(less, item, sorted))
  {
    if sorted == [] {
    } else if less(item, sorted[0]) {
      forall j | 0 <= j < |sorted| ensures !less(sorted[j], item) {
        assert j > 0 ==> !less(sorted[j], sorted[0]);
      }
    } else {
      var rest := InsertWith(less, item, sorted[1..]);
      InsertWithOrders(less, item, sorted[1..]);
      InsertWithKeeps(less, item, sorted[1..]);
      forall k | 0 <= k < |rest| ensures !less(rest[k], sorted[0]) {
        assert rest[k] in multiset(rest);
        assert rest[k] == item || rest[k] in sorted[1..];
      }
    }
  }

  lemma {:induction false} SortWithFacts<T(!new)>(less: (T, T) -> bool, items: seq<T>)
    requires WeakOrder(less)
    ensures multiset(SortWith(less, items)) == multiset(items) && OrderedWith(less, SortWith(less, items))
  {
    if items != [] {
      var n := |items| - 1;
      assert items == items[..n] + [items[n]];
      SortWithFacts(less, items[..n]);
      InsertWithKeeps(less, items[n], SortWith(less, items[..n]));
      InsertWithOrders(less, items[n], SortWith(less, items[..n]));
    }
  }

  /** `sorted` are the items in order, equal ones as they stood; `at` says where each came from. */
  ghost predicate SortsAt<T>(less: (T, T) -> bool, sorted: seq<T>, items: seq<T>, at: seq<nat>) {
    && |at| == |sorted| == |items|
    && (forall k :: 0 <= k < |at| ==> at[k] < |items| && sorted[k] == items[at[k]])
    && (forall i, j :: 0 <= i < j < |at| ==> at[i] != at[j])
    && (forall i, j :: 0 <= i < j < |at| ==> ComesBefore(less, sorted[i], sorted[j], at[i], at[j]))
  }

  predicate ComesBefore<T>(less: (T, T) -> bool, a: T, b: T, i: nat, j: nat) {
    !less(b, a) && (less(a, b) || i < j)
  }

  /** A stable sort of the items. */
  ghost predicate SortsStably<T>(less: (T, T) -> bool, sorted: seq<T>, items: seq<T>) {
    exists at :: SortsAt(less, sorted, items, at)
  }

  /** An item is inserted behind everything it is not less than. */
  lemma {:induction false} InsertedAt<T(!new)>(less: (T, T) -> bool, item: T, sorted: seq<T>) returns (q: nat)
    ensures q <= |sorted| && InsertWith(less, item, sorted) == sorted[..q] + [item] + sorted[q..]
    ensures forall k :: 0 <= k < q ==> !less(item, sorted[k])
    ensures q < |sorted| ==> less(item, sorted[q])
  {
    if sorted == [] || less(item, sorted[0]) {
      q := 0;
    } else {
      var r := InsertedAt(less, item, sorted[1..]);
      q := r + 1;
      assert sorted[1..][..r] == sorted[1..q] && sorted[1..][r..] == sorted[q..];
      assert [sorted[0]] + sorted[1..q] == sorted[..q];
    }
  }

  lemma SortsInserted<T(!new)>(less: (T, T) -> bool, item: T, sorted: seq<T>, items: seq<T>, at: seq<nat>, q: nat)
    requires WeakOrder(less) && SortsAt(less, sorted, items, at) && q <= |sorted|
    requires forall k :: 0 <= k < q ==> !less(item, sorted[k])
    requires q < |sorted| ==> less(item, sorted[q])
    ensures SortsAt(less, sorted[..q] + [item] + sorted[q..], items + [item], at[..q] + [|items|] + at[q..])
  {
    var all, places := sorted[..q] + [item] + sorted[q..], at[..q] + [|items|] + at[q..];
    forall k | q <= k < |sorted| ensures less(item, sorted[k]) {
      if k > q {
        assert ComesBefore(less, sorted[q], sorted[k], at[q], at[k]);
      }
    }
    forall i, j | 0 <= i < j < |all|
      ensures ComesBefore(less, all[i], all[j], places[i], places[j])
    {
      if j < q {
        assert ComesBefore(less, sorted[i], sorted[j], at[i], at[j]);
      } else if i > q {
        assert ComesBefore(less, sorted[i - 1], sorted[j - 1], at[i - 1], at[j - 1]);
      } else if i < q && j > q {
        assert ComesBefore(less, sorted[i], sorted[j - 1], at[i], at[j - 1]);
      }
    }
  }

  lemma {:induction false} SortWithIsStable<T(!new)>(less: (T, T) -> bool, items: seq<T>)
    requires WeakOrder(less)
    ensures SortsStably(less, SortWith(less, items), items)
  {
    if items == [] {
      assert SortsAt(less, [], items, []);
    } else {
      var n := |items| - 1;
      SortWithIsStable(less, items[..n]);
      var before := SortWith(less, items[..n]);
      var at :| SortsAt(less, before, items[..n], at);
      var q := InsertedAt(less, items[n], before);
      hide WeakOrder, SortsAt;
      SortsInserted(less, items[n], before, items[..n], at, q);
      assert items == items[..n] + [items[n]];
    }
  }

  function KeyLess<T>(key: T -> int): (T, T) -> bool {
    (a, b) => key(a) < key(b)
  }

  lemma {:induction false} InsertByKey<T>(key: T -> int, item: T, sorted: seq<T>)
    ensures Insert(key, item, sorted) == InsertWith(KeyLess(key), item, sorted)
  {
    if sorted != [] {
      InsertByKey(key, item, sorted[1..]);
    }
  }

  lemma {:induction false} SortByKey<T>(key: T -> int, items: seq<T>)
    ensures SortBy(key, items) == SortWith(KeyLess(key), items)
  {
    if items != [] {
      var n := |items| - 1;
      SortByKey(key, items[..n]);
      InsertByKey(key, items[n], SortBy(key, items[..n]));
    }
  }

  lemma SortByIsStable<T(!new)>(key: T -> int, items: seq<T>)
    ensures SortsStably(KeyLess(key), SortBy(key, items), items)
  {
    SortByKey(key, items);
    SortWithIsStable(KeyLess(key), items);
  }

  /** Items that compare like the sorted ones, in their places, are sorted too. */
  lemma SortsMapped<T, U>(less: (T, T) -> bool, other: (U, U) -> bool, become: T -> U, sorted: seq<T>, items: seq<T>,
                          sortedTo: seq<U>, itemsTo: seq<U>)
    requires SortsStably(less, sorted, items) && |sortedTo| == |sorted| && |itemsTo| == |items|
    requires forall k :: 0 <= k < |sorted| ==> sortedTo[k] == become(sorted[k])
    requires forall k :: 0 <= k < |items| ==> itemsTo[k] == become(items[k])
    requires forall i, j :: 0 <= i < |items| && 0 <= j < |items| ==>
      less(items[i], items[j]) == other(itemsTo[i], itemsTo[j])
    ensures SortsStably(other, sortedTo, itemsTo)
  {
    var at :| SortsAt(less, sorted, items, at);
    forall i, j | 0 <= i < j < |at|
      ensures ComesBefore(other, sortedTo[i], sortedTo[j], at[i], at[j])
    {
      assert ComesBefore(less, sorted[i], sorted[j], at[i], at[j]);
      assert sortedTo[i] == itemsTo[at[i]] && sortedTo[j] == itemsTo[at[j]];
    }
    assert SortsAt(other, sortedTo, itemsTo, at);
  }
}
