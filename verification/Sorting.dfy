/** Stable sorting by a number that each item carries. */
module Sorting {

  function Insert<T>(item: T, items: seq<T>, key: T -> int): (r: seq<T>)
    ensures multiset(r) == multiset{item} + multiset(items)
  {
    if items == [] || key(item) <= key(items[0]) then [item] + items
    else
      assert items == [items[0]] + items[1..];
      [items[0]] + Insert(item, items[1..], key)
  }

  function SortBy<T>(items: seq<T>, key: T -> int): (r: seq<T>)
    ensures multiset(r) == multiset(items)
  {
    if items == [] then []
    else
      assert items == [items[0]] + items[1..];
      Insert(items[0], SortBy(items[1..], key), key)
  }

  ghost predicate Sorted<T>(items: seq<T>, key: T -> int) {
    forall i, j | 0 <= i < j < |items| :: key(items[i]) <= key(items[j])
  }

  lemma SameMembers<T(!new)>(a: seq<T>, b: seq<T>)
    requires multiset(a) == multiset(b)
    ensures forall x :: x in a <==> x in b
  {
    forall x ensures x in a <==> x in b {
      assert x in a <==> x in multiset(a);
    }
  }

  lemma {:induction false} InsertKeepsSorted<T(!new)>(item: T, items: seq<T>, key: T -> int)
    requires Sorted(items, key)
    ensures Sorted(Insert(item, items, key), key)
  {
    if items != [] && key(item) > key(items[0]) {
      var rest := Insert(item, items[1..], key);
      InsertKeepsSorted(item, items[1..], key);
      SameMembers(rest, [item] + items[1..]);
      assert forall x <- rest :: key(items[0]) <= key(x);
    }
  }

  lemma {:induction false} SortIsSorted<T(!new)>(items: seq<T>, key: T -> int)
    ensures Sorted(SortBy(items, key), key)
  {
    if items != [] {
      SortIsSorted(items[1..], key);
      InsertKeepsSorted(items[0], SortBy(items[1..], key), key);
    }
  }

  lemma {:induction false} SortOfSorted<T>(items: seq<T>, key: T -> int)
    requires Sorted(items, key)
    ensures SortBy(items, key) == items
  {
    if items != [] {
      SortOfSorted(items[1..], key);
      assert items == [items[0]] + items[1..];
    }
  }

  // The items with one key, in order.
  function WithKey<T>(items: seq<T>, key: T -> int, k: int): seq<T> {
    if items == [] then []
    else (if key(items[0]) == k then [items[0]] else []) + WithKey(items[1..], key, k)
  }

  lemma {:induction false} InsertIsStable<T>(item: T, items: seq<T>, key: T -> int, k: int)
    ensures WithKey(Insert(item, items, key), key, k)
         == (if key(item) == k then [item] else []) + WithKey(items, key, k)
  {
    if items == [] || key(item) <= key(items[0]) {
      assert ([item] + items)[1..] == items;
    } else {
      InsertIsStable(item, items[1..], key, k);
      var rest := Insert(item, items[1..], key);
      assert ([items[0]] + rest)[1..] == rest;
    }
  }

  // Items with the same key keep their order.
  lemma {:induction false} SortIsStable<T>(items: seq<T>, key: T -> int, k: int)
    ensures WithKey(SortBy(items, key), key, k) == WithKey(items, key, k)
  {
    if items != [] {
      SortIsStable(items[1..], key, k);
      InsertIsStable(items[0], SortBy(items[1..], key), key, k);
    }
  }
}
