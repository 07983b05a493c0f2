/** Small facts about sequences used throughout the model. */
module Sequences {

  lemma Associates<T>(a: seq<T>, b: seq<T>, c: seq<T>)
    ensures a + (b + c) == a + b + c
    ensures a + [] == a && [] + a == a
  {
  }

  predicate StartsWith<T(==)>(s: seq<T>, prefix: seq<T>) {
    |prefix| <= |s| && s[..|prefix|] == prefix
  }

  // The first occurrence of each item, in order.
  function Unique<T(==)>(items: seq<T>): seq<T> {
    if items == [] then []
    else
      var init, last := Unique(items[..|items| - 1]), items[|items| - 1];
      if last in init then init else init + [last]
  }

  lemma UniqueLonger<T>(items: seq<T>, x: T)
    ensures Unique(items + [x]) == if x in Unique(items) then Unique(items) else Unique(items) + [x]
  {
    assert (items + [x])[..|items|] == items;
  }

  lemma {:induction false} UniqueHolds<T(!new)>(items: seq<T>)
    ensures forall x :: x in Unique(items) <==> x in items
    ensures forall i, j | 0 <= i < j < |Unique(items)| :: Unique(items)[i] != Unique(items)[j]
  {
    if items != [] {
      UniqueHolds(items[..|items| - 1]);
      assert items == items[..|items| - 1] + [items[|items| - 1]];
    }
  }

  // Items that have occurred already make no difference behind.
  lemma {:induction false} UniqueAgain<T(!new)>(items: seq<T>, again: seq<T>)
    requires forall x <- again :: x in items
    ensures Unique(items + again) == Unique(items)
  {
    if again == [] {
      assert items + again == items;
    } else {
      var init, last := again[..|again| - 1], again[|again| - 1];
      UniqueAgain(items, init);
      assert (items + again)[..|items + again| - 1] == items + init;
      UniqueHolds(items);
    }
  }

  lemma {:induction false} UniqueOfDistinct<T>(items: seq<T>)
    requires forall i, j | 0 <= i < j < |items| :: items[i] != items[j]
    ensures Unique(items) == items
  {
    if items != [] {
      UniqueOfDistinct(items[..|items| - 1]);
      assert items == items[..|items| - 1] + [items[|items| - 1]];
    }
  }

  lemma UniqueTwice<T(!new)>(items: seq<T>)
    ensures Unique(Unique(items)) == Unique(items)
  {
    UniqueHolds(items);
    UniqueOfDistinct(Unique(items));
  }
}
