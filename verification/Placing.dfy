/** List edits relative to an anchor: insertion before it, insertion after it, dropping names. */
module Placing {

  function IndexOf<T(==)>(items: seq<T>, x: T): (i: nat)
    ensures i <= |items|
    ensures i < |items| <==> x in items
    ensures i < |items| ==> items[i] == x
    ensures forall j | 0 <= j < i :: items[j] != x
  {
    if items == [] || items[0] == x then 0 else 1 + IndexOf(items[1..], x)
  }

  // list.insert(i, x)
  function Inserted<T>(items: seq<T>, i: nat, x: T): seq<T>
    requires i <= |items|
  {
    items[..i] + [x] + items[i..]
  }

  // The list with x just before the first anchor, or at the end when there is no anchor.
  function PlaceBefore<T(==)>(items: seq<T>, anchor: T, x: T): seq<T> {
    if items == [] then [x]
    else if items[0] == anchor then [x] + items
    else [items[0]] + PlaceBefore(items[1..], anchor, x)
  }

  // The list with x just after the first anchor; without an anchor nothing is placed.
  function PlaceAfter<T(==)>(items: seq<T>, anchor: T, x: T): seq<T> {
    if items == [] then []
    else if items[0] == anchor then [anchor] + ([x] + items[1..])
    else [items[0]] + PlaceAfter(items[1..], anchor, x)
  }

  // The items left when those in gone are dropped, in order.
  function Minus<T(==)>(items: seq<T>, gone: set<T>): seq<T> {
    if items == [] then []
    else if items[0] in gone then Minus(items[1..], gone)
    else [items[0]] + Minus(items[1..], gone)
  }

  // -- the insertions the program performs ------------------------------------

  lemma InsertingDeeper<T>(items: seq<T>, i: nat, x: T)
    requires i < |items|
    ensures Inserted(items, i + 1, x) == [items[0]] + Inserted(items[1..], i, x)
  {
    assert items[..i + 1] == [items[0]] + items[1..][..i];
    assert items[i + 1..] == items[1..][i..];
    assert [items[0]] + items[1..][..i] + [x] + items[i + 1..]
        == [items[0]] + (items[1..][..i] + [x] + items[i + 1..]);
  }

  lemma {:induction false} InsertingBefore<T>(items: seq<T>, anchor: T, x: T)
    ensures Inserted(items, IndexOf(items, anchor), x) == PlaceBefore(items, anchor, x)
  {
    if items != [] && items[0] != anchor {
      InsertingBefore(items[1..], anchor, x);
      InsertingDeeper(items, IndexOf(items[1..], anchor), x);
    }
  }

  lemma {:induction false} InsertingAfter<T>(items: seq<T>, anchor: T, x: T)
    requires anchor in items
    ensures Inserted(items, IndexOf(items, anchor) + 1, x) == PlaceAfter(items, anchor, x)
  {
    if items[0] != anchor {
      InsertingAfter(items[1..], anchor, x);
      InsertingDeeper(items, IndexOf(items[1..], anchor) + 1, x);
    }
  }

  // -- what the lists hold ------------------------------------------------------

  lemma {:induction false} PlaceBeforeHolds<T>(items: seq<T>, anchor: T, x: T)
    ensures multiset(PlaceBefore(items, anchor, x)) == multiset(items) + multiset{x}
    ensures forall y :: y in PlaceBefore(items, anchor, x) <==> y == x || y in items
  {
    if items != [] && items[0] != anchor {
      PlaceBeforeHolds(items[1..], anchor, x);
      assert items == [items[0]] + items[1..];
    }
  }

  lemma {:induction false} PlaceAfterHolds<T>(items: seq<T>, anchor: T, x: T)
    requires anchor in items
    ensures multiset(PlaceAfter(items, anchor, x)) == multiset(items) + multiset{x}
    ensures forall y :: y in PlaceAfter(items, anchor, x) <==> y == x || y in items
  {
    assert items == [items[0]] + items[1..];
    if items[0] != anchor {
      PlaceAfterHolds(items[1..], anchor, x);
    }
  }

  // Dropping names takes all their copies and nothing else.
  lemma {:induction false} MinusHolds<T>(items: seq<T>, gone: set<T>)
    ensures forall y :: multiset(Minus(items, gone))[y] == if y in gone then 0 else multiset(items)[y]
    ensures forall y :: y in Minus(items, gone) <==> y in items && y !in gone
  {
    if items != [] {
      MinusHolds(items[1..], gone);
      assert items == [items[0]] + items[1..];
    }
  }

  // -- how they combine -----------------------------------------------------------

  lemma {:induction false} BeforeFront<T>(items: seq<T>, y: T, anchor: T, x: T)
    requires y != anchor
    ensures PlaceBefore([y] + items, anchor, x) == [y] + PlaceBefore(items, anchor, x)
  {
    assert ([y] + items)[1..] == items;
  }

  lemma {:induction false} AfterFront<T>(items: seq<T>, y: T, anchor: T, x: T)
    requires y != anchor
    ensures PlaceAfter([y] + items, anchor, x) == [y] + PlaceAfter(items, anchor, x)
  {
    assert ([y] + items)[1..] == items;
  }

  lemma {:induction false} MinusFront<T>(items: seq<T>, y: T, gone: set<T>)
    ensures Minus([y] + items, gone) == (if y in gone then [] else [y]) + Minus(items, gone)
  {
    assert ([y] + items)[1..] == items;
  }

  lemma {:induction false} PlacingCommutes<T>(items: seq<T>, a: T, x: T, b: T, y: T)
    requires a != b && a != y && b != x
    ensures PlaceBefore(PlaceAfter(items, a, x), b, y) == PlaceAfter(PlaceBefore(items, b, y), a, x)
  {
    if items == [] {
      AfterFront<T>([], y, a, x);
      assert [y] + [] == [y];
    } else if items[0] == a {
      BeforeFront([x] + items[1..], a, b, y);
      BeforeFront(items[1..], x, b, y);
      var before := PlaceBefore(items[1..], b, y);
      assert ([a] + before)[1..] == before;
    } else if items[0] == b {
      AfterFront(items, y, a, x);
      AfterFront(items[1..], b, a, x);
    } else {
      PlacingCommutes(items[1..], a, x, b, y);
      BeforeFront(PlaceAfter(items[1..], a, x), items[0], b, y);
      AfterFront(PlaceBefore(items[1..], b, y), items[0], a, x);
    }
  }

  lemma {:induction false} MinusBefore<T>(items: seq<T>, anchor: T, x: T, gone: set<T>)
    requires anchor !in gone
    ensures Minus(PlaceBefore(items, anchor, x), gone)
         == if x in gone then Minus(items, gone) else PlaceBefore(Minus(items, gone), anchor, x)
  {
    if items == [] {
      MinusFront([], x, gone);
      assert [x] + [] == [x];
    } else if items[0] == anchor {
      MinusFront(items, x, gone);
      MinusFront(items[1..], anchor, gone);
    } else {
      MinusBefore(items[1..], anchor, x, gone);
      MinusFront(PlaceBefore(items[1..], anchor, x), items[0], gone);
      BeforeFront(Minus(items[1..], gone), items[0], anchor, x);
    }
  }

  lemma {:induction false} MinusAfter<T>(items: seq<T>, anchor: T, x: T, gone: set<T>)
    requires anchor !in gone
    ensures Minus(PlaceAfter(items, anchor, x), gone)
         == if x in gone then Minus(items, gone) else PlaceAfter(Minus(items, gone), anchor, x)
  {
    if items == [] {
    } else if items[0] == anchor {
      MinusFront([x] + items[1..], anchor, gone);
      MinusFront(items[1..], x, gone);
      var rest := Minus(items[1..], gone);
      assert ([anchor] + rest)[1..] == rest;
    } else {
      MinusAfter(items[1..], anchor, x, gone);
      MinusFront(PlaceAfter(items[1..], anchor, x), items[0], gone);
      AfterFront(Minus(items[1..], gone), items[0], anchor, x);
    }
  }

  lemma {:induction false} MinusMinus<T>(items: seq<T>, g: set<T>, h: set<T>)
    ensures Minus(Minus(items, g), h) == Minus(items, g + h)
  {
    if items != [] {
      MinusMinus(items[1..], g, h);
      if items[0] !in g {
        MinusFront(Minus(items[1..], g), items[0], h);
      }
    }
  }

  lemma {:induction false} MinusNothing<T>(items: seq<T>, gone: set<T>)
    requires forall x <- items :: x !in gone
    ensures Minus(items, gone) == items
  {
    if items != [] {
      MinusNothing(items[1..], gone);
    }
  }

  // -- lists that gained a few names ------------------------------------------------

  // after is before with each of the added names put in once, the rest still in order.
  ghost predicate Grown<T(!new)>(before: seq<T>, after: seq<T>, added: set<T>) {
    && (forall x <- added :: x !in before)
    && (forall x :: x in after <==> x in before || x in added)
    && multiset(after) == multiset(before) + multiset(added)
    && Minus(after, added) == before
  }

  lemma UnionCounts<T(!new)>(a: set<T>, b: set<T>)
    requires a !! b
    ensures multiset(a + b) == multiset(a) + multiset(b)
  {
    assert forall x :: multiset(a + b)[x] == multiset(a)[x] + multiset(b)[x];
  }

  lemma NotGrown<T(!new)>(items: seq<T>)
    ensures Grown(items, items, {})
  {
    MinusNothing(items, {});
  }

  lemma GrownTwice<T(!new)>(before: seq<T>, middle: seq<T>, after: seq<T>, early: set<T>, late: set<T>)
    requires Grown(before, middle, early) && Grown(middle, after, late)
    ensures Grown(before, after, early + late)
  {
    UnionCounts(early, late);
    MinusMinus(after, late, early);
    assert late + early == early + late;
  }

  lemma GrownMinusCounts<T(!new)>(before: seq<T>, after: seq<T>, added: set<T>, gone: set<T>, x: T)
    requires Grown(before, after, added) && gone !! added
    ensures multiset(Minus(after, gone))[x] == multiset(Minus(before, gone))[x] + multiset(added)[x]
  {
    MinusHolds(before, gone);
    MinusHolds(after, gone);
    assert x in gone ==> multiset(added)[x] == 0;
  }

  lemma GrownMinusOrder<T(!new)>(before: seq<T>, after: seq<T>, added: set<T>, gone: set<T>)
    requires Minus(after, added) == before
    ensures Minus(Minus(after, gone), added) == Minus(before, gone)
  {
    MinusMinus(after, gone, added);
    MinusMinus(after, added, gone);
    assert gone + added == added + gone;
  }

  lemma GrownMinus<T(!new)>(before: seq<T>, after: seq<T>, added: set<T>, gone: set<T>)
    requires Grown(before, after, added) && gone !! added
    ensures Grown(Minus(before, gone), Minus(after, gone), added)
  {
    GrownMinusOrder(before, after, added, gone);
    MinusHolds(before, gone);
    MinusHolds(after, gone);
    assert multiset(Minus(after, gone)) == multiset(Minus(before, gone)) + multiset(added) by {
      forall x ensures multiset(Minus(after, gone))[x] == multiset(Minus(before, gone))[x] + multiset(added)[x] {
        GrownMinusCounts(before, after, added, gone, x);
      }
    }
  }

  lemma GrownBefore<T(!new)>(items: seq<T>, anchor: T, x: T)
    requires x !in items && anchor != x
    ensures Grown(items, PlaceBefore(items, anchor, x), {x})
  {
    PlaceBeforeHolds(items, anchor, x);
    MinusBefore(items, anchor, x, {x});
    MinusNothing(items, {x});
    assert multiset({x}) == multiset{x};
  }

  lemma GrownAfter<T(!new)>(items: seq<T>, anchor: T, x: T)
    requires x !in items && anchor != x && anchor in items
    ensures Grown(items, PlaceAfter(items, anchor, x), {x})
  {
    PlaceAfterHolds(items, anchor, x);
    MinusAfter(items, anchor, x, {x});
    MinusNothing(items, {x});
    assert multiset({x}) == multiset{x};
  }

  lemma GrownFront<T(!new)>(items: seq<T>, x: T)
    requires x !in items
    ensures Grown(items, [x] + items, {x})
  {
    MinusFront(items, x, {x});
    MinusNothing(items, {x});
    assert multiset({x}) == multiset{x};
  }

  // -- next to a name ---------------------------------------------------------------

  // x stands directly behind the first anchor.
  ghost predicate DirectlyBehind<T>(items: seq<T>, x: T, anchor: T) {
    exists k :: 0 < k < |items| && items[k] == x && items[k - 1] == anchor && anchor !in items[..k - 1]
  }

  // x stands directly before the first anchor.
  ghost predicate DirectlyBefore<T>(items: seq<T>, x: T, anchor: T) {
    exists k :: 0 <= k < |items| - 1 && items[k] == x && items[k + 1] == anchor && anchor !in items[..k]
  }

  lemma PlacedBehind<T>(items: seq<T>, anchor: T, x: T)
    requires anchor in items
    ensures DirectlyBehind(PlaceAfter(items, anchor, x), x, anchor)
  {
    InsertingAfter(items, anchor, x);
    var i := IndexOf(items, anchor);
    var r := Inserted(items, i + 1, x);
    assert r[i + 1] == x && r[i] == anchor && r[..i] == items[..i];
  }

  lemma PlacedBefore<T>(items: seq<T>, anchor: T, x: T)
    requires anchor in items && x != anchor
    ensures DirectlyBefore(PlaceBefore(items, anchor, x), x, anchor)
  {
    InsertingBefore(items, anchor, x);
    var i := IndexOf(items, anchor);
    var r := Inserted(items, i, x);
    assert r[i] == x && r[i + 1] == anchor && r[..i] == items[..i];
  }

  lemma PlacedLast<T>(items: seq<T>, anchor: T, x: T)
    requires anchor !in items
    ensures PlaceBefore(items, anchor, x) == items + [x]
  {
    InsertingBefore(items, anchor, x);
  }

  // Placing something before another anchor does not come between.
  lemma {:induction false} PlacingKeepsBefore<T>(items: seq<T>, x: T, anchor: T, other: T, y: T)
    requires DirectlyBefore(items, x, anchor) && other != anchor && y != anchor
    ensures DirectlyBefore(PlaceBefore(items, other, y), x, anchor)
  {
    InsertingBefore(items, other, y);
    var k :| 0 <= k < |items| - 1 && items[k] == x && items[k + 1] == anchor && anchor !in items[..k];
    var i := IndexOf(items, other);
    var r := Inserted(items, i, y);
    if i <= k {
      assert r[k + 1] == x && r[k + 2] == anchor;
      assert r[..k + 1] == items[..i] + [y] + items[i..k];
    } else {
      assert i != k + 1;
      assert r[k] == x && r[k + 1] == anchor && r[..k] == items[..k];
    }
  }

  lemma {:induction false} MinusKeepsBehind<T>(items: seq<T>, gone: set<T>, x: T, anchor: T)
    requires DirectlyBehind(items, x, anchor) && x !in gone && anchor !in gone
    ensures DirectlyBehind(Minus(items, gone), x, anchor)
  {
    var k :| 0 < k < |items| && items[k] == x && items[k - 1] == anchor && anchor !in items[..k - 1];
    var rest, r := items[1..], Minus(items, gone);
    if k == 1 {
      assert Minus(rest, gone)[0] == x && r[0] == anchor && r[1] == x;
      assert r[..0] == [];
    } else {
      assert rest[k - 1] == x && rest[k - 2] == anchor && items[..k - 1] == [items[0]] + rest[..k - 2];
      MinusKeepsBehind(rest, gone, x, anchor);
      var j :| 0 < j < |Minus(rest, gone)| && Minus(rest, gone)[j] == x && Minus(rest, gone)[j - 1] == anchor
               && anchor !in Minus(rest, gone)[..j - 1];
      if items[0] !in gone {
        assert items[0] in items[..k - 1];
        assert r[j + 1] == x && r[j] == anchor && r[..j] == [items[0]] + Minus(rest, gone)[..j - 1];
      }
    }
  }

  // -- where things end up -----------------------------------------------------------

  lemma IndexBehind<T>(y: T, items: seq<T>, x: T)
    ensures IndexOf([y] + items, x) == if y == x then 0 else 1 + IndexOf(items, x)
  {
    assert ([y] + items)[1..] == items;
  }

  lemma {:induction false} IndexAfterPlacing<T>(items: seq<T>, anchor: T, x: T, y: T)
    requires x !in items
    ensures var r := PlaceBefore(items, anchor, x);
            var at := IndexOf(items, anchor);
            && IndexOf(r, x) == at
            && (y != x ==> IndexOf(r, y) == IndexOf(items, y) + if at <= IndexOf(items, y) then 1 else 0)
  {
    if items == [] {
    } else if items[0] == anchor {
      IndexBehind(x, items, x);
      IndexBehind(x, items, y);
    } else {
      var rest := PlaceBefore(items[1..], anchor, x);
      IndexAfterPlacing(items[1..], anchor, x, y);
      IndexBehind(items[0], rest, x);
      IndexBehind(items[0], rest, y);
    }
  }

  lemma {:induction false} IndexAfterAnchor<T>(items: seq<T>, anchor: T, x: T, y: T)
    requires anchor in items && x !in items
    ensures var r := PlaceAfter(items, anchor, x);
            var at := IndexOf(items, anchor);
            && IndexOf(r, x) == at + 1
            && (y != x ==> IndexOf(r, y) == IndexOf(items, y) + if at < IndexOf(items, y) then 1 else 0)
  {
    if items[0] == anchor {
      var tail := [x] + items[1..];
      IndexBehind(anchor, tail, x);
      IndexBehind(anchor, tail, y);
      IndexBehind(x, items[1..], x);
      IndexBehind(x, items[1..], y);
    } else {
      var rest := PlaceAfter(items[1..], anchor, x);
      IndexAfterAnchor(items[1..], anchor, x, y);
      IndexBehind(items[0], rest, x);
      IndexBehind(items[0], rest, y);
    }
  }

  lemma {:induction false} MinusKeepsPrecedence<T>(items: seq<T>, gone: set<T>, x: T, y: T)
    requires x in items && y in items && x !in gone && y !in gone
    ensures IndexOf(Minus(items, gone), x) < IndexOf(Minus(items, gone), y)
       <==> IndexOf(items, x) < IndexOf(items, y)
  {
    if items[0] == x || items[0] == y {
    } else {
      MinusKeepsPrecedence(items[1..], gone, x, y);
    }
  }
}
