/**
 Choosing which packages to download ahead: a greedy packer over package sizes,
 and the byte accounting the prefetch status reports from its choice.
 */
module Packer {
  import opened Sorting

  datatype Download = Download(name: string, size: nat, filename: string)

  // The smallest budget on which a download is begun.
  const MIN_BUDGET: int := 64 * 1024 * 1024

  function Bytes(items: seq<Download>): nat {
    if items == [] then 0 else items[0].size + Bytes(items[1..])
  }

  ghost predicate Descending(items: seq<Download>) {
    forall i, j | 0 <= i < j < |items| :: items[i].size >= items[j].size
  }

  // -- stable sort, largest first ------------------------------------------

  // Sorting by falling size is sorting by rising key.
  function SizeKey(item: Download): int {
    -(item.size as int)
  }

  function SortBySize(items: seq<Download>): (r: seq<Download>)
    ensures multiset(r) == multiset(items)
  {
    SortBy(items, SizeKey)
  }

  lemma SortIsDescending(items: seq<Download>)
    ensures Descending(SortBySize(items))
  {
    SortIsSorted(items, SizeKey);
    var sorted := SortBySize(items);
    forall i, j | 0 <= i < j < |sorted| ensures sorted[i].size >= sorted[j].size {
      assert SizeKey(sorted[i]) <= SizeKey(sorted[j]);
    }
  }

  function OfSize(items: seq<Download>, size: nat): seq<Download> {
    if items == [] then []
    else (if items[0].size == size then [items[0]] else []) + OfSize(items[1..], size)
  }

  lemma {:induction false} OfSizeIsWithKey(items: seq<Download>, size: nat)
    ensures OfSize(items, size) == WithKey(items, SizeKey, -(size as int))
  {
    if items != [] {
      OfSizeIsWithKey(items[1..], size);
    }
  }

  /** Equally large packages keep the order the resolver printed them in. */
  lemma SortIsStable(items: seq<Download>, size: nat)
    ensures OfSize(SortBySize(items), size) == OfSize(items, size)
  {
    OfSizeIsWithKey(SortBySize(items), size);
    OfSizeIsWithKey(items, size);
    Sorting.SortIsStable(items, SizeKey, -(size as int));
  }

  // -- the greedy choice ---------------------------------------------------

  function Greedy(items: seq<Download>, budget: int): seq<Download> {
    if items == [] then []
    else if items[0].size <= budget then [items[0]] + Greedy(items[1..], budget - items[0].size)
    else Greedy(items[1..], budget)
  }

  function Chosen(downloads: seq<Download>, budget: int): seq<Download> {
    Greedy(SortBySize(downloads), budget)
  }

  method ChooseDownloads(downloads: seq<Download>, budget: int) returns (chosen: seq<Download>)
    ensures chosen == Chosen(downloads, budget)
  {
    var items := SortBySize(downloads);
    var left := budget;
    chosen := [];
    for i := 0 to |items|
      invariant chosen + Greedy(items[i..], left) == Greedy(items, budget)
    {
      assert items[i..][1..] == items[i + 1..];
      ghost var before := chosen;
      if items[i].size <= left {
        assert Greedy(items[i..], left) == [items[i]] + Greedy(items[i + 1..], left - items[i].size);
        chosen := chosen + [items[i]];
        left := left - items[i].size;
        assert chosen + Greedy(items[i + 1..], left) == before + ([items[i]] + Greedy(items[i + 1..], left));
      }
    }
  }

  lemma {:induction false} BytesConcat(a: seq<Download>, b: seq<Download>)
    ensures Bytes(a + b) == Bytes(a) + Bytes(b)
  {
    if a == [] {
      assert a + b == b;
    } else {
      assert (a + b)[1..] == a[1..] + b;
      BytesConcat(a[1..], b);
    }
  }

  lemma {:induction false} BytesRemove(items: seq<Download>, k: nat)
    requires k < |items|
    ensures Bytes(items) == items[k].size + Bytes(items[..k] + items[k + 1..])
    ensures multiset(items) == multiset{items[k]} + multiset(items[..k] + items[k + 1..])
  {
    assert items == items[..k] + ([items[k]] + items[k + 1..]);
    BytesConcat(items[..k], [items[k]] + items[k + 1..]);
    assert ([items[k]] + items[k + 1..])[1..] == items[k + 1..];
    BytesConcat(items[..k], items[k + 1..]);
  }

  lemma {:induction false} BytesMonotone(a: seq<Download>, b: seq<Download>)
    requires multiset(a) <= multiset(b)
    ensures Bytes(a) <= Bytes(b)
  {
    if a != [] {
      assert a == [a[0]] + a[1..];
      assert a[0] in multiset(b);
      var k :| 0 <= k < |b| && b[k] == a[0];
      var rest := b[..k] + b[k + 1..];
      BytesRemove(b, k);
      assert multiset(a) == multiset{a[0]} + multiset(a[1..]);
      assert multiset(a[1..]) == multiset(a) - multiset{a[0]};
      assert multiset(rest) == multiset(b) - multiset{a[0]};
      BytesMonotone(a[1..], rest);
    }
  }

  lemma {:induction false} BytesOfPermutation(a: seq<Download>, b: seq<Download>)
    requires multiset(a) == multiset(b)
    ensures Bytes(a) == Bytes(b)
  {
    BytesMonotone(a, b);
    BytesMonotone(b, a);
  }

  /** A first item that fits is taken, and the rest is packed into what it leaves. */
  lemma GreedyTakes(items: seq<Download>, budget: int)
    requires items != [] && items[0].size <= budget
    ensures var rest := Greedy(items[1..], budget - items[0].size);
            && Greedy(items, budget) == [items[0]] + rest
            && Bytes(Greedy(items, budget)) == items[0].size + Bytes(rest)
            && multiset(Greedy(items, budget)) == multiset{items[0]} + multiset(rest)
  {
    var rest := Greedy(items[1..], budget - items[0].size);
    assert ([items[0]] + rest)[1..] == rest;
  }

  lemma {:induction false} GreedyWithin(items: seq<Download>, budget: int)
    ensures budget >= 0 ==> Bytes(Greedy(items, budget)) <= budget
    ensures budget < 0 ==> Greedy(items, budget) == []
  {
    if items != [] {
      if items[0].size <= budget {
        GreedyTakes(items, budget);
        GreedyWithin(items[1..], budget - items[0].size);
      } else {
        GreedyWithin(items[1..], budget);
      }
    }
  }

  lemma {:induction false} GreedyIsMaximal(items: seq<Download>, budget: int)
    ensures multiset(Greedy(items, budget)) <= multiset(items)
    ensures forall x | multiset(Greedy(items, budget))[x] < multiset(items)[x] ::
              x.size > budget - Bytes(Greedy(items, budget))
  {
    if items != [] {
      assert multiset(items) == multiset{items[0]} + multiset(items[1..]) by {
        assert items == [items[0]] + items[1..];
      }
      if items[0].size <= budget {
        GreedyTakes(items, budget);
        GreedyIsMaximal(items[1..], budget - items[0].size);
      } else {
        GreedyIsMaximal(items[1..], budget);
      }
    }
  }

  /** The choice is a sub-multiset of the downloads, stays within the budget, and is maximal:
      nothing it left out would fit in what remains. */
  lemma ChoiceFits(downloads: seq<Download>, budget: int)
    ensures multiset(Chosen(downloads, budget)) <= multiset(downloads)
    ensures budget >= 0 ==> Bytes(Chosen(downloads, budget)) <= budget
    ensures budget < 0 ==> Chosen(downloads, budget) == []
    ensures forall x | multiset(Chosen(downloads, budget))[x] < multiset(downloads)[x] ::
              x.size > budget - Bytes(Chosen(downloads, budget))
  {
    GreedyWithin(SortBySize(downloads), budget);
    GreedyIsMaximal(SortBySize(downloads), budget);
  }

  // -- within a factor of two of the best choice ---------------------------

  function Small(items: seq<Download>, limit: int): seq<Download> {
    if items == [] then []
    else (if items[0].size <= limit then [items[0]] else []) + Small(items[1..], limit)
  }

  lemma {:induction false} SmallIsAll(items: seq<Download>, limit: int)
    requires forall x <- items :: x.size <= limit
    ensures Small(items, limit) == items
  {
    if items != [] {
      SmallIsAll(items[1..], limit);
    }
  }

  lemma {:induction false} SmallCounts(items: seq<Download>, limit: int, x: Download)
    ensures multiset(Small(items, limit))[x] == if x.size <= limit then multiset(items)[x] else 0
  {
    if items != [] {
      SmallCounts(items[1..], limit, x);
      assert items == [items[0]] + items[1..];
    }
  }

  // No item of a descending list is larger than the first.
  lemma SmallOfDescending(items: seq<Download>, limit: int)
    requires Descending(items) && (items != [] ==> items[0].size <= limit)
    ensures Small(items, limit) == items
  {
    forall x | x in items ensures x.size <= limit {
      var k :| 0 <= k < |items| && items[k] == x;
    }
    SmallIsAll(items, limit);
  }

  lemma DescendingRest(items: seq<Download>)
    requires Descending(items) && items != []
    ensures Descending(items[1..]) && (items[1..] != [] ==> items[1..][0].size <= items[0].size)
  {
  }

  // The pass takes the first item, and the rest either whole or to half of what remains.
  lemma GreedyTakesFirst(items: seq<Download>, rest: seq<Download>, budget: nat)
    requires items != [] && rest == items[1..] && items[0].size <= budget
    requires var taken := Greedy(rest, budget - items[0].size);
             taken == rest || 2 * Bytes(taken) >= budget - items[0].size
    ensures Greedy(items, budget) == items || 2 * Bytes(Greedy(items, budget)) >= budget
  {
    GreedyTakes(items, budget);
    assert items == [items[0]] + rest;
  }

  ghost predicate HalfOrSmall(items: seq<Download>, budget: nat) {
    Greedy(items, budget) == Small(items, budget) || 2 * Bytes(Greedy(items, budget)) >= budget
  }

  lemma SkippingLarge(items: seq<Download>, rest: seq<Download>, budget: nat)
    requires items != [] && rest == items[1..] && items[0].size > budget && HalfOrSmall(rest, budget)
    ensures HalfOrSmall(items, budget)
  {
    assert Small(items, budget) == Small(rest, budget);
  }

  lemma TakingHalf(items: seq<Download>, budget: nat)
    requires items != [] && items[0].size <= budget <= 2 * items[0].size
    ensures HalfOrSmall(items, budget)
  {
    GreedyTakes(items, budget);
  }

  lemma TakingSmall(items: seq<Download>, rest: seq<Download>, budget: nat)
    requires Descending(items) && items != [] && rest == items[1..]
    requires 2 * items[0].size < budget && HalfOrSmall(rest, budget - items[0].size)
    ensures HalfOrSmall(items, budget)
  {
    DescendingRest(items);
    SmallOfDescending(rest, budget - items[0].size);
    SmallOfDescending(items, budget);
    GreedyTakesFirst(items, rest, budget);
  }

  /** Either the greedy pass takes everything that could fit on its own, or it fills half the budget. */
  lemma {:induction false} GreedyDichotomy(items: seq<Download>, budget: nat)
    requires Descending(items)
    ensures HalfOrSmall(items, budget)
  {
    if items != [] {
      var x, rest := items[0].size, items[1..];
      DescendingRest(items);
      if x > budget {
        GreedyDichotomy(rest, budget);
        SkippingLarge(items, rest, budget);
      } else if 2 * x >= budget {
        TakingHalf(items, budget);
      } else {
        GreedyDichotomy(rest, budget - x);
        TakingSmall(items, rest, budget);
      }
    }
  }

  /** Twice the chosen bytes cover any selection of the downloads that fits the budget. */
  lemma ChoiceWithinFactorTwo(downloads: seq<Download>, budget: int, other: seq<Download>)
    requires multiset(other) <= multiset(downloads)
    requires Bytes(other) <= budget
    ensures Bytes(other) <= 2 * Bytes(Chosen(downloads, budget))
  {
    var items := SortBySize(downloads);
    SortIsDescending(downloads);
    GreedyDichotomy(items, budget);
    if Greedy(items, budget) == Small(items, budget) {
      forall x ensures multiset(other)[x] <= multiset(Small(items, budget))[x] {
        SmallCounts(items, budget, x);
        if x in multiset(other) {
          var k :| 0 <= k < |other| && other[k] == x;
          BytesRemove(other, k);
        }
      }
      BytesMonotone(other, Small(items, budget));
    }
  }

  lemma TightSorted(a: Download, b: Download)
    requires a.size > b.size
    ensures SortBySize([b, a, b]) == [a, b, b]
  {
    assert SortBySize([b]) == [b];
    assert SortBySize([a, b]) == [a, b] by {
      assert [a, b][1..] == [b];
    }
    assert [b, a, b][1..] == [a, b] && [a, b][1..] == [b];
    assert Insert(b, [b], SizeKey) == [b, b];
  }

  lemma TightChosen(a: Download, b: Download, n: nat)
    requires n > 0 && a.size == n + 1 && b.size == n
    ensures Greedy([a, b, b], 2 * n) == [a]
  {
    assert [a, b, b][1..] == [b, b] && [b, b][1..] == [b];
    assert Greedy([b], n - 1) == [];
    assert Greedy([b, b], n - 1) == [];
  }

  /** The bound cannot be improved to any constant below two: the choice can end with n + 1
      bytes where 2 * n bytes fit. */
  lemma FactorTwoIsTight(n: nat)
    requires n > 0
    ensures var a, b := Download("a", n + 1, "a"), Download("b", n, "b");
            Bytes(Chosen([b, a, b], 2 * n)) == n + 1 && Bytes([b, b]) == 2 * n
  {
    var a, b := Download("a", n + 1, "a"), Download("b", n, "b");
    TightSorted(a, b);
    TightChosen(a, b, n);
    assert [b, b][1..] == [b] && Bytes([b]) == n;
  }

  // -- accounting ----------------------------------------------------------

  function Pending(downloads: seq<Download>, present: set<string>): seq<Download> {
    if downloads == [] then []
    else (if downloads[0].filename !in present then [downloads[0]] else []) + Pending(downloads[1..], present)
  }

  function Present(downloads: seq<Download>, present: set<string>): seq<Download> {
    if downloads == [] then []
    else (if downloads[0].filename in present then [downloads[0]] else []) + Present(downloads[1..], present)
  }

  /** What one run of the worker decides once pacman has listed the plan's packages. */
  datatype Planning = Planning(downloads: seq<Download>, present: set<string>, budget: int) {
    function PendingItems(): seq<Download> {
      Pending(downloads, present)
    }

    function ChosenItems(): seq<Download> {
      if budget >= MIN_BUDGET then Chosen(PendingItems(), budget) else []
    }

    function Total(): nat {
      Bytes(downloads)
    }

    function Planned(): int {
      Total() - Bytes(PendingItems()) + Bytes(ChosenItems())
    }

    predicate Partial() {
      |ChosenItems()| < |PendingItems()|
    }

    predicate TooSmall() {
      PendingItems() != [] && ChosenItems() == []
    }

    function Files(): set<string> {
      set item <- downloads :: item.filename
    }
  }

  lemma {:induction false} PendingPartition(downloads: seq<Download>, present: set<string>)
    ensures Bytes(downloads) == Bytes(Pending(downloads, present)) + Bytes(Present(downloads, present))
  {
    if downloads != [] {
      PendingPartition(downloads[1..], present);
      var rest, have := Pending(downloads[1..], present), Present(downloads[1..], present);
      assert ([downloads[0]] + rest)[1..] == rest;
      assert ([downloads[0]] + have)[1..] == have;
      assert [] + rest == rest && [] + have == have;
    }
  }

  lemma {:induction false} GreedyTakesAll(items: seq<Download>, budget: int)
    requires Bytes(items) <= budget
    ensures Greedy(items, budget) == items
  {
    if items != [] {
      GreedyTakesAll(items[1..], budget - items[0].size);
    }
  }

  lemma CountsCompare(a: seq<Download>, b: seq<Download>)
    requires multiset(a) <= multiset(b)
    ensures |a| < |b| <==> multiset(a) != multiset(b)
  {
    var rest := multiset(b) - multiset(a);
    assert multiset(b) == multiset(a) + rest;
    assert |multiset(b)| == |multiset(a)| + |rest|;
    assert |multiset(a)| == |a| && |multiset(b)| == |b|;
  }

  /** Everything is chosen exactly when everything fits. */
  lemma AllChosenIffFits(items: seq<Download>, budget: int)
    ensures multiset(Chosen(items, budget)) == multiset(items) <==> items == [] || Bytes(items) <= budget
  {
    ChoiceFits(items, budget);
    BytesOfPermutation(SortBySize(items), items);
    if Bytes(items) <= budget {
      GreedyTakesAll(SortBySize(items), budget);
    }
    if multiset(Chosen(items, budget)) == multiset(items) {
      BytesOfPermutation(Chosen(items, budget), items);
    }
    if items != [] {
      assert items[0] in multiset(items);
    }
  }

  /** The choice is partial exactly when some pending package was left out, and that is exactly
      when the pending packages do not all fit a budget worth starting on. */
  lemma PartialMeansLeftOut(p: Planning)
    ensures multiset(p.ChosenItems()) <= multiset(p.PendingItems())
    ensures p.Partial() <==> multiset(p.ChosenItems()) != multiset(p.PendingItems())
    ensures p.Partial() <==>
            p.PendingItems() != [] && (p.budget < MIN_BUDGET || Bytes(p.PendingItems()) > p.budget)
  {
    var pending, chosen := p.PendingItems(), p.ChosenItems();
    ChoiceFits(pending, p.budget);
    AllChosenIffFits(pending, p.budget);
    CountsCompare(chosen, pending);
  }

  /** The planned bytes are those already in the cache plus those chosen, never more than the
      plan's total, and equal to it when nothing is left out. A worker gives up for lack of
      memory only when it left something out. */
  lemma PlanAccounting(p: Planning)
    ensures p.Planned() == Bytes(Present(p.downloads, p.present)) + Bytes(p.ChosenItems())
    ensures 0 <= p.Planned() <= p.Total()
    ensures p.ChosenItems() != [] ==> Bytes(p.ChosenItems()) <= p.budget
    ensures !p.Partial() ==> p.Planned() == p.Total()
    ensures p.TooSmall() ==> p.Partial() && p.Planned() == Bytes(Present(p.downloads, p.present))
  {
    var pending, chosen := p.PendingItems(), p.ChosenItems();
    PendingPartition(p.downloads, p.present);
    PartialMeansLeftOut(p);
    BytesMonotone(chosen, pending);
    ChoiceFits(pending, p.budget);
    if !p.Partial() {
      BytesOfPermutation(chosen, pending);
    }
  }

  lemma {:induction false} PendingHolds(downloads: seq<Download>, present: set<string>)
    ensures forall d :: d in Pending(downloads, present) <==> d in downloads && d.filename !in present
  {
    if downloads != [] {
      PendingHolds(downloads[1..], present);
      assert downloads == [downloads[0]] + downloads[1..];
    }
  }

  /** Nothing is chosen exactly when the budget is too small to begin or no pending package fits it. */
  lemma NothingChosenIff(p: Planning)
    ensures p.PendingItems() == [] <==> forall d <- p.downloads :: d.filename in p.present
    ensures p.ChosenItems() == [] <==>
            p.budget < MIN_BUDGET || forall d <- p.downloads | d.filename !in p.present :: d.size > p.budget
  {
    var pending, chosen := p.PendingItems(), p.ChosenItems();
    PendingHolds(p.downloads, p.present);
    assert p.PendingItems() != [] ==> pending[0] in pending;
    ChoiceFits(pending, p.budget);
    if p.budget >= MIN_BUDGET && chosen != [] {
      var d := chosen[0];
      assert d in multiset(chosen) && d in multiset(pending);
      assert d in pending && Bytes(chosen) >= d.size;
    } else if p.budget >= MIN_BUDGET {
      forall d | d in p.downloads && d.filename !in p.present ensures d.size > p.budget {
        assert d in pending && d in multiset(pending);
      }
    }
  }
}
