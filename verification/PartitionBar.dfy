/** The bar that previews a disk: which bytes are kept, erased, unallocated, or will hold the new system. */
module PartitionBar {
  import opened Common
  import opened Intervals
  import opened Sequences
  import opened Sorting

  // The smallest gap the bar shows.
  const MIN_GAP: int := 16 * 1024 * 1024

  // A partition as listed: its last byte is at end.
  datatype Part = Part(path: string, name: string, start: nat, end: nat) {
    function Size(): int { end - start + 1 }
  }

  datatype Kind = Erase | FreeSpace | Partitions

  datatype Fate = Kept | Lost | New | Free

  // The partition whose tail goes to the new system, and the size it keeps.
  datatype Shrink = Shrink(path: string, newSize: int)

  datatype Choice = Choice(kind: Kind, root: string, boot: string, formatBoot: bool, shrink: Option<Shrink>)

  // What a segment shows: a partition, the tail cut off one, or a gap.
  datatype Key = Whole(path: string) | Freed(path: string) | Gap | WholeDisk

  datatype Segment = Segment(key: Key, start: int, size: int, caption: string, fate: Fate) {
    function End(): int { start + size }
  }

  const NEW_LABEL: string := "protogenOS"

  function Start(p: Part): int {
    p.start
  }

  function SortByStart(parts: seq<Part>): (r: seq<Part>)
    ensures multiset(r) == multiset(parts)
  {
    SortBy(parts, Start)
  }

  // -- layouts ------------------------------------------------------------------

  // The partitions lie inside the disk and no two of them share a byte.
  ghost predicate WellPlaced(parts: seq<Part>, size: int) {
    && (forall p <- parts :: p.start <= p.end < size)
    && (forall p <- parts, q <- parts | p != q :: Apart(p.start, p.end, q.start, q.end))
    && (forall p <- parts :: multiset(parts)[p] == 1)
  }

  ghost predicate Ascending(parts: seq<Part>) {
    forall i, j | 0 <= i < j < |parts| :: parts[i].end < parts[j].start
  }

  lemma Twice(parts: seq<Part>, i: nat, j: nat)
    requires i < j < |parts| && parts[i] == parts[j]
    ensures multiset(parts)[parts[i]] >= 2
  {
    assert parts == parts[..j] + [parts[j]] + parts[j + 1..];
    assert parts[i] in parts[..j];
  }

  // In a well-placed layout the sorted partitions follow one another.
  lemma SortedIsAscending(parts: seq<Part>, size: int)
    requires WellPlaced(parts, size)
    ensures WellPlaced(SortByStart(parts), size) && Ascending(SortByStart(parts))
  {
    var sorted := SortByStart(parts);
    SortIsSorted(parts, Start);
    SameMembers(parts, sorted);
    forall i, j | 0 <= i < j < |sorted|
      ensures sorted[i].end < sorted[j].start
    {
      if sorted[i] == sorted[j] {
        Twice(sorted, i, j);
      }
      assert Apart(sorted[i].start, sorted[i].end, sorted[j].start, sorted[j].end);
      assert Start(sorted[i]) <= Start(sorted[j]);
    }
  }

  // -- what the bar shows ----------------------------------------------------------

  predicate Shrunk(c: Choice, p: Part) {
    c.kind == FreeSpace && c.shrink.Some? && p.path == c.shrink.value.path
  }

  predicate IsRoot(c: Choice, p: Part) {
    c.kind == Partitions && p.path == c.root
  }

  predicate IsErasedBoot(c: Choice, p: Part) {
    c.kind == Partitions && c.formatBoot && p.path == c.boot && !IsRoot(c, p)
  }

  function GapTo(cursor: int, to: int): seq<Segment> {
    if to - cursor >= MIN_GAP then [Segment(Gap, cursor, to - cursor, "free", Free)] else []
  }

  function PartSegments(c: Choice, p: Part): seq<Segment> {
    if Shrunk(c, p) then
      var kept := c.shrink.value.newSize;
      [Segment(Whole(p.path), p.start, kept, p.name, Kept),
       Segment(Freed(p.path), p.start + kept, p.Size() - kept, NEW_LABEL, New)]
    else
      [Segment(
         Whole(p.path), p.start, p.Size(),
         if IsRoot(c, p) then NEW_LABEL else p.name,
         if IsRoot(c, p) then New else if IsErasedBoot(c, p) then Lost else Kept)]
  }

  // A partition's own segments, written out: two when its tail is cut off, else one that spans it.
  lemma PartSegmentsAre(c: Choice, p: Part)
    ensures var own, shrunk := PartSegments(c, p),
                c.kind == FreeSpace && c.shrink.Some? && c.shrink.value.path == p.path;
            var root := c.kind == Partitions && c.root == p.path;
            var lost := c.kind == Partitions && !root && c.formatBoot && c.boot == p.path;
            && (shrunk ==>
                  && |own| == 2 && own[0].start == p.start && own[0].size == c.shrink.value.newSize
                  && own[0].fate == Kept && own[0].caption == p.name
                  && own[1].start == p.start + c.shrink.value.newSize && own[1].End() == p.end + 1
                  && own[1].fate == New && own[1].caption == "protogenOS")
            && (!shrunk ==>
                  && |own| == 1 && own[0].start == p.start && own[0].End() == p.end + 1
                  && own[0].fate == (if root then New else if lost then Lost else Kept)
                  && own[0].caption == if root then "protogenOS" else p.name)
  {
  }

  // What one partition adds to the bar: the gap before it and its own segments.
  function Drawn(c: Choice, p: Part, cursor: int): seq<Segment> {
    GapTo(cursor, p.start) + PartSegments(c, p)
  }

  // The segments from the cursor on.
  function Bar(c: Choice, parts: seq<Part>, cursor: int, size: int): seq<Segment> {
    if parts == [] then GapTo(cursor, size)
    else Drawn(c, parts[0], cursor) + Bar(c, parts[1..], Max(cursor, parts[0].end + 1), size)
  }

  // The first of the largest unallocated segments.
  ghost predicate IsFirstLargestFree(segments: seq<Segment>, i: nat) {
    && i < |segments| && segments[i].fate == Free
    && (forall j | 0 <= j < |segments| && segments[j].fate == Free :: segments[j].size <= segments[i].size)
    && (forall j | 0 <= j < i && segments[j].fate == Free :: segments[j].size < segments[i].size)
  }

  function Marked(segments: seq<Segment>, i: nat): seq<Segment>
    requires i < |segments|
  {
    segments[i := segments[i].(fate := New, caption := NEW_LABEL)]
  }

  // After is the bar before, but for the one unallocated segment the new system goes to when it
  // takes free space without a shrink.
  ghost predicate MarkedFrom(c: Choice, before: seq<Segment>, after: seq<Segment>) {
    if c.kind == FreeSpace && c.shrink.None? && exists s <- before :: s.fate == Free then
      exists i: nat :: IsFirstLargestFree(before, i) && after == Marked(before, i)
    else
      after == before
  }

  method LargestFree(segments: seq<Segment>) returns (best: Option<nat>)
    ensures best.Some? ==> IsFirstLargestFree(segments, best.value)
    ensures best.None? ==> forall s <- segments :: s.fate != Free
  {
    best := None;
    for i := 0 to |segments|
      invariant best.None? ==> forall j | 0 <= j < i :: segments[j].fate != Free
      invariant best.Some? ==> best.value < i && IsFirstLargestFree(segments[..i], best.value)
    {
      if segments[i].fate == Free && (best.None? || segments[best.value].size < segments[i].size) {
        best := Some(i);
      }
    }
    assert segments[..|segments|] == segments;
  }

  // One round of the loop over the sorted partitions.
  method DrawPart(c: Choice, part: Part, cursor: int, segments: seq<Segment>) returns (r: seq<Segment>)
    ensures r == segments + Drawn(c, part, cursor)
  {
    r := DrawGap(cursor, part.start, segments);
    Associates(segments, GapTo(cursor, part.start), PartSegments(c, part));
    var replaced := c.kind == Partitions && (part.path == c.root || (c.formatBoot && part.path == c.boot));
    if c.kind == FreeSpace && c.shrink.Some? && part.path == c.shrink.value.path {
      var kept := c.shrink.value.newSize;
      var whole := Segment(Whole(part.path), part.start, kept, part.name, Kept);
      var freed := Segment(Freed(part.path), part.start + kept, part.Size() - kept, NEW_LABEL, New);
      Associates(r, [whole], [freed]);
      r := r + [whole];
      r := r + [freed];
      assert [whole] + [freed] == PartSegments(c, part);
      return;
    }
    var isRoot := c.kind == Partitions && part.path == c.root;
    r := r
      + [Segment(Whole(part.path), part.start, part.Size(), if isRoot then NEW_LABEL else part.name,
                 if isRoot then New else if replaced then Lost else Kept)];
  }

  method DrawGap(cursor: int, to: int, segments: seq<Segment>) returns (r: seq<Segment>)
    ensures r == segments + GapTo(cursor, to)
  {
    Associates(segments, [], []);
    r := segments;
    if to - cursor >= MIN_GAP {
      r := r + [Segment(Gap, cursor, to - cursor, "free", Free)];
    }
  }

  lemma BarEnds(c: Choice, sorted: seq<Part>, cursor: int, size: int)
    ensures [] + Bar(c, sorted[0..], 0, size) == Bar(c, sorted, 0, size)
    ensures Bar(c, sorted[|sorted|..], cursor, size) == GapTo(cursor, size)
  {
    assert sorted[0..] == sorted && sorted[|sorted|..] == [];
    Associates(Bar(c, sorted, 0, size), [], []);
  }

  // The loop over the partitions in disk order, and the gap after the last.
  method DrawBar(parts: seq<Part>, size: nat, c: Choice) returns (segments: seq<Segment>)
    ensures segments == Bar(c, SortByStart(parts), 0, size)
  {
    segments := [];
    var cursor := 0;
    var sorted := SortByStart(parts);
    ghost var bar := Bar(c, sorted, 0, size);
    BarEnds(c, sorted, 0, size);
    for i := 0 to |sorted|
      invariant segments + Bar(c, sorted[i..], cursor, size) == bar
    {
      BarStep(c, sorted, i, cursor, size, segments);
      segments := DrawPart(c, sorted[i], cursor, segments);
      cursor := Max(cursor, sorted[i].end + 1);
    }
    BarEnds(c, sorted, cursor, size);
    segments := DrawGap(cursor, size, segments);
  }

  method SegmentsFor(parts: seq<Part>, size: nat, c: Choice) returns (segments: seq<Segment>)
    ensures c.kind == Erase ==> segments == [Segment(WholeDisk, 0, size, NEW_LABEL, New)]
    ensures c.kind != Erase ==> MarkedFrom(c, Bar(c, SortByStart(parts), 0, size), segments)
  {
    if c.kind == Erase {
      return [Segment(WholeDisk, 0, size, NEW_LABEL, New)];
    }
    segments := DrawBar(parts, size, c);
    segments := MarkLargest(c, segments);
  }

  lemma BarStep(c: Choice, sorted: seq<Part>, i: nat, cursor: int, size: int, segments: seq<Segment>)
    requires i < |sorted|
    ensures segments + Bar(c, sorted[i..], cursor, size)
         == segments + Drawn(c, sorted[i], cursor) + Bar(c, sorted[i + 1..], Max(cursor, sorted[i].end + 1), size)
  {
    assert sorted[i..][0] == sorted[i] && sorted[i..][1..] == sorted[i + 1..];
    Associates(segments, Drawn(c, sorted[i], cursor), Bar(c, sorted[i + 1..], Max(cursor, sorted[i].end + 1), size));
  }

  // The last step of the loop's function: free space goes to the first largest gap shown.
  method MarkLargest(c: Choice, bar: seq<Segment>) returns (segments: seq<Segment>)
    ensures MarkedFrom(c, bar, segments)
  {
    segments := bar;
    if c.kind == FreeSpace && c.shrink.None? {
      var largest := LargestFree(segments);
      if largest.Some? {
        segments := Marked(segments, largest.value);
      }
    }
  }

  // -- the bar is a picture of the disk -------------------------------------------------

  // The segments lie in order inside [from, to), each nonempty, and leave out only gaps too small to show.
  ghost predicate Pictures(segments: seq<Segment>, from: int, to: int) {
    if segments == [] then 0 <= to - from < MIN_GAP
    else
      && 0 <= segments[0].start - from < MIN_GAP
      && segments[0].size > 0
      && Pictures(segments[1..], segments[0].End(), to)
  }

  // The preview keeps some of the shrunk partition and cuts some of it off.
  ghost predicate ShrinkFits(c: Choice, parts: seq<Part>) {
    forall p <- parts | Shrunk(c, p) :: 0 < c.shrink.value.newSize < p.Size()
  }

  lemma {:induction false} PicturesJoin(a: seq<Segment>, b: seq<Segment>, from: int, middle: int, to: int)
    requires a != [] && Pictures(a, from, middle) && a[|a| - 1].End() == middle && Pictures(b, middle, to)
    ensures Pictures(a + b, from, to)
  {
    assert (a + b)[0] == a[0] && (a + b)[1..] == a[1..] + b;
    if |a| == 1 {
      assert a[1..] + b == b;
    } else {
      PicturesJoin(a[1..], b, a[0].End(), middle, to);
    }
  }

  lemma PartPictured(c: Choice, p: Part, cursor: int)
    requires cursor <= p.start <= p.end
    requires Shrunk(c, p) ==> 0 < c.shrink.value.newSize < p.Size()
    ensures var shown := Drawn(c, p, cursor);
            && shown != []
            && Pictures(shown, cursor, p.end + 1)
            && shown[|shown| - 1].End() == p.end + 1
  {
    var gap, own := GapTo(cursor, p.start), PartSegments(c, p);
    var from := if gap == [] then cursor else p.start;
    assert Pictures(own[|own| - 1..], if Shrunk(c, p) then own[0].End() else from, p.end + 1);
    assert own[|own| - 1..] == if Shrunk(c, p) then own[1..] else own;
    assert Pictures(own, from, p.end + 1);
    if gap == [] {
      assert gap + own == own;
    } else {
      assert Pictures(gap[1..], p.start, p.start);
      PicturesJoin(gap, own, cursor, p.start, p.end + 1);
    }
  }

  lemma GapPictured(cursor: int, to: int)
    requires cursor <= to
    ensures Pictures(GapTo(cursor, to), cursor, to)
  {
    var gap := GapTo(cursor, to);
    assert gap != [] ==> Pictures(gap[1..], to, to);
  }

  // The partitions follow one another between the cursor and the disk's end.
  ghost predicate InPlace(c: Choice, parts: seq<Part>, cursor: int, size: int) {
    && Ascending(parts) && ShrinkFits(c, parts) && cursor <= size
    && forall p <- parts :: cursor <= p.start <= p.end < size
  }

  lemma RestInPlace(c: Choice, parts: seq<Part>, cursor: int, size: int)
    requires InPlace(c, parts, cursor, size) && parts != []
    ensures Max(cursor, parts[0].end + 1) == parts[0].end + 1
    ensures InPlace(c, parts[1..], parts[0].end + 1, size)
  {
    assert forall q <- parts[1..] :: q in parts && parts[0].end < q.start;
  }

  // One partition in front of a pictured rest.
  lemma DrawnInFront(c: Choice, p: Part, rest: seq<Segment>, cursor: int, size: int)
    requires cursor <= p.start <= p.end
    requires Shrunk(c, p) ==> 0 < c.shrink.value.newSize < p.Size()
    requires Pictures(rest, p.end + 1, size)
    ensures Pictures(Drawn(c, p, cursor) + rest, cursor, size)
  {
    PartPictured(c, p, cursor);
    PicturesJoin(Drawn(c, p, cursor), rest, cursor, p.end + 1, size);
  }

  // Ascending partitions inside the disk are pictured from the first byte to the last.
  lemma {:induction false} BarPictures(c: Choice, parts: seq<Part>, cursor: int, size: int)
    requires InPlace(c, parts, cursor, size)
    ensures Pictures(Bar(c, parts, cursor, size), cursor, size)
  {
    if parts == [] {
      GapPictured(cursor, size);
    } else {
      var first, others := parts[0], parts[1..];
      var rest := Bar(c, others, first.end + 1, size);
      RestInPlace(c, parts, cursor, size);
      BarPictures(c, others, first.end + 1, size);
      DrawnInFront(c, first, rest, cursor, size);
      assert Max(cursor, first.end + 1) == first.end + 1;
      assert Bar(c, parts, cursor, size) == Drawn(c, first, cursor) + rest;
    }
  }

  // Marking changes neither where a segment is nor how long it is.
  lemma {:induction false} SameShapePictures(a: seq<Segment>, b: seq<Segment>, from: int, to: int)
    requires |a| == |b| && forall i | 0 <= i < |a| :: a[i].start == b[i].start && a[i].size == b[i].size
    requires Pictures(a, from, to)
    ensures Pictures(b, from, to)
  {
    if a != [] {
      SameShapePictures(a[1..], b[1..], a[0].End(), to);
    }
  }

  lemma {:induction false} PicturesInOrder(segments: seq<Segment>, from: int, to: int, i: nat)
    requires Pictures(segments, from, to) && i < |segments|
    ensures from <= segments[i].start < segments[i].End() <= to
    ensures forall j | i < j < |segments| :: segments[i].End() <= segments[j].start
    ensures segments[0].start - from < MIN_GAP
    ensures (if i + 1 < |segments| then segments[i + 1].start else to) - segments[i].End() < MIN_GAP
  {
    var rest := segments[1..];
    if i > 0 {
      PicturesInOrder(rest, segments[0].End(), to, i - 1);
      assert forall j | i < j < |segments| :: segments[j] == rest[j - 1];
    } else {
      PicturedAfter(rest, segments[0].End(), to);
      assert forall j | 0 < j < |segments| :: segments[j] == rest[j - 1];
    }
  }

  lemma {:induction false} PicturedAfter(segments: seq<Segment>, from: int, to: int)
    requires Pictures(segments, from, to)
    ensures from <= to && forall s <- segments :: from <= s.start < s.End() <= to
  {
    if segments != [] {
      PicturedAfter(segments[1..], segments[0].End(), to);
    }
  }

  // The segments stand in the bar at k, one after the other.
  ghost predicate ShownAt(segments: seq<Segment>, own: seq<Segment>, k: int) {
    0 <= k <= k + |own| <= |segments| && segments[k..k + |own|] == own
  }

  lemma ShownBehind(front: seq<Segment>, rest: seq<Segment>, own: seq<Segment>, k: int)
    requires ShownAt(rest, own, k)
    ensures ShownAt(front + rest, own, |front| + k)
  {
    assert (front + rest)[|front| + k..|front| + k + |own|] == rest[k..k + |own|];
  }

  lemma ShownBefore(front: seq<Segment>, own: seq<Segment>, rest: seq<Segment>)
    ensures ShownAt(front + own + rest, own, |front|)
  {
    assert (front + own + rest)[|front|..|front| + |own|] == own;
  }

  // Each partition's segments stand in the bar.
  lemma {:induction false} PartIsShown(c: Choice, parts: seq<Part>, cursor: int, size: int, p: Part)
    requires p in parts
    ensures exists k :: ShownAt(Bar(c, parts, cursor, size), PartSegments(c, p), k)
  {
    var next := Max(cursor, parts[0].end + 1);
    var rest := Bar(c, parts[1..], next, size);
    if p == parts[0] {
      ShownBefore(GapTo(cursor, p.start), PartSegments(c, p), rest);
      assert ShownAt(Bar(c, parts, cursor, size), PartSegments(c, p), |GapTo(cursor, p.start)|);
    } else {
      PartIsShown(c, parts[1..], next, size, p);
      var k :| ShownAt(rest, PartSegments(c, p), k);
      ShownBehind(Drawn(c, parts[0], cursor), rest, PartSegments(c, p), k);
      assert ShownAt(Bar(c, parts, cursor, size), PartSegments(c, p), |Drawn(c, parts[0], cursor)| + k);
    }
  }

  lemma {:induction false} GapsAreFree(c: Choice, parts: seq<Part>, cursor: int, size: int)
    ensures forall s <- Bar(c, parts, cursor, size) :: s.fate == Free <==> s.key == Gap
    ensures forall s <- Bar(c, parts, cursor, size) | s.fate == Free :: s.size >= MIN_GAP
  {
    if parts != [] {
      GapsAreFree(c, parts[1..], Max(cursor, parts[0].end + 1), size);
    }
  }

  // A partition keeps its bytes in the bar after marking: its segments span it exactly, one for an
  // untouched partition, two that meet at the new size for a shrunk one.
  ghost predicate Spans(own: seq<Segment>, p: Part) {
    && |own| > 0 && own[0].start == p.start && own[|own| - 1].End() == p.end + 1
    && own[0].key == Whole(p.path)
    && forall i | 0 < i < |own| :: own[i].start == own[i - 1].End()
  }

  lemma MarkingKeepsShape(c: Choice, before: seq<Segment>, after: seq<Segment>)
    requires MarkedFrom(c, before, after)
    ensures |after| == |before|
    ensures forall i | 0 <= i < |before| :: after[i].start == before[i].start && after[i].size == before[i].size
                                         && after[i].key == before[i].key
    ensures forall i | 0 <= i < |before| && before[i].fate != Free :: after[i] == before[i]
  {
    if after != before {
      var i: nat :| IsFirstLargestFree(before, i) && after == Marked(before, i);
    }
  }

  lemma MarkingKeepsParts(c: Choice, before: seq<Segment>, after: seq<Segment>, own: seq<Segment>, k: int)
    requires MarkedFrom(c, before, after) && ShownAt(before, own, k)
    requires forall s <- own :: s.fate != Free
    ensures ShownAt(after, own, k)
  {
    MarkingKeepsShape(c, before, after);
    forall i | 0 <= i < |own| ensures after[k + i] == own[i] {
      assert before[k + i] == before[k..k + |own|][i] == own[i];
    }
  }

  lemma PartSpans(c: Choice, parts: seq<Part>, p: Part)
    requires ShrinkFits(c, parts) && p in parts
    ensures Spans(PartSegments(c, p), p) && forall s <- PartSegments(c, p) :: s.fate != Free
  {
  }

  lemma PartKeepsItsPlace(parts: seq<Part>, size: nat, c: Choice, segments: seq<Segment>, p: Part)
    requires p in parts && ShrinkFits(c, parts)
    requires MarkedFrom(c, Bar(c, SortByStart(parts), 0, size), segments)
    ensures exists k :: ShownAt(segments, PartSegments(c, p), k)
  {
    var sorted := SortByStart(parts);
    SameMembers(parts, sorted);
    PartIsShown(c, sorted, 0, size, p);
    var bar := Bar(c, sorted, 0, size);
    var k :| ShownAt(bar, PartSegments(c, p), k);
    PartSpans(c, parts, p);
    MarkingKeepsParts(c, bar, segments, PartSegments(c, p), k);
  }

  // The whole preview: for every layout of disjoint partitions inside the disk, the segments are in
  // order and disjoint inside the disk, each partition is covered exactly, and every byte not shown
  // is in a gap too small to show.
  lemma PreviewIsThePicture(parts: seq<Part>, size: nat, c: Choice, segments: seq<Segment>)
    requires WellPlaced(parts, size) && ShrinkFits(c, parts) && c.kind != Erase
    requires MarkedFrom(c, Bar(c, SortByStart(parts), 0, size), segments)
    ensures Pictures(segments, 0, size)
    ensures forall p <- parts :: Spans(PartSegments(c, p), p)
                              && exists k :: ShownAt(segments, PartSegments(c, p), k)
  {
    var sorted := SortByStart(parts);
    var bar := Bar(c, sorted, 0, size);
    SortedIsAscending(parts, size);
    SameMembers(parts, sorted);
    BarPictures(c, sorted, 0, size);
    MarkingKeepsShape(c, bar, segments);
    SameShapePictures(bar, segments, 0, size);
    forall p | p in parts
      ensures Spans(PartSegments(c, p), p) && exists k :: ShownAt(segments, PartSegments(c, p), k)
    {
      PartSpans(c, parts, p);
      PartKeepsItsPlace(parts, size, c, segments, p);
    }
  }

  lemma {:induction false} BarGapsAvoid(c: Choice, parts: seq<Part>, cursor: int, size: int, s: Segment, p: Part)
    requires Sorted(parts, Start) && (p in parts || p.end < cursor)
    requires s in Bar(c, parts, cursor, size) && s.key == Gap
    ensures s.End() <= p.start || p.end < s.start
  {
    if parts != [] {
      var first, next := parts[0], Max(cursor, parts[0].end + 1);
      if s in Drawn(c, first, cursor) {
        assert s in GapTo(cursor, first.start);
        assert p in parts ==> Start(first) <= Start(p);
      } else {
        BarGapsAvoid(c, parts[1..], next, size, s, p);
      }
    }
  }

  // No segment shown for a gap holds a byte of a partition, even where partitions overlap, as logical
  // ones and the extended one around them do.
  lemma GapsAvoidPartitions(parts: seq<Part>, size: nat, c: Choice, segments: seq<Segment>, i: nat, p: Part)
    requires MarkedFrom(c, Bar(c, SortByStart(parts), 0, size), segments)
    requires p in parts && i < |segments| && segments[i].key == Gap
    ensures segments[i].End() <= p.start || p.end < segments[i].start
  {
    var bar := Bar(c, SortByStart(parts), 0, size);
    SortIsSorted(parts, Start);
    SameMembers(parts, SortByStart(parts));
    MarkingKeepsShape(c, bar, segments);
    BarGapsAvoid(c, SortByStart(parts), 0, size, bar[i], p);
  }

  lemma AfterDrawn(c: Choice, parts: seq<Part>, cursor: int, size: int, i: nat)
    requires parts != [] && i < |Bar(c, parts[1..], Max(cursor, parts[0].end + 1), size)|
    ensures var drawn, rest := Drawn(c, parts[0], cursor), Bar(c, parts[1..], Max(cursor, parts[0].end + 1), size);
            |Bar(c, parts, cursor, size)| == |drawn| + |rest| && Bar(c, parts, cursor, size)[|drawn| + i] == rest[i]
  {
  }

  // Any stretch free of partitions and large enough to show lies inside one gap.
  lemma {:induction false} FreeIsShown(c: Choice, parts: seq<Part>, cursor: int, size: int, a: int, b: int)
    returns (k: nat)
    requires cursor <= a && b <= size && b - a >= MIN_GAP
    requires forall p <- parts :: Apart(a, b - 1, p.start, p.end)
    ensures var bar := Bar(c, parts, cursor, size);
            k < |bar| && bar[k].key == Gap && bar[k].start <= a && b <= bar[k].End()
  {
    k := 0;
    if parts != [] {
      var first, others := parts[0], parts[1..];
      assert Apart(a, b - 1, first.start, first.end);
      if b - 1 < first.start {
        assert Drawn(c, first, cursor)[0] == GapTo(cursor, first.start)[0];
      } else {
        var drawn, next := Drawn(c, first, cursor), Max(cursor, first.end + 1);
        var i := FreeIsShown(c, others, next, size, a, b);
        k := |drawn| + i;
        AfterDrawn(c, parts, cursor, size, i);
      }
    }
  }

  // The segment is a gap, no gap shown is larger, and no earlier one is as large.
  ghost predicate IsFirstLargestGap(segments: seq<Segment>, i: nat) {
    && i < |segments| && segments[i].key == Gap
    && (forall j | 0 <= j < |segments| && segments[j].key == Gap :: segments[j].size <= segments[i].size)
    && (forall j | 0 <= j < i && segments[j].key == Gap :: segments[j].size < segments[i].size)
  }

  lemma FreeIsGap(before: seq<Segment>, after: seq<Segment>, i: nat)
    requires forall s <- before :: s.fate == Free <==> s.key == Gap
    requires |after| == |before| && forall j | 0 <= j < |before| :: after[j].size == before[j].size
                                                                && after[j].key == before[j].key
    ensures IsFirstLargestFree(before, i) <==> IsFirstLargestGap(after, i)
  {
    assert forall j | 0 <= j < |before| :: before[j] in before;
  }

  // Without a shrink, exactly the first of the largest gaps shown is given to the new system.
  lemma FirstLargestIsNew(parts: seq<Part>, size: nat, c: Choice, segments: seq<Segment>, i: nat)
    requires c.kind == FreeSpace && c.shrink.None? && i < |segments|
    requires MarkedFrom(c, Bar(c, SortByStart(parts), 0, size), segments)
    ensures segments[i].fate == New <==> IsFirstLargestGap(segments, i)
    ensures segments[i].fate == New ==> segments[i].caption == "protogenOS"
  {
    var bar := Bar(c, SortByStart(parts), 0, size);
    GapsAreFree(c, SortByStart(parts), 0, size);
    NothingNewYet(c, SortByStart(parts), 0, size);
    MarkingKeepsShape(c, bar, segments);
    FreeIsGap(bar, segments, i);
    assert bar[i] in bar;
    if exists s <- bar :: s.fate == Free {
      var m: nat :| IsFirstLargestFree(bar, m) && segments == Marked(bar, m);
      FreeIsGap(bar, segments, m);
    }
  }

  // Before anything is marked, only the tail of a shrunk partition is new.
  lemma {:induction false} NewIsTail(c: Choice, parts: seq<Part>, cursor: int, size: int, s: Segment) returns (p: Part)
    requires c.kind == FreeSpace && s in Bar(c, parts, cursor, size) && s.fate == New
    ensures p in parts && Shrunk(c, p) && s == PartSegments(c, p)[1]
  {
    if parts == [] {
      assert false;
    } else if s in Drawn(c, parts[0], cursor) {
      p := parts[0];
    } else {
      p := NewIsTail(c, parts[1..], Max(cursor, parts[0].end + 1), size, s);
    }
  }

  lemma {:induction false} NothingNewYet(c: Choice, parts: seq<Part>, cursor: int, size: int)
    requires c.kind == FreeSpace && c.shrink.None?
    ensures forall s <- Bar(c, parts, cursor, size) :: s.fate != New
  {
    if parts != [] {
      NothingNewYet(c, parts[1..], Max(cursor, parts[0].end + 1), size);
    }
  }
}
