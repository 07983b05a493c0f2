/** Runs of edits: applying a list of edits to a value, one after the other. */
module Folding {

  function Fold<E, V>(edit: (E, V) -> V, edits: seq<E>, v: V): V {
    if edits == [] then v else Fold(edit, edits[1..], edit(edits[0], v))
  }

  lemma {:induction false} FoldAfter<E, V>(edit: (E, V) -> V, first: seq<E>, second: seq<E>, v: V)
    ensures Fold(edit, first + second, v) == Fold(edit, second, Fold(edit, first, v))
  {
    if first == [] {
      assert first + second == second;
    } else {
      FoldAfter(edit, first[1..], second, edit(first[0], v));
      assert (first + second)[1..] == first[1..] + second;
    }
  }

  lemma FoldOnce<E, V>(edit: (E, V) -> V, e: E, v: V)
    ensures Fold(edit, [e], v) == edit(e, v)
  {
    assert Fold(edit, [e][1..], edit(e, v)) == edit(e, v);
  }

  // Any two of the edits commute, and repeating one is the same as making it once.
  ghost predicate Mergeable<E, V(!new)>(edit: (E, V) -> V, edits: seq<E>) {
    && (forall e, d, v | e in edits && d in edits :: edit(e, edit(d, v)) == edit(d, edit(e, v)))
    && (forall e, v | e in edits :: edit(e, edit(e, v)) == edit(e, v))
  }

  lemma {:induction false} MovedPast<E, V(!new)>(edit: (E, V) -> V, all: seq<E>, e: E, edits: seq<E>, v: V)
    requires Mergeable(edit, all) && e in all && forall d <- edits :: d in all
    ensures Fold(edit, edits, edit(e, v)) == edit(e, Fold(edit, edits, v))
  {
    if edits != [] {
      assert edit(edits[0], edit(e, v)) == edit(e, edit(edits[0], v));
      MovedPast(edit, all, e, edits[1..], edit(edits[0], v));
    }
  }

  // An edit the run makes anyway can be made in front of it too.
  lemma {:induction false} Absorbed<E, V(!new)>(edit: (E, V) -> V, all: seq<E>, e: E, edits: seq<E>, v: V)
    requires Mergeable(edit, all) && e in edits && forall d <- edits :: d in all
    ensures Fold(edit, edits, edit(e, v)) == Fold(edit, edits, v)
  {
    if edits[0] != e {
      assert edit(edits[0], edit(e, v)) == edit(e, edit(edits[0], v));
      Absorbed(edit, all, e, edits[1..], edit(edits[0], v));
    }
  }

  lemma {:induction false} AllAbsorbed<E, V(!new)>(edit: (E, V) -> V, first: seq<E>, edits: seq<E>, v: V)
    requires Mergeable(edit, edits) && forall e <- first :: e in edits
    ensures Fold(edit, edits, Fold(edit, first, v)) == Fold(edit, edits, v)
  {
    if first != [] {
      AllAbsorbed(edit, first[1..], edits, edit(first[0], v));
      Absorbed(edit, edits, first[0], edits, v);
    }
  }

  lemma {:induction false} RunsCommute<E, V(!new)>(edit: (E, V) -> V, all: seq<E>, first: seq<E>, second: seq<E>, v: V)
    requires Mergeable(edit, all)
    requires (forall e <- first :: e in all) && (forall e <- second :: e in all)
    ensures Fold(edit, second, Fold(edit, first, v)) == Fold(edit, first, Fold(edit, second, v))
  {
    if first != [] {
      RunsCommute(edit, all, first[1..], second, edit(first[0], v));
      MovedPast(edit, all, first[0], second, v);
    }
  }

  // Runs that make the same edits, in any order and any number of times, have the same result.
  lemma SameEdits<E, V(!new)>(edit: (E, V) -> V, first: seq<E>, second: seq<E>, v: V)
    requires Mergeable(edit, first) && forall e :: e in first <==> e in second
    ensures Fold(edit, first, v) == Fold(edit, second, v)
  {
    AllAbsorbed(edit, second, first, v);
    AllAbsorbed(edit, first, second, v);
    RunsCommute(edit, first, first, second, v);
  }
}
