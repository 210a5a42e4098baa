/** The greedy "first group that accepts it, else a new group" clustering that
    the segmenter (`group_components`, `group_regions`) and the text detector
    (`group_components_into_lines`) all run. Items are visited in order; each
    joins the first existing group whose acceptance test passes and is
    appended to it, otherwise it opens a new group at the end. */
module Grouping {
  import opened Common

  /** All members of all groups, group after group. */
  function Flatten<T>(gs: seq<seq<T>>): seq<T>
  {
    if |gs| == 0 then [] else Flatten(gs[..|gs| - 1]) + gs[|gs| - 1]
  }

  /** Index of the first group accepting `x`, if any. */
  function FirstAccepting<T>(gs: seq<seq<T>>, x: T, accepts: (seq<T>, T) -> bool): (r: Option<nat>)
    ensures r.Some? ==> r.value < |gs| && accepts(gs[r.value], x)
    ensures r.Some? ==> forall k :: 0 <= k < r.value ==> !accepts(gs[k], x)
    ensures r.None? ==> forall k :: 0 <= k < |gs| ==> !accepts(gs[k], x)
  {
    if |gs| == 0 then None
    else if accepts(gs[0], x) then Some(0)
    else
      match FirstAccepting(gs[1..], x, accepts)
      case None => None
      case Some(j) => Some(j + 1)
  }

  /** Places one item: appended to the first accepting group, or alone in a new
      group at the end. */
  function Place<T>(gs: seq<seq<T>>, x: T, accepts: (seq<T>, T) -> bool): seq<seq<T>>
  {
    match FirstAccepting(gs, x, accepts)
    case Some(j) => gs[j := gs[j] + [x]]
    case None => gs + [[x]]
  }

  /** Groups `xs` in order. */
  function GroupAll<T>(xs: seq<T>, accepts: (seq<T>, T) -> bool): seq<seq<T>>
  {
    if |xs| == 0 then [] else Place(GroupAll(xs[..|xs| - 1], accepts), xs[|xs| - 1], accepts)
  }

  lemma {:induction false} FlattenUpdate<T>(gs: seq<seq<T>>, j: nat, g: seq<T>)
    requires j < |gs|
    ensures multiset(Flatten(gs[j := g])) == multiset(Flatten(gs)) - multiset(gs[j]) + multiset(g)
  {
    var n := |gs| - 1;
    if j == n {
      assert gs[j := g][..n] == gs[..n];
    } else {
      FlattenUpdate(gs[..n], j, g);
      assert gs[j := g][..n] == gs[..n][j := g];
      assert Flatten(gs[..n]) + gs[n] == Flatten(gs);
      assert multiset(Flatten(gs[..n])) >= multiset(gs[j]) by {
        FlattenContains(gs[..n], j);
      }
    }
  }

  lemma {:induction false} FlattenContains<T>(gs: seq<seq<T>>, j: nat)
    requires j < |gs|
    ensures multiset(Flatten(gs)) >= multiset(gs[j])
  {
    var n := |gs| - 1;
    if j < n {
      FlattenContains(gs[..n], j);
    }
  }

  lemma FlattenAppend<T>(gs: seq<seq<T>>, g: seq<T>)
    ensures Flatten(gs + [g]) == Flatten(gs) + g
  {
    assert (gs + [g])[..|gs + [g]| - 1] == gs;
  }

  /** Placing an item adds exactly that item to the members, keeps every
      group non-empty, and keeps or grows the number of groups by one. */
  lemma PlaceAddsItem<T>(gs: seq<seq<T>>, x: T, accepts: (seq<T>, T) -> bool)
    requires forall i :: 0 <= i < |gs| ==> |gs[i]| > 0
    ensures var r := Place(gs, x, accepts);
      && multiset(Flatten(r)) == multiset(Flatten(gs)) + multiset{x}
      && (forall i :: 0 <= i < |r| ==> |r[i]| > 0)
      && |gs| <= |r| <= |gs| + 1
  {
    match FirstAccepting(gs, x, accepts)
    case Some(j) =>
      JoinAddsItem(gs, j, x);
    case None =>
      FlattenAppend(gs, [x]);
  }

  /** Appending an item to group `j` adds exactly that item to the members. */
  lemma JoinAddsItem<T>(gs: seq<seq<T>>, j: nat, x: T)
    requires j < |gs|
    ensures multiset(Flatten(gs[j := gs[j] + [x]])) == multiset(Flatten(gs)) + multiset{x}
  {
    var g := gs[j] + [x];
    FlattenUpdate(gs, j, g);
    FlattenContains(gs, j);
    assert multiset(g) == multiset(gs[j]) + multiset{x};
  }

  /** Every item lands in exactly one group: the members of all groups are the
      input items, as a multiset, and no group is empty. */
  lemma {:induction false} GroupAllPartitions<T>(xs: seq<T>, accepts: (seq<T>, T) -> bool)
    ensures var r := GroupAll(xs, accepts);
      && multiset(Flatten(r)) == multiset(xs)
      && (forall i :: 0 <= i < |r| ==> |r[i]| > 0)
      && |r| <= |xs|
  {
    if |xs| > 0 {
      var n := |xs| - 1;
      var init := xs[..n];
      var gs := GroupAll(init, accepts);
      GroupAllPartitions(init, accepts);
      PlaceAddsItem(gs, xs[n], accepts);
      assert GroupAll(xs, accepts) == Place(gs, xs[n], accepts);
      MultisetOfSnoc(xs);
    }
  }

  lemma MultisetOfSnoc<T>(xs: seq<T>)
    requires |xs| > 0
    ensures multiset(xs) == multiset(xs[..|xs| - 1]) + multiset{xs[|xs| - 1]}
  {
    assert xs[..|xs| - 1] + [xs[|xs| - 1]] == xs;
  }

  /** A property of groups that holds for a one-item group and survives every
      accepted append holds for every group `GroupAll` builds. */
  lemma {:induction false} GroupAllInvariant<T>(xs: seq<T>, accepts: (seq<T>, T) -> bool, inv: seq<T> -> bool)
    requires forall x :: inv([x])
    requires forall g, x :: inv(g) && accepts(g, x) ==> inv(g + [x])
    ensures forall g :: g in GroupAll(xs, accepts) ==> inv(g)
  {
    if |xs| > 0 {
      var n := |xs| - 1;
      GroupAllInvariant(xs[..n], accepts, inv);
      var gs := GroupAll(xs[..n], accepts);
      assert GroupAll(xs, accepts) == Place(gs, xs[n], accepts);
      match FirstAccepting(gs, xs[n], accepts)
      case Some(j) =>
        assert inv(gs[j]) && accepts(gs[j], xs[n]);
        assert inv(gs[j] + [xs[n]]);
        var r := gs[j := gs[j] + [xs[n]]];
        assert Place(gs, xs[n], accepts) == r;
        assert forall g :: g in r ==> g in gs || g == gs[j] + [xs[n]];
      case None =>
        var r := gs + [[xs[n]]];
        assert inv([xs[n]]);
        assert Place(gs, xs[n], accepts) == r;
        assert forall g :: g in r ==> g in gs || g == [xs[n]];
    }
  }

  /** A group only grows at its end: the first member of a group never changes
      once the group exists, so it is the item that opened the group. */
  lemma PlaceKeepsHeads<T>(gs: seq<seq<T>>, x: T, accepts: (seq<T>, T) -> bool)
    requires forall i :: 0 <= i < |gs| ==> |gs[i]| > 0
    ensures var r := Place(gs, x, accepts);
      && (forall i :: 0 <= i < |gs| ==> |r[i]| > 0 && r[i][0] == gs[i][0])
      && (|r| == |gs| + 1 ==> r[|gs|] == [x])
  {
  }

  /** Greedy placement, seen from the whole run: the item that follows `xs`
      joins the first group built from `xs` that accepts it, passing over
      every earlier group and touching no other; only when no group accepts
      it does it open a new group at the end. */
  lemma GroupAllGreedy<T>(xs: seq<T>, x: T, accepts: (seq<T>, T) -> bool)
    ensures var gs := GroupAll(xs, accepts);
      var r := GroupAll(xs + [x], accepts);
      && (forall j: nat :: j < |gs| && accepts(gs[j], x) && (forall k :: 0 <= k < j ==> !accepts(gs[k], x)) ==>
            |r| == |gs| && r[j] == gs[j] + [x] && forall k :: 0 <= k < |gs| && k != j ==> r[k] == gs[k])
      && ((forall k :: 0 <= k < |gs| ==> !accepts(gs[k], x)) ==> r == gs + [[x]])
  {
    var gs := GroupAll(xs, accepts);
    assert (xs + [x])[..|xs|] == xs;
    assert GroupAll(xs + [x], accepts) == Place(gs, x, accepts);
    forall j: nat | j < |gs| && accepts(gs[j], x) && (forall k :: 0 <= k < j ==> !accepts(gs[k], x))
      ensures FirstAccepting(gs, x, accepts) == Some(j)
    {
      FirstAcceptingIsFirst(gs, x, accepts, j);
    }
  }

  /** The first accepting group is the one every earlier group refuses. */
  lemma FirstAcceptingIsFirst<T>(gs: seq<seq<T>>, x: T, accepts: (seq<T>, T) -> bool, j: nat)
    requires j < |gs| && accepts(gs[j], x)
    requires forall k :: 0 <= k < j ==> !accepts(gs[k], x)
    ensures FirstAccepting(gs, x, accepts) == Some(j)
  {
  }
}
