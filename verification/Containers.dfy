/** `resolve_container_chain`: following containers to the place they are in, with a cycle guard. */
module Containers {

  datatype Asset = Asset(itemId: int, typeId: int, locationId: int, locationType: string, quantity: int)

  type Assets = map<int, Asset>

  /** `l` is an item sitting in another item. */
  predicate Link(assets: Assets, l: int) {
    l in assets && assets[l].locationType == "item"
  }

  function Follow(assets: Assets, l: int): int {
    if l in assets then assets[l].locationId else l
  }

  /** The `k`-th location of the chain from `l`. */
  function Chain(assets: Assets, l: int, k: nat): int {
    if k == 0 then l else Follow(assets, Chain(assets, l, k - 1))
  }

  predicate LinksBefore(assets: Assets, l: int, k: nat) {
    forall i: nat :: i < k ==> Link(assets, Chain(assets, l, i))
  }

  /** The chain from `l` leaves the containers at its `k`-th location. */
  predicate LeavesAt(assets: Assets, l: int, k: nat) {
    LinksBefore(assets, l, k) && !Link(assets, Chain(assets, l, k))
  }

  ghost predicate Endless(assets: Assets, l: int) {
    forall k: nat :: Link(assets, Chain(assets, l, k))
  }

  ghost predicate OnCycle(assets: Assets, l: int) {
    exists p: nat :: 1 <= p && Chain(assets, l, p) == l
  }

  /** The first location of the chain that lies on a cycle. */
  ghost predicate CycleEntry(assets: Assets, l: int, r: int) {
    exists j: nat ::
      && Chain(assets, l, j) == r && OnCycle(assets, r)
      && forall i: nat :: i < j ==> !OnCycle(assets, Chain(assets, l, i))
  }

  /** The recursive reading: a container is where its container is. */
  function Root(assets: Assets, l: int, depth: nat): int
    requires LeavesAt(assets, l, depth)
    decreases depth
  {
    if depth == 0 then Follow(assets, l)
    else
      LeavesShift(assets, l, depth);
      Root(assets, assets[l].locationId, depth - 1)
  }

  lemma {:induction false} ChainShift(assets: Assets, l: int, i: nat, k: nat)
    ensures Chain(assets, Chain(assets, l, i), k) == Chain(assets, l, i + k)
    decreases k
  {
    if k > 0 {
      ChainShift(assets, l, i, k - 1);
    }
  }

  lemma LeavesShift(assets: Assets, l: int, depth: nat)
    requires LeavesAt(assets, l, depth) && 0 < depth
    ensures l in assets && LeavesAt(assets, assets[l].locationId, depth - 1)
  {
    assert Link(assets, Chain(assets, l, 0));
    assert Chain(assets, l, 1) == Follow(assets, Chain(assets, l, 0));
    forall k: nat
      ensures Chain(assets, assets[l].locationId, k) == Chain(assets, l, k + 1)
    {
      ChainShift(assets, l, 1, k);
    }
  }

  lemma {:induction false} RootIsWhereItLeaves(assets: Assets, l: int, depth: nat)
    requires LeavesAt(assets, l, depth)
    ensures Root(assets, l, depth) == Follow(assets, Chain(assets, l, depth))
    decreases depth
  {
    if depth > 0 {
      LeavesShift(assets, l, depth);
      RootIsWhereItLeaves(assets, assets[l].locationId, depth - 1);
      assert Chain(assets, l, 1) == Follow(assets, Chain(assets, l, 0));
      ChainShift(assets, l, 1, depth - 1);
    }
  }

  // A chain that meets itself

  /** After meeting its `j`-th location again, the chain only repeats. */
  lemma {:induction false} Repeats(assets: Assets, l: int, j: nat, n: nat, k: nat) returns (m: nat)
    requires j < n && Chain(assets, l, n) == Chain(assets, l, j) && j <= k
    ensures j <= m < n && Chain(assets, l, k) == Chain(assets, l, m)
    decreases k
  {
    if k < n {
      m := k;
    } else {
      ChainShift(assets, l, n, k - n);
      ChainShift(assets, l, j, k - n);
      m := Repeats(assets, l, j, n, j + (k - n));
    }
  }

  ghost predicate DistinctUpTo(assets: Assets, l: int, n: nat) {
    forall i: nat, k: nat :: i < k < n ==> Chain(assets, l, i) != Chain(assets, l, k)
  }

  /** The first repetition is the entry of the cycle. */
  lemma MeetsItself(assets: Assets, l: int, j: nat, n: nat)
    requires j < n && Chain(assets, l, n) == Chain(assets, l, j)
    requires DistinctUpTo(assets, l, n) && LinksBefore(assets, l, n)
    ensures CycleEntry(assets, l, Chain(assets, l, j)) && Endless(assets, l)
  {
    ChainShift(assets, l, j, n - j);
    assert OnCycle(assets, Chain(assets, l, j));
    forall i: nat | i < j
      ensures !OnCycle(assets, Chain(assets, l, i))
    {
      NotYetOnCycle(assets, l, j, n, i);
    }
    forall k: nat
      ensures Link(assets, Chain(assets, l, k))
    {
      if n <= k {
        var m := Repeats(assets, l, j, n, k);
      }
    }
  }

  lemma NotYetOnCycle(assets: Assets, l: int, j: nat, n: nat, i: nat)
    requires i < j < n && Chain(assets, l, n) == Chain(assets, l, j) && DistinctUpTo(assets, l, n)
    ensures !OnCycle(assets, Chain(assets, l, i))
  {
    forall p: nat | 1 <= p
      ensures Chain(assets, Chain(assets, l, i), p) != Chain(assets, l, i)
    {
      ChainShift(assets, l, i, p);
      if n <= i + p {
        var m := Repeats(assets, l, j, n, i + p);
        assert Chain(assets, l, i) != Chain(assets, l, m);
      }
    }
  }

  /** A chain has one cycle entry at most. */
  lemma OneCycleEntry(assets: Assets, l: int, a: int, b: int)
    requires CycleEntry(assets, l, a) && CycleEntry(assets, l, b)
    ensures a == b
  {
    var i: nat :| Chain(assets, l, i) == a && OnCycle(assets, a) &&
                  forall k: nat :: k < i ==> !OnCycle(assets, Chain(assets, l, k));
    var j: nat :| Chain(assets, l, j) == b && OnCycle(assets, b) &&
                  forall k: nat :: k < j ==> !OnCycle(assets, Chain(assets, l, k));
    assert !(i < j) && !(j < i);
  }

  // The walk

  /** What the walk returns, as a function: later loops group by it. */
  ghost function Resolved(assets: Assets, l: int): int {
    if exists k :: LeavesAt(assets, l, k) then
      var k :| LeavesAt(assets, l, k);
      Follow(assets, Chain(assets, l, k))
    else if exists r :: CycleEntry(assets, l, r) then
      var r :| CycleEntry(assets, l, r); r
    else l
  }

  lemma LeavesOnce(assets: Assets, l: int, j: nat, k: nat)
    requires LeavesAt(assets, l, j) && LeavesAt(assets, l, k)
    ensures j == k
  {
  }

  lemma ResolvedWhenLeaving(assets: Assets, l: int, k: nat)
    requires LeavesAt(assets, l, k)
    ensures Resolved(assets, l) == Follow(assets, Chain(assets, l, k)) == Root(assets, l, k)
  {
    var j :| LeavesAt(assets, l, j) && Resolved(assets, l) == Follow(assets, Chain(assets, l, j));
    LeavesOnce(assets, l, j, k);
    RootIsWhereItLeaves(assets, l, k);
  }

  lemma ResolvedWhenEndless(assets: Assets, l: int, r: int)
    requires Endless(assets, l) && CycleEntry(assets, l, r)
    ensures Resolved(assets, l) == r
  {
    assert !exists k :: LeavesAt(assets, l, k);
    OneCycleEntry(assets, l, Resolved(assets, l), r);
  }

  /** Each item of the path sits in another item, which comes next, and none comes twice. */
  ghost predicate IsChainOfItems(assets: Assets, p: seq<int>) {
    && 0 < |p|
    && (forall i :: 0 <= i < |p| - 1 ==>
          p[i] in assets && assets[p[i]].locationType == "item" && assets[p[i]].locationId == p[i + 1])
    && forall i, j :: 0 <= i < j < |p| - 1 ==> p[i] != p[j]
  }

  /** The path is over: at a place that is no asset, at an asset that sits in no other, or back at an
      item it has passed. */
  ghost predicate IsEndOf(assets: Assets, p: seq<int>, r: int)
    requires 0 < |p|
  {
    var last := p[|p| - 1];
    if last !in assets then r == last
    else if last in p[..|p| - 1] then r == last
    else assets[last].locationType != "item" && r == assets[last].locationId
  }

  ghost predicate IsWalk(assets: Assets, l: int, p: seq<int>, r: int) {
    IsChainOfItems(assets, p) && p[0] == l && IsEndOf(assets, p, r)
  }

  /** The walk from `l` comes out at `r`. */
  ghost predicate ComesOutAt(assets: Assets, l: int, r: int) {
    exists p :: IsWalk(assets, l, p, r)
  }

  lemma {:induction false} WalkIsChain(assets: Assets, p: seq<int>, i: nat)
    requires IsChainOfItems(assets, p) && i < |p|
    ensures p[i] == Chain(assets, p[0], i)
    ensures i < |p| - 1 ==> Link(assets, Chain(assets, p[0], i))
    decreases i
  {
    if i > 0 {
      WalkIsChain(assets, p, i - 1);
    }
  }

  lemma WalkEnds(assets: Assets, l: int, p: seq<int>, r: int)
    requires IsWalk(assets, l, p, r)
    ensures r == Resolved(assets, l)
  {
    hide Chain, Resolved, Root, CycleEntry, Endless, OnCycle;
    var n := |p| - 1;
    forall i: nat | i <= n
      ensures p[i] == Chain(assets, l, i) && (i < n ==> Link(assets, Chain(assets, l, i)))
    {
      WalkIsChain(assets, p, i);
    }
    if p[n] in assets && p[n] in p[..n] {
      var j :| 0 <= j < n && p[j] == p[n];
      MeetsItself(assets, l, j, n);
      ResolvedWhenEndless(assets, l, r);
    } else {
      assert LeavesAt(assets, l, n);
      ResolvedWhenLeaving(assets, l, n);
    }
  }

  lemma StopsHere(assets: Assets, front: seq<int>, last: int)
    requires IsChainOfItems(assets, front + [last])
    requires last in assets && last !in front ==> assets[last].locationType != "item"
    ensures exists r :: IsWalk(assets, (front + [last])[0], front + [last], r)
  {
    var p := front + [last];
    var r := if last !in assets || last in front then last else assets[last].locationId;
    assert p[..|p| - 1] == front;
    assert IsWalk(assets, p[0], p, r);
  }

  lemma OneFurther(assets: Assets, front: seq<int>, last: int)
    requires IsChainOfItems(assets, front + [last])
    requires last !in front && last in assets && assets[last].locationType == "item"
    ensures IsChainOfItems(assets, front + [last] + [assets[last].locationId])
  {
  }

  /** The path so far can be finished. */
  lemma {:induction false} WalkGoesOn(assets: Assets, l: int, front: seq<int>, last: int, passed: set<int>)
    requires var p := front + [last]; IsChainOfItems(assets, p) && p[0] == l
    requires passed <= assets.Keys && forall x :: x in passed <==> x in front
    ensures exists r :: ComesOutAt(assets, l, r)
    decreases assets.Keys - passed
  {
    hide IsChainOfItems, IsWalk;
    if last in assets && last !in passed && assets[last].locationType == "item" {
      assert last in assets.Keys - passed;
      OneFurther(assets, front, last);
      WalkGoesOn(assets, l, front + [last], assets[last].locationId, passed + {last});
    } else {
      StopsHere(assets, front, last);
      var r :| IsWalk(assets, l, front + [last], r);
      assert ComesOutAt(assets, l, r);
    }
  }

  /** Every walk comes out at one place, and `Resolved` is that place. */
  lemma ComesOutOnce(assets: Assets, l: int, r: int)
    ensures ComesOutAt(assets, l, r) <==> r == Resolved(assets, l)
  {
    hide IsWalk, Resolved;
    if ComesOutAt(assets, l, r) {
      var p :| IsWalk(assets, l, p, r);
      WalkEnds(assets, l, p, r);
    }
    if r == Resolved(assets, l) {
      WalkGoesOn(assets, l, [], l, {});
      var out :| ComesOutAt(assets, l, out);
      var p :| IsWalk(assets, l, p, out);
      WalkEnds(assets, l, p, out);
    }
  }

  /** The walk ends. Out of the containers it returns the recursive root; on a cycle, the location
      where the chain enters the cycle. */
  method ResolveContainerChain(locationId: int, assets: Assets) returns (r: int)
    ensures r == Resolved(assets, locationId)
    ensures forall k :: LeavesAt(assets, locationId, k) ==> r == Root(assets, locationId, k)
    ensures Endless(assets, locationId) ==> CycleEntry(assets, locationId, r)
    ensures ComesOutAt(assets, locationId, r)
  {
    ComesOutOnce(assets, locationId, Resolved(assets, locationId));
    var current := locationId;
    var visited: set<int> := {};
    ghost var n: nat := 0;
    while current in assets && current !in visited
      invariant current == Chain(assets, locationId, n)
      invariant LinksBefore(assets, locationId, n) && DistinctUpTo(assets, locationId, n)
      invariant visited <= assets.Keys
      invariant forall x :: x in visited <==> exists i: nat :: i < n && x == Chain(assets, locationId, i)
      decreases assets.Keys - visited
    {
      assert current in assets.Keys - visited;
      visited := visited + {current};
      var asset := assets[current];
      if asset.locationType != "item" {
        LeftAt(assets, locationId, n);
        return asset.locationId;
      }
      current := asset.locationId;
      n := n + 1;
    }
    if current !in assets {
      LeftAt(assets, locationId, n);
      return current;
    }
    ghost var i: nat :| i < n && current == Chain(assets, locationId, i);
    MeetsItself(assets, locationId, i, n);
    ResolvedWhenEndless(assets, locationId, current);
    r := current;
  }

  lemma LeftAt(assets: Assets, l: int, n: nat)
    requires LeavesAt(assets, l, n)
    ensures Resolved(assets, l) == Follow(assets, Chain(assets, l, n))
    ensures forall k :: LeavesAt(assets, l, k) ==> Resolved(assets, l) == Root(assets, l, k)
    ensures !Endless(assets, l)
  {
    ResolvedWhenLeaving(assets, l, n);
    forall k | LeavesAt(assets, l, k)
      ensures Resolved(assets, l) == Root(assets, l, k)
    {
      ResolvedWhenLeaving(assets, l, k);
    }
  }
}
