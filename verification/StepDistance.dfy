/** The order of the steps and their distance from the raw materials: when a post-order also lists the steps nearest
    to the raw materials first. */
module StepDistance {
  import opened Maps
  import opened Sums
  import opened Recipes
  import opened LevelWalk
  import opened Chains
  import opened ChainResolver
  import opened DepthGuard
  import opened StepOrder

  /** Some way of fewer than or exactly `n` edges leads from the step `t` down to a raw material. */
  predicate Within(g: Graph, t: TypeId, n: nat)
    decreases n
  {
    t in g && n > 0 && exists m :: m in g[t] && (m !in g || Within(g, m, n - 1))
  }

  /** The least distance of `a` from the raw materials is smaller than that of `b`. */
  ghost predicate Nearer(g: Graph, a: TypeId, b: TypeId) {
    exists n: nat :: Within(g, a, n) && !Within(g, b, n)
  }

  /** No step comes after one that is farther from the raw materials. */
  ghost predicate ByDistance(g: Graph, order: seq<TypeId>) {
    forall i, j :: 0 <= i < j < |order| ==> !Nearer(g, order[j], order[i])
  }

  /** Whatever is nearer to the raw materials than a step is among its components, direct or indirect. */
  ghost predicate NearerIsBelow(g: Graph) {
    forall s, t :: s in g && t in g && Nearer(g, t, s) ==> Reachable(g, s, t)
  }

  lemma BelowComesFirst(g: Graph, order: seq<TypeId>, i: nat, j: nat)
    requires NoDuplicates(order) && ComponentsFirst(g, order) && i < j < |order| && order[j] in g
    ensures !Reachable(g, order[i], order[j])
  {
    if Reachable(g, order[i], order[j]) {
      var w :| IsWalk(g, w) && w != [] && w[0] == order[i] && w[|w| - 1] == order[j];
      forall k | 0 <= k < |w|
        ensures w[k] in g
      {
        assert k < |w| - 1 ==> Edge(g, w[k], w[k + 1]);
      }
      if |w| > 1 {
        WalkMovesForward(g, order, w, i, |w| - 1);
      }
      assert false;
    }
  }

  lemma SortedWhenBelow(g: Graph, walk: DictOrder, target: TypeId)
    requires IsDictOrder(walk) && forall t :: t in g ==> Reachable(g, target, t)
    requires Acyclic(g) && NearerIsBelow(g)
    ensures ByDistance(g, PostOrder(g, walk, target))
  {
    hide Reachable, Acyclic, ComponentsFirst, NoDuplicates, PostOrder, IsDictOrder, Nearer;
    PostOrderPromises(g, walk, target);
    var order := PostOrder(g, walk, target);
    assert forall t :: t in order ==> t in g;
    forall i, j | 0 <= i < j < |order|
      ensures !Nearer(g, order[j], order[i])
    {
      assert order[i] in order && order[j] in order;
      BelowComesFirst(g, order, i, j);
    }
  }

  // Dicts walked so that a given path is taken first

  ghost function Listing(keys: set<TypeId>): (ts: seq<TypeId>)
    ensures NoDuplicates(ts) && forall m :: m in ts <==> m in keys
  {
    if keys == {} then [] else
      var x := Pick(keys);
      var rest := Listing(keys - {x});
      assert forall m :: m in [x] + rest <==> m == x || m in rest;
      [x] + rest
  }

  ghost function ListingFrom(first: TypeId, keys: set<TypeId>): (ts: seq<TypeId>)
    requires first in keys
    ensures NoDuplicates(ts) && ts != [] && ts[0] == first && forall m :: m in ts <==> m in keys
  {
    var rest := Listing(keys - {first});
    assert forall m :: m in [first] + rest <==> m == first || m in rest;
    [first] + rest
  }

  function Follower(p: seq<TypeId>, v: TypeId): seq<TypeId> {
    if |p| < 2 then [] else if p[0] == v then [p[1]] else Follower(p[1..], v)
  }

  lemma {:induction false} FollowerOn(p: seq<TypeId>, i: nat)
    requires i + 1 < |p| && NoDuplicates(p)
    ensures Follower(p, p[i]) == [p[i + 1]]
  {
    if i > 0 {
      forall j, k | 0 <= j < k < |p[1..]|
        ensures p[1..][j] != p[1..][k]
      {
        assert p[j + 1] != p[k + 1];
      }
      assert p[0] != p[i] && p[1..][i - 1] == p[i] && p[1..][i] == p[i + 1];
      FollowerOn(p[1..], i - 1);
    }
  }

  ghost function Along(p: seq<TypeId>): (walk: DictOrder) {
    (t, keys) =>
      var next := Follower(p, t);
      if next != [] && next[0] in keys then ListingFrom(next[0], keys) else Listing(keys)
  }

  lemma AlongIsDictOrder(p: seq<TypeId>)
    ensures IsDictOrder(Along(p))
  {
  }

  lemma AlongTakesPath(g: Graph, p: seq<TypeId>, i: nat)
    requires i + 1 < |p| && NoDuplicates(p) && IsWalk(g, p)
    ensures Edge(g, p[i], p[i + 1])
    ensures var ts := Along(p)(p[i], g[p[i]]); ts != [] && ts[0] == p[i + 1]
  {
    FollowerOn(p, i);
    assert Edge(g, p[i], p[i + 1]);
  }

  lemma RepeatCloses(g: Graph, w: seq<TypeId>, i: nat, j: nat)
    requires IsWalk(g, w) && i < j < |w| && w[i] == w[j]
    ensures ClosedWalk(g, w[i..j + 1])
  {
    var c := w[i..j + 1];
    forall k | 0 <= k < |c| - 1
      ensures Edge(g, c[k], c[k + 1])
    {
      assert Edge(g, w[i + k], w[i + k + 1]);
    }
  }

  /** A walk without a cycle passes each type once. */
  lemma AcyclicWalkIsSimple(g: Graph, w: seq<TypeId>)
    requires Acyclic(g) && IsWalk(g, w)
    ensures NoDuplicates(w)
  {
    forall i, j | 0 <= i < j < |w|
      ensures w[i] != w[j]
    {
      if w[i] == w[j] {
        RepeatCloses(g, w, i, j);
      }
    }
  }

  // What a visit appends is reachable from where it starts

  lemma ReachesOn(g: Graph, t: TypeId, m: TypeId, x: TypeId)
    requires Edge(g, t, m) && Reachable(g, m, x)
    ensures Reachable(g, t, x)
  {
    var w :| IsWalk(g, w) && w != [] && w[0] == m && w[|w| - 1] == x;
    var more := [t] + w;
    forall i | 0 <= i < |more| - 1
      ensures Edge(g, more[i], more[i + 1])
    {
      assert i > 0 ==> Edge(g, w[i - 1], w[i]);
    }
    assert more[|more| - 1] == x;
  }

  lemma ReachesItself(g: Graph, t: TypeId)
    ensures Reachable(g, t, t)
  {
    assert IsWalk(g, [t]) && [t][|[t]| - 1] == t;
  }

  lemma {:induction false} VisitAppends(g: Graph, walk: DictOrder, universe: set<TypeId>, t: TypeId, tr: Trail,
                                        x: TypeId)
    requires IsDictOrder(walk) && Closed(g, universe) && t in universe && tr.visited <= universe
    requires x !in tr.order && x in Visited(g, walk, universe, t, tr).order
    ensures Reachable(g, t, x)
    decreases |universe - tr.visited|, 0
  {
    hide IsDictOrder, Closed, Reachable;
    if t !in tr.visited && t in g {
      ReachesItself(g, t);
      OneLess(universe, tr.visited, t);
      WalkedKeys(g, walk, universe, t);
      if x != t {
        var entered := Trail(tr.visited + {t}, tr.order);
        assert x in VisitedAll(g, walk, universe, walk(t, g[t]), entered).order;
        var m := VisitAllAppends(g, walk, universe, walk(t, g[t]), entered, x);
        ReachesOn(g, t, m, x);
      }
    }
  }

  lemma {:induction false} VisitAllAppends(g: Graph, walk: DictOrder, universe: set<TypeId>, ts: seq<TypeId>,
                                           tr: Trail, x: TypeId)
    returns (m: TypeId)
    requires IsDictOrder(walk) && Closed(g, universe) && tr.visited <= universe
    requires forall m :: m in ts ==> m in universe
    requires x !in tr.order && x in VisitedAll(g, walk, universe, ts, tr).order
    ensures m in ts && Reachable(g, m, x)
    decreases |universe - tr.visited|, |ts| + 1
  {
    hide IsDictOrder, Closed, Reachable;
    var next := Visited(g, walk, universe, ts[0], tr);
    NotLarger(universe - next.visited, universe - tr.visited);
    if x in next.order {
      VisitAppends(g, walk, universe, ts[0], tr, x);
      m := ts[0];
    } else {
      m := VisitAllAppends(g, walk, universe, ts[1..], next, x);
    }
  }

  // Going straight to `s`, nothing that `s` does not reach is listed before it

  /** `s` is listed and `t` is not listed before it. */
  ghost predicate ListedWithout(order: seq<TypeId>, s: TypeId, t: TypeId) {
    exists k :: 0 <= k < |order| && order[k] == s && t !in order[..k + 1]
  }

  lemma ListedLonger(order: seq<TypeId>, longer: seq<TypeId>, s: TypeId, t: TypeId)
    requires order <= longer && ListedWithout(order, s, t)
    ensures ListedWithout(longer, s, t)
  {
    var k :| 0 <= k < |order| && order[k] == s && t !in order[..k + 1];
    assert longer[..k + 1] == order[..k + 1];
  }

  /** The visit of `s` itself lists what `s` reaches, and then `s`. */
  lemma VisitLists(g: Graph, walk: DictOrder, universe: set<TypeId>, s: TypeId, t: TypeId, visited: set<TypeId>)
    requires IsDictOrder(walk) && Closed(g, universe) && s in universe && visited <= universe
    requires s !in visited && s in g && !Reachable(g, s, t)
    ensures ListedWithout(Visited(g, walk, universe, s, Trail(visited, [])).order, s, t)
  {
    hide IsDictOrder, Closed, Reachable;
    var order := Visited(g, walk, universe, s, Trail(visited, [])).order;
    if t in order {
      VisitAppends(g, walk, universe, s, Trail(visited, []), t);
    }
    assert order[..|order| - 1 + 1] == order;
  }

  ghost function Before(p: seq<TypeId>, i: nat): set<TypeId>
    requires i <= |p|
  {
    set v | v in p[..i]
  }

  /** A visit begins with the visit of the first material. */
  lemma FirstMaterialFirst(g: Graph, walk: DictOrder, universe: set<TypeId>, v: TypeId, tr: Trail)
    requires IsDictOrder(walk) && Closed(g, universe) && v in universe && tr.visited <= universe
    requires v in g && v !in tr.visited && walk(v, g[v]) != []
    ensures walk(v, g[v])[0] in universe
    ensures Visited(g, walk, universe, walk(v, g[v])[0], Trail(tr.visited + {v}, tr.order)).order
         <= Visited(g, walk, universe, v, tr).order
  {
    hide IsDictOrder, Closed;
    WalkedKeys(g, walk, universe, v);
    var ts, entered := walk(v, g[v]), Trail(tr.visited + {v}, tr.order);
    var next := Visited(g, walk, universe, ts[0], entered);
    NotLarger(universe - next.visited, universe - entered.visited);
    assert VisitedAll(g, walk, universe, ts, entered) == VisitedAll(g, walk, universe, ts[1..], next);
  }

  lemma {:induction false} StraightThere(g: Graph, universe: set<TypeId>, p: seq<TypeId>, i: nat, t: TypeId)
    requires IsDictOrder(Along(p)) && Closed(g, universe) && i < |p| && Before(p, i) <= universe && p[i] in universe
    requires IsWalk(g, p) && NoDuplicates(p) && p[|p| - 1] in g && !Reachable(g, p[|p| - 1], t)
    ensures ListedWithout(Visited(g, Along(p), universe, p[i], Trail(Before(p, i), [])).order, p[|p| - 1], t)
    decreases |p| - i
  {
    hide IsDictOrder, Closed, Reachable, Along, ListedWithout, Visited, Before, IsWalk, NoDuplicates;
    var walk := Along(p);
    NotBefore(p, i);
    if i == |p| - 1 {
      VisitLists(g, walk, universe, p[i], t, Before(p, i));
    } else {
      AlongTakesPath(g, p, i);
      FirstMaterialFirst(g, walk, universe, p[i], Trail(Before(p, i), []));
      StraightThere(g, universe, p, i + 1, t);
      ListedLonger(Visited(g, walk, universe, p[i + 1], Trail(Before(p, i + 1), [])).order,
                   Visited(g, walk, universe, p[i], Trail(Before(p, i), [])).order, p[|p| - 1], t);
    }
  }

  lemma NotBefore(p: seq<TypeId>, i: nat)
    requires i < |p| && NoDuplicates(p)
    ensures p[i] !in Before(p, i) && Before(p, i + 1) == Before(p, i) + {p[i]}
  {
    assert p[..i + 1] == p[..i] + [p[i]];
  }

  lemma NotInFront(order: seq<TypeId>, k: nat, j: nat)
    requires k < |order| && j < |order| && order[j] !in order[..k + 1]
    ensures k < j
  {
    assert forall i :: 0 <= i <= k ==> order[..k + 1][i] == order[i];
  }

  /** A step that is farther away and does not reach a nearer one is listed before it by some order of the dicts. */
  lemma FartherFirst(g: Graph, target: TypeId, s: TypeId, t: TypeId) returns (walk: DictOrder)
    requires Acyclic(g) && forall x :: x in g ==> Reachable(g, target, x)
    requires s in g && t in g && Nearer(g, t, s) && !Reachable(g, s, t)
    ensures IsDictOrder(walk) && !ByDistance(g, PostOrder(g, walk, target))
  {
    hide Nearer, Acyclic, NoDuplicates, ComponentsFirst, IsDictOrder, Along, Universe;
    assert Reachable(g, target, s);
    var p :| IsWalk(g, p) && p != [] && p[0] == target && p[|p| - 1] == s;
    AcyclicWalkIsSimple(g, p);
    walk := Along(p);
    AlongIsDictOrder(p);
    UniverseCovers(g, target);
    assert Before(p, 0) == {};
    StraightThere(g, Universe(g, target), p, 0, t);
    PostOrderPromises(g, walk, target);
    var order := PostOrder(g, walk, target);
    var k :| 0 <= k < |order| && order[k] == s && t !in order[..k + 1];
    assert t in order;
    var j :| 0 <= j < |order| && order[j] == t;
    NotInFront(order, k, j);
  }

  /** For steps without a cycle: whatever the order of the dicts, the steps come by distance from the raw materials,
      if and only if whatever is nearer than a step is among its components. */
  lemma ByDistanceExactlyWhen(g: Graph, target: TypeId)
    requires Acyclic(g) && forall t :: t in g ==> Reachable(g, target, t)
    ensures (forall walk :: IsDictOrder(walk) ==> ByDistance(g, PostOrder(g, walk, target))) <==> NearerIsBelow(g)
  {
    hide Nearer, Acyclic, Reachable, IsDictOrder, PostOrder, ByDistance;
    if NearerIsBelow(g) {
      forall walk | IsDictOrder(walk)
        ensures ByDistance(g, PostOrder(g, walk, target))
      {
        SortedWhenBelow(g, walk, target);
      }
    } else {
      var s, t :| s in g && t in g && Nearer(g, t, s) && !Reachable(g, s, t);
      var walk := FartherFirst(g, target, s, t);
    }
  }

  // A request whose steps need not come by distance

  /** 1 is made of 2 and 3, 2 of 4; 3 and 4 are made of raw materials. */
  const UNEVEN: Request :=
    Request(map[1 := Blueprint(1, [Material(2, 1), Material(3, 1)]), 2 := Blueprint(1, [Material(4, 1)]),
                3 := Blueprint(1, [Material(98, 1)]), 4 := Blueprint(1, [Material(99, 1)])],
            1, 1, {2, 3, 4})

  const UNEVEN_STEPS: Graph := map[1 := {2, 3}, 2 := {4}, 3 := {98}, 4 := {99}]

  lemma ChainIsMet(rq: Request, c: seq<TypeId>)
    requires IsChain(rq, c) && |c| <= MAX_DEPTH
    ensures Met(rq, MAX_DEPTH, c[|c| - 1])
  {
    hide LevelAt;
    ChainReaches(rq, c, |c| - 1, c[|c| - 1]);
  }

  lemma OneLine(m: Material)
    ensures LineTypes([m]) == {m.typeId}
  {
    assert [m][0] == m;
  }

  lemma TwoLines(a: Material, b: Material)
    ensures LineTypes([a, b]) == {a.typeId, b.typeId}
  {
    assert [a, b][0] == a && [a, b][1] == b;
  }

  lemma UnevenIngredients(t: TypeId)
    ensures UNEVEN.Expands(t) <==> t in UNEVEN_STEPS
    ensures t in UNEVEN_STEPS ==> UNEVEN.Ingredients(t) == UNEVEN_STEPS[t]
  {
    hide LineTypes;
    TwoLines(Material(2, 1), Material(3, 1));
    OneLine(Material(4, 1));
    OneLine(Material(98, 1));
    OneLine(Material(99, 1));
  }

  lemma UnevenIsMet(t: TypeId)
    requires t in UNEVEN_STEPS
    ensures Met(UNEVEN, MAX_DEPTH, t)
  {
    hide Met, UNEVEN.Ingredients, UNEVEN.Expands;
    var c := if t == 1 then [1] else if t == 4 then [1, 2, 4] else [1, t];
    forall i | 0 <= i < |c| - 1
      ensures UNEVEN.Expands(c[i]) && c[i + 1] in UNEVEN.Ingredients(c[i])
    {
      UnevenIngredients(c[i]);
    }
    ChainIsMet(UNEVEN, c);
  }

  lemma UnevenSteps()
    ensures StepGraph(UNEVEN) == UNEVEN_STEPS
  {
    hide FinalSteps, Met, LevelAt, UNEVEN.Ingredients, UNEVEN.Expands;
    forall t
      ensures t in StepGraph(UNEVEN) <==> t in UNEVEN_STEPS
      ensures t in UNEVEN_STEPS ==> StepGraph(UNEVEN)[t] == UNEVEN_STEPS[t]
    {
      ResultKeys(UNEVEN, t);
      UnevenIngredients(t);
      if t in UNEVEN_STEPS {
        UnevenIsMet(t);
      }
    }
    SameMap(StepGraph(UNEVEN), UNEVEN_STEPS);
  }

  lemma UnevenIsAcyclic()
    ensures Acyclic(UNEVEN_STEPS)
  {
    var order := [4, 2, 3, 1];
    assert order[0] == 4 && order[1] == 2 && order[2] == 3 && order[3] == 1;
    assert order[..1] == [4] && order[..3] == [4, 2, 3];
    forall i, m | 0 <= i < |order| && Edge(UNEVEN_STEPS, order[i], m) && m in UNEVEN_STEPS
      ensures m in order[..i]
    {
    }
    ComponentsFirstNeedsAcyclic(UNEVEN_STEPS, order);
  }

  /** 3 uses a raw material directly and 2 does not, but 2 may be listed, after its component 4, before 3. */
  lemma FartherStepFirst() returns (walk: DictOrder)
    ensures IsDictOrder(walk)
    ensures !ByDistance(StepGraph(UNEVEN), PostOrder(StepGraph(UNEVEN), walk, UNEVEN.target))
    ensures Acyclic(StepGraph(UNEVEN)) && Nearer(StepGraph(UNEVEN), 3, 2)
  {
    hide FinalSteps, LevelAt, Acyclic, PostOrder, ByDistance, IsDictOrder;
    UnevenSteps();
    UnevenIsAcyclic();
    StepsReachable(UNEVEN);
    assert 98 in UNEVEN_STEPS[3] && Within(UNEVEN_STEPS, 3, 1);
    assert !Within(UNEVEN_STEPS, 2, 1);
    OnlyOneBelow();
    walk := FartherFirst(UNEVEN_STEPS, 1, 2, 3);
  }

  lemma OnlyOneBelow()
    ensures !Reachable(UNEVEN_STEPS, 2, 3)
  {
    if Reachable(UNEVEN_STEPS, 2, 3) {
      var w :| IsWalk(UNEVEN_STEPS, w) && w != [] && w[0] == 2 && w[|w| - 1] == 3;
      StaysBelow(w, |w| - 1);
    }
  }

  lemma {:induction false} StaysBelow(w: seq<TypeId>, i: nat)
    requires IsWalk(UNEVEN_STEPS, w) && i < |w| && w[0] == 2
    ensures w[i] in {2, 4, 99}
  {
    if i > 0 {
      StaysBelow(w, i - 1);
      assert Edge(UNEVEN_STEPS, w[i - 1], w[i]);
    }
  }
}
