/** `_topological_order`: a depth-first post-order of the steps, and the order it promises. */
module StepOrder {
  import opened Sums
  import opened Recipes
  import opened LevelWalk
  import opened Chains
  import opened ChainResolver
  import opened DepthGuard

  /** The steps as a graph: each step points to its materials. */
  type Graph = map<TypeId, set<TypeId>>

  predicate Edge(g: Graph, s: TypeId, t: TypeId) {
    s in g && t in g[s]
  }

  predicate IsWalk(g: Graph, w: seq<TypeId>) {
    forall i :: 0 <= i < |w| - 1 ==> Edge(g, w[i], w[i + 1])
  }

  predicate ClosedWalk(g: Graph, w: seq<TypeId>) {
    2 <= |w| && IsWalk(g, w) && w[0] == w[|w| - 1]
  }

  ghost predicate Acyclic(g: Graph) {
    forall w :: !ClosedWalk(g, w)
  }

  /** Every component that is itself a step comes before the step that consumes it. */
  predicate ComponentsFirst(g: Graph, order: seq<TypeId>) {
    forall i, m :: 0 <= i < |order| && Edge(g, order[i], m) && m in g ==> m in order[..i]
  }

  predicate NoDuplicates(order: seq<TypeId>) {
    forall i, j :: 0 <= i < j < |order| ==> order[i] != order[j]
  }

  ghost predicate Describes(steps: map<TypeId, BuildStep>, g: Graph)
    reads steps.Values
  {
    && steps.Keys == g.Keys
    && forall t :: t in steps ==> steps[t].typeId == t && steps[t].materials.Keys == g[t]
  }

  /** The order in which the materials dict of a step is walked. */
  type DictOrder = (TypeId, set<TypeId>) -> seq<TypeId>

  ghost predicate IsDictOrder(walk: DictOrder) {
    forall t, keys :: NoDuplicates(walk(t, keys)) && forall m :: m in walk(t, keys) <==> m in keys
  }

  // The state of the traversal, with `path` the types whose visit has not returned yet

  ghost predicate Traversal(g: Graph, path: seq<TypeId>, visited: set<TypeId>, order: seq<TypeId>) {
    && IsWalk(g, path)
    && NoDuplicates(order)
    && (forall p :: p in path ==> p in visited && p in g && p !in order)
    && (forall s :: s in order ==> s in visited && s in g)
    && (forall v :: v in visited && v in g ==> v in order || v in path)
    && (forall s, m :: s in order && Edge(g, s, m) ==> m in visited)
    && (Acyclic(g) ==> ComponentsFirst(g, order))
  }

  lemma EnterStep(g: Graph, path: seq<TypeId>, visited: set<TypeId>, order: seq<TypeId>, t: TypeId)
    requires Traversal(g, path, visited, order) && t !in visited && t in g
    requires path == [] || Edge(g, path[|path| - 1], t)
    ensures Traversal(g, path + [t], visited + {t}, order) && t !in path
  {
    var path' := path + [t];
    forall i | 0 <= i < |path'| - 1
      ensures Edge(g, path'[i], path'[i + 1])
    {
    }
  }

  lemma VisitNonStep(g: Graph, path: seq<TypeId>, visited: set<TypeId>, order: seq<TypeId>, t: TypeId)
    requires Traversal(g, path, visited, order) && t !in g
    ensures Traversal(g, path, visited + {t}, order)
  {
  }

  lemma LeaveStep(g: Graph, path: seq<TypeId>, visited: set<TypeId>, order: seq<TypeId>, t: TypeId)
    requires Traversal(g, path + [t], visited, order) && t !in path
    requires forall m :: Edge(g, t, m) ==> m in visited
    ensures Traversal(g, path, visited, order + [t])
  {
    var path', order' := path + [t], order + [t];
    assert path'[|path|] == t && t in path';
    forall i | 0 <= i < |path| - 1
      ensures Edge(g, path[i], path[i + 1])
    {
      assert Edge(g, path'[i], path'[i + 1]);
    }
    forall p | p in path
      ensures p in path' && p !in order'
    {
    }
    if Acyclic(g) {
      forall i, m | 0 <= i < |order'| && Edge(g, order'[i], m) && m in g
        ensures m in order'[..i]
      {
        if i < |order| {
          assert order'[..i] == order[..i];
        } else {
          assert order'[..i] == order;
          if m in path' {
            BackEdgeCloses(g, path', m);
          }
        }
      }
    }
  }

  /** An edge from the end of a walk back into it closes a cycle. */
  lemma BackEdgeCloses(g: Graph, w: seq<TypeId>, m: TypeId)
    requires IsWalk(g, w) && w != [] && m in w && Edge(g, w[|w| - 1], m)
    ensures !Acyclic(g)
  {
    var i :| 0 <= i < |w| && w[i] == m;
    var closed := w[i..] + [m];
    forall j | 0 <= j < |closed| - 1
      ensures Edge(g, closed[j], closed[j + 1])
    {
      if j < |w| - i - 1 {
        assert closed[j] == w[i + j] && closed[j + 1] == w[i + j + 1];
      }
    }
    assert ClosedWalk(g, closed);
  }

  // The traversal, for a given order of every dict

  /** The `visited` set and the steps appended so far. */
  datatype Trail = Trail(visited: set<TypeId>, order: seq<TypeId>)

  ghost predicate Closed(g: Graph, universe: set<TypeId>) {
    forall s, m :: Edge(g, s, m) ==> m in universe
  }

  ghost function Visited(g: Graph, walk: DictOrder, universe: set<TypeId>, t: TypeId, tr: Trail): (r: Trail)
    requires IsDictOrder(walk) && Closed(g, universe) && t in universe && tr.visited <= universe
    ensures tr.visited <= r.visited <= universe && t in r.visited && tr.order <= r.order
    ensures t in g && t !in tr.visited ==> r.order != [] && r.order[|r.order| - 1] == t
    decreases |universe - tr.visited|, 0
  {
    if t in tr.visited then tr
    else
      var entered := Trail(tr.visited + {t}, tr.order);
      if t !in g then entered
      else
        OneLess(universe, tr.visited, t);
        assert forall m :: m in walk(t, g[t]) ==> Edge(g, t, m);
        var left := VisitedAll(g, walk, universe, walk(t, g[t]), entered);
        Trail(left.visited, left.order + [t])
  }

  ghost function VisitedAll(g: Graph, walk: DictOrder, universe: set<TypeId>, ts: seq<TypeId>, tr: Trail): (r: Trail)
    requires IsDictOrder(walk) && Closed(g, universe) && tr.visited <= universe
    requires forall m :: m in ts ==> m in universe
    ensures tr.visited <= r.visited <= universe && tr.order <= r.order
    ensures forall m :: m in ts ==> m in r.visited
    decreases |universe - tr.visited|, |ts| + 1
  {
    if ts == [] then tr
    else
      var next := Visited(g, walk, universe, ts[0], tr);
      NotLarger(universe - next.visited, universe - tr.visited);
      VisitedAll(g, walk, universe, ts[1..], next)
  }

  lemma OneLess(universe: set<TypeId>, visited: set<TypeId>, t: TypeId)
    requires t in universe && t !in visited
    ensures |universe - (visited + {t})| < |universe - visited|
  {
    assert t in universe - visited && t !in universe - (visited + {t});
    assert universe - (visited + {t}) < universe - visited;
    SmallerSet(universe - (visited + {t}), universe - visited);
  }

  lemma SmallerSet(a: set<TypeId>, b: set<TypeId>)
    requires a < b
    ensures |a| < |b|
  {
    HasElement(b - a);
    var x :| x in b - a;
    NotLarger(a, b - {x});
  }

  lemma {:induction false} NotLarger(a: set<TypeId>, b: set<TypeId>)
    requires a <= b
    ensures |a| <= |b|
    decreases |a|
  {
    if a != {} {
      var x := Pick(a);
      NotLarger(a - {x}, b - {x});
    }
  }

  /** Visiting a type keeps the traversal in order. */
  lemma {:induction false} VisitKeeps(g: Graph, walk: DictOrder, universe: set<TypeId>, t: TypeId, path: seq<TypeId>,
                                      tr: Trail)
    requires IsDictOrder(walk) && Closed(g, universe) && t in universe && tr.visited <= universe
    requires Traversal(g, path, tr.visited, tr.order)
    requires path == [] || Edge(g, path[|path| - 1], t)
    ensures var r := Visited(g, walk, universe, t, tr); Traversal(g, path, r.visited, r.order)
    decreases |universe - tr.visited|, 0
  {
    hide Traversal, IsDictOrder, Closed;
    if t !in tr.visited {
      if t !in g {
        VisitNonStep(g, path, tr.visited, tr.order, t);
      } else {
        var entered := Trail(tr.visited + {t}, tr.order);
        OneLess(universe, tr.visited, t);
        EnterStep(g, path, tr.visited, tr.order, t);
        WalkedKeys(g, walk, universe, t);
        VisitAllKeeps(g, walk, universe, t, walk(t, g[t]), path, entered);
        var left := VisitedAll(g, walk, universe, walk(t, g[t]), entered);
        LeaveStep(g, path, left.visited, left.order, t);
      }
    }
  }

  lemma WalkedKeys(g: Graph, walk: DictOrder, universe: set<TypeId>, t: TypeId)
    requires IsDictOrder(walk) && Closed(g, universe) && t in g
    ensures forall m :: m in walk(t, g[t]) <==> Edge(g, t, m)
    ensures forall m :: m in walk(t, g[t]) ==> m in universe
  {
    assert forall m :: m in walk(t, g[t]) ==> Edge(g, t, m);
  }

  lemma {:induction false} VisitAllKeeps(g: Graph, walk: DictOrder, universe: set<TypeId>, t: TypeId, ts: seq<TypeId>,
                                         path: seq<TypeId>, tr: Trail)
    requires IsDictOrder(walk) && Closed(g, universe) && tr.visited <= universe
    requires forall m :: m in ts ==> m in universe && Edge(g, t, m)
    requires Traversal(g, path + [t], tr.visited, tr.order)
    ensures var r := VisitedAll(g, walk, universe, ts, tr); Traversal(g, path + [t], r.visited, r.order)
    decreases |universe - tr.visited|, |ts| + 1
  {
    hide Traversal, IsDictOrder, Closed;
    if ts != [] {
      assert (path + [t])[|path|] == t;
      VisitKeeps(g, walk, universe, ts[0], path + [t], tr);
      var next := Visited(g, walk, universe, ts[0], tr);
      NotLarger(universe - next.visited, universe - tr.visited);
      VisitAllKeeps(g, walk, universe, t, ts[1..], path, next);
    }
  }

  class StepSorter {
    const steps: map<TypeId, BuildStep>
    const walk: DictOrder
    ghost const graph: Graph
    ghost const universe: set<TypeId>
    var visited: set<TypeId>
    var ordered: seq<BuildStep>
    ghost var order: seq<TypeId>

    constructor (steps: map<TypeId, BuildStep>, walk: DictOrder, ghost graph: Graph, ghost universe: set<TypeId>)
      ensures this.steps == steps && this.walk == walk && this.graph == graph && this.universe == universe
      ensures visited == {} && ordered == [] && order == []
    {
      this.steps, this.walk, this.graph, this.universe := steps, walk, graph, universe;
      visited, ordered, order := {}, [], [];
    }

    /** `order` names the steps of `ordered`; nothing outside the universe is visited. */
    ghost predicate Valid()
      reads this, steps.Values
    {
      && Describes(steps, graph)
      && IsDictOrder(walk)
      && Closed(graph, universe)
      && visited <= universe
      && |ordered| == |order|
      && forall i :: 0 <= i < |order| ==> order[i] in steps && ordered[i] == steps[order[i]]
    }

    ghost function State(): Trail
      reads this
    {
      Trail(visited, order)
    }

    method Visit(t: TypeId)
      requires Valid() && t in universe
      modifies this
      ensures Valid() && State() == Visited(graph, walk, universe, t, old(State()))
      ensures t in visited && old(visited) <= visited && old(order) <= order
      ensures t in graph && t !in old(visited) ==> order != [] && order[|order| - 1] == t
      decreases |universe - visited|, 0
    {
      hide IsDictOrder, Closed;
      if t in visited {
        return;
      }
      OneLess(universe, visited, t);
      visited := visited + {t};
      if t !in steps {
        return;
      }
      VisitMaterials(t);
      ordered := ordered + [steps[t]];
      order := order + [t];
    }

    /** The loop over `step.materials`. */
    method VisitMaterials(t: TypeId)
      requires Valid() && t in graph
      modifies this
      ensures Valid() && forall m :: m in walk(t, graph[t]) ==> m in universe
      ensures State() == VisitedAll(graph, walk, universe, walk(t, graph[t]), old(State()))
      decreases |universe - visited|, 1
    {
      hide IsDictOrder, Closed;
      ghost var start := State();
      var materials := walk(t, steps[t].materials.Keys);
      WalkedKeys(graph, walk, universe, t);
      var i := 0;
      while i < |materials|
        invariant 0 <= i <= |materials|
        invariant Valid() && old(visited) <= visited
        invariant VisitedAll(graph, walk, universe, materials, start)
               == VisitedAll(graph, walk, universe, materials[i..], State())
      {
        assert materials[i..][0] == materials[i] && materials[i..][1..] == materials[i + 1..];
        NotLarger(universe - visited, universe - old(visited));
        Visit(materials[i]);
        i := i + 1;
      }
      assert materials[i..] == [];
    }
  }

  // The finished order

  ghost predicate Reachable(g: Graph, target: TypeId, t: TypeId) {
    exists w :: IsWalk(g, w) && w != [] && w[0] == target && w[|w| - 1] == t
  }

  lemma {:induction false} WalkIsVisited(g: Graph, visited: set<TypeId>, order: seq<TypeId>, w: seq<TypeId>)
    requires Traversal(g, [], visited, order)
    requires IsWalk(g, w) && w != [] && w[0] in visited
    ensures w[|w| - 1] in visited
    decreases |w|
  {
    if |w| > 1 {
      assert Edge(g, w[0], w[1]);
      forall i | 0 <= i < |w[1..]| - 1
        ensures Edge(g, w[1..][i], w[1..][i + 1])
      {
        assert Edge(g, w[i + 1], w[i + 2]);
      }
      WalkIsVisited(g, visited, order, w[1..]);
    }
  }

  /** Along a walk, a components-first order only moves towards its front. */
  lemma {:induction false} WalkMovesForward(g: Graph, order: seq<TypeId>, w: seq<TypeId>, k: nat, i: nat)
    requires ComponentsFirst(g, order) && IsWalk(g, w)
    requires k < |order| && 1 <= i < |w| && w[0] == order[k]
    requires forall j :: 0 <= j < |w| ==> w[j] in g
    ensures w[i] in order[..k]
  {
    assert Edge(g, w[i - 1], w[i]);
    if i > 1 {
      WalkMovesForward(g, order, w, k, i - 1);
      var j :| 0 <= j < k && order[j] == w[i - 1];
      assert w[i] in order[..j];
      assert order[..j] <= order[..k];
    } else {
      assert Edge(g, order[k], w[i]);
    }
  }

  lemma ClosedWalkStays(g: Graph, w: seq<TypeId>)
    requires ClosedWalk(g, w)
    ensures forall j :: 0 <= j < |w| ==> w[j] in g
  {
    forall j | 0 <= j < |w|
      ensures w[j] in g
    {
      if j < |w| - 1 {
        assert Edge(g, w[j], w[j + 1]);
      } else {
        assert Edge(g, w[0], w[1]);
      }
    }
  }

  /** An order of all the steps with components first exists only for acyclic steps. */
  lemma ComponentsFirstNeedsAcyclic(g: Graph, order: seq<TypeId>)
    requires NoDuplicates(order) && (forall t :: t in g ==> t in order)
    requires ComponentsFirst(g, order)
    ensures Acyclic(g)
  {
    forall w
      ensures !ClosedWalk(g, w)
    {
      if ClosedWalk(g, w) {
        ClosedWalkStays(g, w);
        assert w[0] in g;
        var k :| 0 <= k < |order| && order[k] == w[0];
        WalkMovesForward(g, order, w, k, |w| - 1);
        assert false;
      }
    }
  }

  /** Everything a visit can reach. */
  ghost function Universe(g: Graph, target: TypeId): set<TypeId> {
    {target} + (set s, m | s in g && m in g[s] :: m)
  }

  lemma UniverseCovers(g: Graph, target: TypeId)
    ensures target in Universe(g, target) && Closed(g, Universe(g, target))
  {
  }

  lemma TraversalStarts(g: Graph)
    ensures Traversal(g, [], {}, [])
  {
  }

  lemma FinishedOrder(g: Graph, visited: set<TypeId>, order: seq<TypeId>, target: TypeId)
    requires Traversal(g, [], visited, order) && target in visited
    requires forall t :: t in g ==> Reachable(g, target, t)
    ensures NoDuplicates(order) && forall t :: t in order <==> t in g
    ensures ComponentsFirst(g, order) <==> Acyclic(g)
  {
    hide IsWalk;
    hide ComponentsFirst;
    hide Acyclic;
    forall t | t in g
      ensures t in order
    {
      var w :| IsWalk(g, w) && w != [] && w[0] == target && w[|w| - 1] == t;
      WalkIsVisited(g, visited, order, w);
    }
    if ComponentsFirst(g, order) {
      ComponentsFirstNeedsAcyclic(g, order);
    }
  }

  function TypesOf(ordered: seq<BuildStep>): seq<TypeId> {
    seq(|ordered|, i requires 0 <= i < |ordered| => ordered[i].typeId)
  }

  /** The order of the steps when every dict is walked as `walk` says. */
  ghost function PostOrder(g: Graph, walk: DictOrder, target: TypeId): seq<TypeId>
    requires IsDictOrder(walk)
  {
    UniverseCovers(g, target);
    Visited(g, walk, Universe(g, target), target, Trail({}, [])).order
  }

  /** Each step is listed once, the target last; components come first exactly when the steps have no cycle. Holds
      for any steps all reachable from the target, and in whatever order the dicts are walked. */
  lemma PostOrderPromises(g: Graph, walk: DictOrder, target: TypeId)
    requires IsDictOrder(walk) && forall t :: t in g ==> Reachable(g, target, t)
    ensures var order := PostOrder(g, walk, target);
      && NoDuplicates(order) && (forall t :: t in order <==> t in g)
      && (target in g ==> order != [] && order[|order| - 1] == target)
      && (ComponentsFirst(g, order) <==> Acyclic(g))
  {
    hide ComponentsFirst, Acyclic, Reachable, Traversal, Universe, IsDictOrder, NoDuplicates;
    UniverseCovers(g, target);
    TraversalStarts(g);
    var universe, start := Universe(g, target), Trail({}, []);
    VisitKeeps(g, walk, universe, target, [], start);
    var end := Visited(g, walk, universe, target, start);
    FinishedOrder(g, end.visited, end.order, target);
  }

  /** The steps in the post-order of the traversal, and what that promises. */
  method TopologicalOrder(target: TypeId, steps: map<TypeId, BuildStep>, walk: DictOrder, ghost g: Graph)
    returns (ordered: seq<BuildStep>)
    requires Describes(steps, g) && IsDictOrder(walk)
    requires forall t :: t in g ==> Reachable(g, target, t)
    ensures TypesOf(ordered) == PostOrder(g, walk, target)
    ensures forall step :: step in ordered ==> step.typeId in steps && step == steps[step.typeId]
    ensures NoDuplicates(TypesOf(ordered)) && forall t :: t in TypesOf(ordered) <==> t in steps
    ensures target in steps ==> ordered != [] && ordered[|ordered| - 1] == steps[target]
    ensures ComponentsFirst(g, TypesOf(ordered)) <==> Acyclic(g)
  {
    hide ComponentsFirst, Acyclic, Reachable, Universe, IsDictOrder, NoDuplicates;
    UniverseCovers(g, target);
    var sorter := new StepSorter(steps, walk, g, Universe(g, target));
    sorter.Visit(target);
    ordered := sorter.ordered;
    ghost var order := sorter.order;
    assert forall i :: 0 <= i < |order| ==> order[i] in steps && ordered[i] == steps[order[i]];
    assert forall i :: 0 <= i < |order| ==> ordered[i].typeId == order[i];
    assert TypesOf(ordered) == order;
    PostOrderPromises(g, walk, target);
  }

  // The steps of a resolution

  ghost function StepGraph(rq: Request): Graph {
    map t | t in FinalSteps(rq) :: rq.Ingredients(t)
  }

  lemma StepMaterialKeys(rq: Request, t: TypeId)
    requires t in FinalSteps(rq)
    ensures FinalSteps(rq)[t].materials.Keys == StepGraph(rq)[t]
  {
    hide LevelAt;
    hide StepTypes;
    hide After;
  }

  lemma ChainIsWalk(rq: Request, d: nat, t: TypeId) returns (w: seq<TypeId>)
    requires d < MAX_DEPTH && t in LevelAt(rq, d)
    ensures IsWalk(StepGraph(rq), w) && w != [] && w[0] == rq.target && w[|w| - 1] == t
  {
    hide LevelAt;
    hide FinalSteps;
    w := LevelHasChain(rq, d, t);
    forall i | 0 <= i < |w| - 1
      ensures Edge(StepGraph(rq), w[i], w[i + 1])
    {
      assert ChainTo(rq, w[..i + 1], i, w[i]);
      ChainReaches(rq, w[..i + 1], i, w[i]);
      assert Met(rq, MAX_DEPTH, w[i]);
      ResultKeys(rq, w[i]);
    }
  }

  lemma StepsReachable(rq: Request)
    ensures forall t :: t in StepGraph(rq) ==> Reachable(StepGraph(rq), rq.target, t)
  {
    hide LevelAt;
    hide FinalSteps;
    forall t | t in StepGraph(rq)
      ensures Reachable(StepGraph(rq), rq.target, t)
    {
      ResultKeys(rq, t);
      var d: nat :| d < MAX_DEPTH && t in LevelAt(rq, d);
      var w := ChainIsWalk(rq, d, t);
    }
  }

  /** A cycle among the steps would keep every level busy. */
  lemma {:induction false} CycleKeepsDemand(rq: Request, w: seq<TypeId>, d: nat, n: nat) returns (i: nat)
    requires ClosedWalk(StepGraph(rq), w) && w[0] in LevelAt(rq, d)
    ensures i < |w| - 1 && w[i] in LevelAt(rq, d + n)
  {
    hide LevelAt;
    hide FinalSteps;
    if n == 0 {
      i := 0;
    } else {
      var j := CycleKeepsDemand(rq, w, d, n - 1);
      assert Edge(StepGraph(rq), w[j], w[j + 1]);
      ResultKeys(rq, w[j]);
      PassesDown(rq, d + n - 1, w[j], w[j + 1]);
      i := if j + 1 == |w| - 1 then 0 else j + 1;
    }
  }

  lemma WithinDepthIsAcyclic(rq: Request)
    requires Drains(rq)
    ensures Acyclic(StepGraph(rq))
  {
    hide LevelAt;
    hide FinalSteps;
    forall w
      ensures !ClosedWalk(StepGraph(rq), w)
    {
      if ClosedWalk(StepGraph(rq), w) {
        assert Edge(StepGraph(rq), w[0], w[1]);
        ResultKeys(rq, w[0]);
        var d: nat :| d < MAX_DEPTH && w[0] in LevelAt(rq, d);
        var i := CycleKeepsDemand(rq, w, d, MAX_DEPTH);
        StaysEmpty(rq, MAX_DEPTH, d + MAX_DEPTH);
        assert false;
      }
    }
  }

  lemma SelfEdgeHasNoOrder(g: Graph, t: TypeId, order: seq<TypeId>)
    requires Edge(g, t, t)
    ensures !Acyclic(g)
    ensures NoDuplicates(order) && (forall s :: s in g ==> s in order) ==> !ComponentsFirst(g, order)
  {
    assert ClosedWalk(g, [t, t]);
    if NoDuplicates(order) && (forall s :: s in g ==> s in order) && ComponentsFirst(g, order) {
      ComponentsFirstNeedsAcyclic(g, order);
    }
  }

  lemma StepEdge(rq: Request, t: TypeId)
    requires t in FinalSteps(rq) && t in rq.Ingredients(t)
    ensures Edge(StepGraph(rq), t, t)
  {
    hide FinalSteps;
  }

  lemma LoopUsesItself()
    ensures 1 in LOOP.Ingredients(1)
  {
    assert LOOP.catalogue[1].materials[0].typeId == 1;
  }

  /** The item that consumes itself is a cyclic step, for which no order puts components first. */
  lemma LoopHasNoOrder(order: seq<TypeId>)
    ensures !Acyclic(StepGraph(LOOP))
    ensures NoDuplicates(order) && (forall t :: t in StepGraph(LOOP) ==> t in order) ==>
              !ComponentsFirst(StepGraph(LOOP), order)
  {
    hide *;
    LoopMisreported();
    LoopUsesItself();
    StepEdge(LOOP, 1);
    SelfEdgeHasNoOrder(StepGraph(LOOP), 1, order);
  }

  /** Resolution and ordering together: every step once, the target last, and within the depth
      limit every component before all its consumers. */
  method ResolveInOrder(rq: Request, walk: DictOrder)
    returns (ordered: seq<BuildStep>, raw: map<TypeId, int>, rawBuildable: map<TypeId, bool>)
    requires IsDictOrder(walk)
    ensures TypesOf(ordered) == PostOrder(StepGraph(rq), walk, rq.target)
    ensures NoDuplicates(TypesOf(ordered))
    ensures forall t :: t in TypesOf(ordered) <==> t in FinalSteps(rq)
    ensures forall step :: step in ordered ==>
              step.typeId in FinalSteps(rq) && step.View() == FinalSteps(rq)[step.typeId]
    ensures rq.target in rq.catalogue ==> ordered != [] && ordered[|ordered| - 1].typeId == rq.target
    ensures ComponentsFirst(StepGraph(rq), TypesOf(ordered)) <==> Acyclic(StepGraph(rq))
    ensures Drains(rq) ==> ComponentsFirst(StepGraph(rq), TypesOf(ordered))
    ensures raw == FinalRaw(rq) && rawBuildable == FinalBuildable(rq)
  {
    hide LevelAt, FinalSteps, FinalRaw, FinalBuildable, Drains, StepGraph;
    hide Acyclic, ComponentsFirst, Reachable, NoDuplicates, TypesOf, Describes, PostOrder, IsDictOrder;
    var steps: map<TypeId, BuildStep>;
    steps, raw, rawBuildable := ResolveBuildChain(rq);
    StepsReachable(rq);
    ResultKeys(rq, rq.target);
    StepsDescribed(rq, steps);
    ordered := TopologicalOrder(rq.target, steps, walk, StepGraph(rq));
    if Drains(rq) {
      WithinDepthIsAcyclic(rq);
    }
  }

  lemma StepsDescribed(rq: Request, steps: map<TypeId, BuildStep>)
    requires Shows(steps, FinalSteps(rq))
    ensures Describes(steps, StepGraph(rq))
  {
    hide FinalSteps;
    forall t | t in steps
      ensures steps[t].materials.Keys == StepGraph(rq)[t]
    {
      StepMaterialKeys(rq, t);
    }
  }
}
