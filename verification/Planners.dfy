/** Two simpler planners bracket the level walk: expanding every occurrence of a component on its
    own from above, rounding the whole demand for each component once from below. */
module Planners {
  import opened Maps
  import opened Sums
  import opened Recipes
  import opened LevelWalk
  import opened Chains
  import opened ChainResolver
  import opened WalkLaws

  // Naive expansion of one occurrence, `n` levels deep

  ghost function Tree(rq: Request, tally: Tally, n: nat, t: TypeId, q: int, x: TypeId): int
    decreases n, 0
  {
    if n == 0 || !rq.Expands(t) then
      if t == x && tally == Raw then q else 0
    else
      Here(rq, tally, map[t := q], x) +
      TreeLines(rq, tally, n - 1, rq.catalogue[t].materials, rq.Runs(t, q), x)
  }

  ghost function TreeLines(rq: Request, tally: Tally, n: nat, lines: seq<Material>, runs: int, x: TypeId): int
    decreases n, |lines| + 1
  {
    if lines == [] then 0
    else
      TreeLines(rq, tally, n, lines[..|lines| - 1], runs, x) +
      Tree(rq, tally, n, lines[|lines| - 1].typeId, lines[|lines| - 1].quantity * runs, x)
  }

  /** No blueprint makes more than one item a run. */
  ghost predicate Unit(rq: Request) {
    forall t :: t in rq.catalogue ==> rq.catalogue[t].productQuantity == 1
  }

  lemma {:induction false} TreeMonotone(rq: Request, tally: Tally, n: nat, t: TypeId, a: int, b: int, x: TypeId)
    requires a <= b
    ensures Tree(rq, tally, n, t, a, x) <= Tree(rq, tally, n, t, b, x)
    decreases n, 0
  {
    if n > 0 && rq.Expands(t) {
      RunsMonotone(a, b, rq.catalogue[t].productQuantity);
      TreeLinesMonotone(rq, tally, n - 1, rq.catalogue[t].materials, rq.Runs(t, a), rq.Runs(t, b), x);
    }
  }

  lemma {:induction false} TreeLinesMonotone(rq: Request, tally: Tally, n: nat, lines: seq<Material>,
                                             a: int, b: int, x: TypeId)
    requires a <= b
    ensures TreeLines(rq, tally, n, lines, a, x) <= TreeLines(rq, tally, n, lines, b, x)
    decreases n, |lines| + 1
  {
    if lines != [] {
      var front, last := lines[..|lines| - 1], lines[|lines| - 1];
      TreeLinesMonotone(rq, tally, n, front, a, b, x);
      assert last.quantity * a <= last.quantity * b;
      TreeMonotone(rq, tally, n, last.typeId, last.quantity * a, last.quantity * b, x);
    }
  }

  /** Merging two occurrences never costs more; with single-item recipes it costs the same. */
  lemma {:induction false} TreeMerge(rq: Request, tally: Tally, n: nat, t: TypeId, a: int, b: int, x: TypeId)
    ensures Tree(rq, tally, n, t, a + b, x) <= Tree(rq, tally, n, t, a, x) + Tree(rq, tally, n, t, b, x)
    ensures Unit(rq) && 1 <= a && 1 <= b ==>
              Tree(rq, tally, n, t, a + b, x) == Tree(rq, tally, n, t, a, x) + Tree(rq, tally, n, t, b, x)
    decreases n, 0
  {
    hide RunsFor, TreeLines, Here;
    if n > 0 && rq.Expands(t) {
      var lines := rq.catalogue[t].materials;
      RunsMerge(rq, t, a, b);
      OwnShareMerges(rq, tally, t, a, b, x);
      TreeLinesMonotone(rq, tally, n - 1, lines, rq.Runs(t, a + b), rq.Runs(t, a) + rq.Runs(t, b), x);
      TreeLinesMerge(rq, tally, n - 1, lines, rq.Runs(t, a), rq.Runs(t, b), x);
    }
  }

  lemma RunsMerge(rq: Request, t: TypeId, a: int, b: int)
    requires t in rq.catalogue
    ensures rq.Runs(t, a + b) <= rq.Runs(t, a) + rq.Runs(t, b)
    ensures 1 <= rq.Runs(t, a) && 1 <= rq.Runs(t, b)
    ensures Unit(rq) && 1 <= a && 1 <= b ==> rq.Runs(t, a + b) == rq.Runs(t, a) + rq.Runs(t, b)
  {
    RunsSubadditive(a, b, rq.catalogue[t].productQuantity);
    if Unit(rq) && 1 <= a && 1 <= b {
      RunsOfSingles(a);
      RunsOfSingles(b);
      RunsOfSingles(a + b);
    }
  }

  lemma OwnShareMerges(rq: Request, tally: Tally, t: TypeId, a: int, b: int, x: TypeId)
    requires rq.Expands(t)
    ensures Here(rq, tally, map[t := a + b], x) <= Here(rq, tally, map[t := a], x) + Here(rq, tally, map[t := b], x)
    ensures Unit(rq) && 1 <= a && 1 <= b ==>
              Here(rq, tally, map[t := a + b], x) == Here(rq, tally, map[t := a], x) + Here(rq, tally, map[t := b], x)
  {
    RunsMerge(rq, t, a, b);
  }

  lemma {:induction false} TreeLinesMerge(rq: Request, tally: Tally, n: nat, lines: seq<Material>,
                                          a: int, b: int, x: TypeId)
    requires 1 <= a && 1 <= b
    ensures TreeLines(rq, tally, n, lines, a + b, x)
         <= TreeLines(rq, tally, n, lines, a, x) + TreeLines(rq, tally, n, lines, b, x)
    ensures Unit(rq) ==>
              TreeLines(rq, tally, n, lines, a + b, x)
              == TreeLines(rq, tally, n, lines, a, x) + TreeLines(rq, tally, n, lines, b, x)
    decreases n, |lines| + 1
  {
    if lines != [] {
      var front, last := lines[..|lines| - 1], lines[|lines| - 1];
      TreeLinesMerge(rq, tally, n, front, a, b, x);
      assert last.quantity * (a + b) == last.quantity * a + last.quantity * b;
      assert 1 <= last.quantity * a && 1 <= last.quantity * b;
      TreeMerge(rq, tally, n, last.typeId, last.quantity * a, last.quantity * b, x);
    }
  }

  // A level as a forest: the potential that the walk can only lower

  ghost function TreeOf(rq: Request, tally: Tally, n: nat, level: Level, x: TypeId): int -> int {
    t => if t in level then Tree(rq, tally, n, t, level[t], x) else 0
  }

  ghost function Forest(rq: Request, tally: Tally, n: nat, level: Level, x: TypeId): int {
    SumOver(level.Keys, TreeOf(rq, tally, n, level, x))
  }

  ghost predicate Positive(level: Level) {
    forall t :: t in level ==> 1 <= level[t]
  }

  lemma ForestPut(rq: Request, tally: Tally, n: nat, level: Level, t: TypeId, q: int, x: TypeId)
    ensures Forest(rq, tally, n, level[t := q], x)
         == Forest(rq, tally, n, level, x) - TreeOf(rq, tally, n, level, x)(t) + Tree(rq, tally, n, t, q, x)
  {
    hide Tree;
    var more, rest := level[t := q], level.Keys - {t};
    SumPick(more.Keys, TreeOf(rq, tally, n, more, x), t);
    assert more.Keys - {t} == rest;
    SumSame(rest, TreeOf(rq, tally, n, more, x), TreeOf(rq, tally, n, level, x));
    if t in level {
      SumPick(level.Keys, TreeOf(rq, tally, n, level, x), t);
    } else {
      assert level.Keys == rest;
    }
  }

  lemma ForestBump(rq: Request, tally: Tally, n: nat, level: Level, line: Material, runs: Count, x: TypeId)
    ensures Forest(rq, tally, n, Bumped(level, line, runs), x)
         <= Forest(rq, tally, n, level, x) + Tree(rq, tally, n, line.typeId, line.quantity * runs, x)
    ensures Unit(rq) && Positive(level) ==>
              && Positive(Bumped(level, line, runs))
              && Forest(rq, tally, n, Bumped(level, line, runs), x)
              == Forest(rq, tally, n, level, x) + Tree(rq, tally, n, line.typeId, line.quantity * runs, x)
  {
    hide Tree;
    hide SumOver;
    var t, k: int := line.typeId, line.quantity * runs;
    assert 1 <= k;
    ForestPut(rq, tally, n, level, t, Get(level, t) + k, x);
    if t in level {
      TreeMerge(rq, tally, n, t, level[t], k, x);
    }
  }

  lemma {:induction false} ForestAdd(rq: Request, tally: Tally, n: nat, level: Level, lines: seq<Material>,
                                     runs: Count, x: TypeId)
    ensures Forest(rq, tally, n, Added(level, lines, runs), x)
         <= Forest(rq, tally, n, level, x) + TreeLines(rq, tally, n, lines, runs, x)
    ensures Unit(rq) && Positive(level) ==>
              && Positive(Added(level, lines, runs))
              && Forest(rq, tally, n, Added(level, lines, runs), x)
              == Forest(rq, tally, n, level, x) + TreeLines(rq, tally, n, lines, runs, x)
    decreases |lines|
  {
    hide Tree;
    hide Forest;
    hide Bumped;
    if lines == [] {
      SameMap(Added(level, lines, runs), level);
    } else {
      var i := |lines| - 1;
      AddedOneMore(level, lines, i, runs);
      assert lines[..i + 1] == lines;
      ForestAdd(rq, tally, n, level, lines[..i], runs, x);
      ForestBump(rq, tally, n, Added(level, lines[..i], runs), lines[i], runs, x);
    }
  }

  /** Processing one level: what it contributes plus the forest below is at most the forest above. */
  lemma {:induction false} ForestStep(rq: Request, tally: Tally, n: nat, level: Level, x: TypeId)
    ensures Here(rq, tally, level, x) + Forest(rq, tally, n, Next(rq, level), x)
         <= Forest(rq, tally, n + 1, level, x)
    ensures Unit(rq) && Positive(level) ==>
              && Positive(Next(rq, level))
              && Here(rq, tally, level, x) + Forest(rq, tally, n, Next(rq, level), x)
              == Forest(rq, tally, n + 1, level, x)
    decreases |level|
  {
    hide Forest;
    hide Next;
    if level.Keys == {} {
      assert level == map[];
      NextOfNothing(rq);
      ForestOfNothing(rq, tally, n, x);
      ForestOfNothing(rq, tally, n + 1, x);
    } else {
      var t := Pick(level.Keys);
      var rest := level - {t};
      assert level == rest[t := level[t]];
      ForestStep(rq, tally, n, rest, x);
      ForestStepOne(rq, tally, n, rest, t, level[t], x);
    }
  }

  lemma ForestOfNothing(rq: Request, tally: Tally, n: nat, x: TypeId)
    ensures Forest(rq, tally, n, map[], x) == 0
  {
  }

  lemma ForestStepOne(rq: Request, tally: Tally, n: nat, rest: Level, t: TypeId, q: int, x: TypeId)
    requires t !in rest
    ensures var level := rest[t := q];
      Forest(rq, tally, n, Next(rq, level), x) + Here(rq, tally, level, x) - Forest(rq, tally, n + 1, level, x)
      <= Forest(rq, tally, n, Next(rq, rest), x) + Here(rq, tally, rest, x) - Forest(rq, tally, n + 1, rest, x)
    ensures Unit(rq) && Positive(Next(rq, rest)) ==>
      var level := rest[t := q];
      && Positive(Next(rq, level))
      && Forest(rq, tally, n, Next(rq, level), x) + Here(rq, tally, level, x) - Forest(rq, tally, n + 1, level, x)
      == Forest(rq, tally, n, Next(rq, rest), x) + Here(rq, tally, rest, x) - Forest(rq, tally, n + 1, rest, x)
  {
    hide SumOver;
    hide Next;
    hide Forest;
    var level := rest[t := q];
    NextExtend(rq, rest, t, q);
    ForestPut(rq, tally, n + 1, rest, t, q, x);
    HereSplits(rq, tally, rest, t, q, x);
    if rq.Expands(t) {
      ForestAdd(rq, tally, n, Next(rq, rest), rq.catalogue[t].materials, rq.Runs(t, q), x);
    }
  }

  lemma HereSplits(rq: Request, tally: Tally, rest: Level, t: TypeId, q: int, x: TypeId)
    requires t !in rest
    ensures Here(rq, tally, rest[t := q], x) == Here(rq, tally, rest, x) + Here(rq, tally, map[t := q], x)
  {
  }

  /** Upper half of the sandwich, for any depth and any graph: no tally of the walk exceeds that of
      the naive expansion cut at the same depth. */
  lemma {:induction false} WalkBelowTree(rq: Request, tally: Tally, n: nat, d: nat, x: TypeId)
    requires d <= n
    ensures After(rq, tally, d, x) + Forest(rq, tally, n - d, LevelAt(rq, d), x)
         <= Tree(rq, tally, n, rq.target, rq.quantity, x)
    ensures Unit(rq) && 1 <= rq.quantity ==>
              && Positive(LevelAt(rq, d))
              && After(rq, tally, d, x) + Forest(rq, tally, n - d, LevelAt(rq, d), x)
              == Tree(rq, tally, n, rq.target, rq.quantity, x)
  {
    hide After;
    hide LevelAt;
    hide Forest;
    hide Tree;
    hide Here;
    hide Next;
    if d == 0 {
      ForestAtTop(rq, tally, n, x);
      TalliesStartEmpty(rq, x);
    } else {
      WalkBelowTree(rq, tally, n, d - 1, x);
      OneMoreLevel(rq, tally, d, x);
      ForestStep(rq, tally, n - d, LevelAt(rq, d - 1), x);
    }
  }

  lemma ForestAtTop(rq: Request, tally: Tally, n: nat, x: TypeId)
    ensures LevelAt(rq, 0) == map[rq.target := rq.quantity]
    ensures Forest(rq, tally, n, LevelAt(rq, 0), x) == Tree(rq, tally, n, rq.target, rq.quantity, x)
  {
    hide Tree;
    hide Forest;
    ForestOfNothing(rq, tally, n, x);
    ForestPut(rq, tally, n, map[], rq.target, rq.quantity, x);
    assert map[][rq.target := rq.quantity] == LevelAt(rq, 0);
  }

  /** At the guard, what is left of the forest is exactly the leftover raw demand. */
  lemma ForestAtBottom(rq: Request, tally: Tally, level: Level, x: TypeId)
    ensures Forest(rq, tally, 0, level, x) == if tally == Raw then Get(level, x) else 0
  {
    var f := TreeOf(rq, tally, 0, level, x);
    if x in level.Keys {
      SumPick(level.Keys, f, x);
    }
    SumSupport({}, level.Keys - {x}, f);
    assert x !in level.Keys ==> level.Keys - {x} == level.Keys;
  }

  lemma TotalBelowTree(rq: Request, tally: Tally, x: TypeId)
    ensures Total(rq, tally, x) <= Tree(rq, tally, MAX_DEPTH, rq.target, rq.quantity, x)
    ensures Unit(rq) && 1 <= rq.quantity ==>
              Total(rq, tally, x) == Tree(rq, tally, MAX_DEPTH, rq.target, rq.quantity, x)
  {
    hide After;
    hide LevelAt;
    hide Forest;
    hide Tree;
    WalkBelowTree(rq, tally, MAX_DEPTH, MAX_DEPTH, x);
    ForestAtBottom(rq, tally, LevelAt(rq, MAX_DEPTH), x);
  }

  /** Within the depth limit, cutting the naive expansion deeper changes nothing: it is whole. */
  lemma {:induction false} TreeIsWhole(rq: Request, tally: Tally, n: nat, d: nat, more: nat,
                                       t: TypeId, q: int, x: TypeId)
    requires d <= n && LevelAt(rq, n) == map[] && t in LevelAt(rq, d)
    ensures Tree(rq, tally, n - d + more, t, q, x) == Tree(rq, tally, n - d, t, q, x)
    decreases n - d, 0
  {
    hide LevelAt;
    if rq.Expands(t) && d < n {
      forall m | m in LineTypes(rq.catalogue[t].materials)
        ensures m in LevelAt(rq, d + 1)
      {
        PassesDown(rq, d, t, m);
      }
      TreeLinesAreWhole(rq, tally, n, d + 1, more, rq.catalogue[t].materials, rq.Runs(t, q), x);
    }
  }

  lemma {:induction false} TreeLinesAreWhole(rq: Request, tally: Tally, n: nat, d: nat, more: nat,
                                             lines: seq<Material>, runs: int, x: TypeId)
    requires d <= n && LevelAt(rq, n) == map[]
    requires forall m :: m in LineTypes(lines) ==> m in LevelAt(rq, d)
    ensures TreeLines(rq, tally, n - d + more, lines, runs, x) == TreeLines(rq, tally, n - d, lines, runs, x)
    decreases n - d, |lines| + 1
  {
    hide LevelAt;
    if lines != [] {
      var front, last := lines[..|lines| - 1], lines[|lines| - 1];
      assert lines == front + [last];
      TreeLinesAreWhole(rq, tally, n, d, more, front, runs, x);
      assert last in lines;
      TreeIsWhole(rq, tally, n, d, more, last.typeId, last.quantity * runs, x);
    }
  }

  // Rounding each type's whole demand once

  ghost function PlanUse(rq: Request, plan: map<TypeId, int>, m: TypeId): int -> int {
    s => if s in plan then plan[s] * rq.Uses(s, m) else 0
  }

  /** The whole demand for `m` when every type in `plan` is run that often. */
  ghost function PlanDemand(rq: Request, plan: map<TypeId, int>, m: TypeId): int {
    TargetDemand(rq, m) + SumOver(plan.Keys, PlanUse(rq, plan, m))
  }

  /** Runs for the same steps as the walk, each covering the whole demand in one rounding. */
  ghost predicate RoundsOnce(rq: Request, plan: map<TypeId, int>) {
    && plan.Keys == StepTypes(rq, MAX_DEPTH)
    && forall t :: t in plan ==> t in rq.catalogue && plan[t] == rq.Runs(t, PlanDemand(rq, plan, t))
  }

  /** Met at no level from `d` on. */
  ghost predicate Settled(rq: Request, d: nat, t: TypeId) {
    forall e: nat :: d <= e ==> t !in LevelAt(rq, e)
  }

  lemma ConsumersSettleFirst(rq: Request, d: nat, s: TypeId, t: TypeId)
    requires Settled(rq, d + 1, t) && rq.Expands(s) && t in rq.Ingredients(s)
    ensures Settled(rq, d, s)
  {
    hide LevelAt;
    forall e: nat | d <= e
      ensures s !in LevelAt(rq, e)
    {
      if s in LevelAt(rq, e) {
        PassesDown(rq, e, s, t);
        assert false;
      }
    }
  }

  lemma DrainedSettles(rq: Request, t: TypeId)
    requires Drains(rq)
    ensures Settled(rq, MAX_DEPTH, t)
  {
    hide LevelAt;
    forall e: nat | MAX_DEPTH <= e
      ensures t !in LevelAt(rq, e)
    {
      StaysEmpty(rq, MAX_DEPTH, e);
    }
  }

  lemma OnceStep(rq: Request, plan: map<TypeId, int>, d: nat, t: TypeId)
    requires Drains(rq) && RoundsOnce(rq, plan) && Settled(rq, d + 1, t)
    requires forall s :: s in plan && Settled(rq, d, s) ==> plan[s] <= After(rq, Runs, MAX_DEPTH, s)
    ensures PlanDemand(rq, plan, t) <= After(rq, Needed, MAX_DEPTH, t) + After(rq, Raw, MAX_DEPTH, t)
    ensures (forall s :: s in plan && Settled(rq, d, s) ==> plan[s] == After(rq, Runs, MAX_DEPTH, s)) ==>
              PlanDemand(rq, plan, t) == After(rq, Needed, MAX_DEPTH, t) + After(rq, Raw, MAX_DEPTH, t)
  {
    hide LevelAt;
    hide After;
    hide StepTypes;
    hide SumOver;
    forall s | s in plan.Keys
      ensures PlanUse(rq, plan, t)(s) <= Consumption(rq, MAX_DEPTH, t)(s)
      ensures plan[s] == After(rq, Runs, MAX_DEPTH, s) || !Settled(rq, d, s) ==>
                PlanUse(rq, plan, t)(s) == Consumption(rq, MAX_DEPTH, t)(s)
    {
      PlacedByExpansion(rq, MAX_DEPTH, s);
      PlanUseBelow(rq, plan, d, s, t);
    }
    SumLe(plan.Keys, PlanUse(rq, plan, t), Consumption(rq, MAX_DEPTH, t));
    if forall s :: s in plan && Settled(rq, d, s) ==> plan[s] == After(rq, Runs, MAX_DEPTH, s) {
      SumSame(plan.Keys, PlanUse(rq, plan, t), Consumption(rq, MAX_DEPTH, t));
    }
    DemandConserved(rq, MAX_DEPTH, t, plan.Keys);
  }

  lemma PlanUseBelow(rq: Request, plan: map<TypeId, int>, d: nat, s: TypeId, t: TypeId)
    requires Settled(rq, d + 1, t) && s in plan && rq.Expands(s)
    requires Settled(rq, d, s) ==> plan[s] <= After(rq, Runs, MAX_DEPTH, s)
    ensures PlanUse(rq, plan, t)(s) <= Consumption(rq, MAX_DEPTH, t)(s)
    ensures plan[s] == After(rq, Runs, MAX_DEPTH, s) || !Settled(rq, d, s) ==>
              PlanUse(rq, plan, t)(s) == Consumption(rq, MAX_DEPTH, t)(s)
  {
    hide LevelAt, After, Settled, SumOver;
    LineTotalPositive(rq.catalogue[s].materials, t);
    if t in rq.Ingredients(s) {
      ConsumersSettleFirst(rq, d, s, t);
      TimesUses(plan[s], After(rq, Runs, MAX_DEPTH, s), rq.Uses(s, t));
    } else {
      assert rq.Uses(s, t) == 0;
    }
  }

  lemma TimesUses(a: int, b: int, uses: nat)
    ensures a <= b ==> a * uses <= b * uses
  {
  }

  lemma {:induction false} SteppedRuns(rq: Request, d: nat, t: TypeId)
    ensures 0 <= After(rq, Runs, d, t)
    ensures t in StepTypes(rq, d) ==> 1 <= After(rq, Runs, d, t)
  {
    hide LevelAt;
    hide RunsFor;
    if d > 0 {
      SteppedRuns(rq, d - 1, t);
    }
  }

  lemma {:induction false} UnitRuns(rq: Request, d: nat, t: TypeId)
    requires Unit(rq) && 1 <= rq.quantity
    ensures After(rq, Runs, d, t) == After(rq, Needed, d, t)
  {
    hide LevelAt;
    hide RunsFor;
    if d > 0 {
      UnitRuns(rq, d - 1, t);
      LevelsPositive(rq, d - 1);
      var level := LevelAt(rq, d - 1);
      if t in level && rq.Expands(t) {
        RunsOfSingles(level[t]);
      }
    }
  }

  lemma RunsAtMost(demand: int, p: Count, runs: int)
    requires demand <= runs * p && 1 <= runs
    ensures RunsFor(demand, p) <= runs
  {
    assert demand <= p * runs;
  }

  /** The rounding of the walk's whole demand for a step is at most the runs of the walk. */
  lemma RoundingOnceIsCheaper(rq: Request, t: TypeId, demand: int)
    requires t in StepTypes(rq, MAX_DEPTH) && demand <= After(rq, Needed, MAX_DEPTH, t)
    ensures t in rq.catalogue && rq.Runs(t, demand) <= After(rq, Runs, MAX_DEPTH, t)
    ensures Unit(rq) && 1 <= rq.quantity && demand == After(rq, Needed, MAX_DEPTH, t) ==>
              rq.Runs(t, demand) == After(rq, Runs, MAX_DEPTH, t)
  {
    hide LevelAt;
    hide After;
    hide StepTypes;
    PlacedByExpansion(rq, MAX_DEPTH, t);
    hide RunsFor;
    SteppedRuns(rq, MAX_DEPTH, t);
    SurplusBounded(rq, MAX_DEPTH, t);
    RunsAtMost(demand, rq.catalogue[t].productQuantity, After(rq, Runs, MAX_DEPTH, t));
    if Unit(rq) && 1 <= rq.quantity {
      UnitRuns(rq, MAX_DEPTH, t);
      RunsOfSingles(After(rq, Needed, MAX_DEPTH, t));
    }
  }

  lemma {:induction false} OnceBelowWalk(rq: Request, plan: map<TypeId, int>, d: nat)
    requires Drains(rq) && RoundsOnce(rq, plan)
    ensures forall t :: t in plan && Settled(rq, d, t) ==> plan[t] <= After(rq, Runs, MAX_DEPTH, t)
    ensures Unit(rq) && 1 <= rq.quantity ==>
              forall t :: t in plan && Settled(rq, d, t) ==> plan[t] == After(rq, Runs, MAX_DEPTH, t)
  {
    hide LevelAt;
    hide After;
    hide StepTypes;
    hide PlanDemand;
    hide RunsFor;
    if d == 0 {
      forall t | t in plan
        ensures !Settled(rq, d, t)
      {
        PlacedByExpansion(rq, MAX_DEPTH, t);
      }
    } else {
      OnceBelowWalk(rq, plan, d - 1);
      forall t | t in plan && Settled(rq, d, t)
        ensures plan[t] <= After(rq, Runs, MAX_DEPTH, t)
        ensures Unit(rq) && 1 <= rq.quantity ==> plan[t] == After(rq, Runs, MAX_DEPTH, t)
      {
        OnceStep(rq, plan, d - 1, t);
        PlacedByExpansion(rq, MAX_DEPTH, t);
        NeverLeaf(rq, MAX_DEPTH, t);
        RoundingOnceIsCheaper(rq, t, PlanDemand(rq, plan, t));
      }
    }
  }

  /** Within the depth limit, for every type: once-rounded <= level walk <= naive expansion, in runs
      and in raw demand; with single-item recipes and a real order all three are equal. */
  lemma Sandwich(rq: Request, plan: map<TypeId, int>, x: TypeId)
    requires Drains(rq) && RoundsOnce(rq, plan)
    ensures x in plan ==> plan[x] <= Total(rq, Runs, x)
    ensures !rq.Expands(x) ==> PlanDemand(rq, plan, x) <= Total(rq, Raw, x)
    ensures forall tally :: Total(rq, tally, x) <= Tree(rq, tally, MAX_DEPTH, rq.target, rq.quantity, x)
    ensures Unit(rq) && 1 <= rq.quantity ==>
              && (x in plan ==> plan[x] == Total(rq, Runs, x))
              && (!rq.Expands(x) ==> PlanDemand(rq, plan, x) == Total(rq, Raw, x))
              && forall tally :: Total(rq, tally, x) == Tree(rq, tally, MAX_DEPTH, rq.target, rq.quantity, x)
  {
    hide LevelAt;
    hide After;
    hide StepTypes;
    hide PlanDemand;
    hide Tree;
    forall tally
      ensures Total(rq, tally, x) <= Tree(rq, tally, MAX_DEPTH, rq.target, rq.quantity, x)
      ensures Unit(rq) && 1 <= rq.quantity ==>
                Total(rq, tally, x) == Tree(rq, tally, MAX_DEPTH, rq.target, rq.quantity, x)
    {
      TotalBelowTree(rq, tally, x);
    }
    forall t | t in plan
      ensures Settled(rq, MAX_DEPTH, t)
    {
      DrainedSettles(rq, t);
    }
    OnceBelowWalk(rq, plan, MAX_DEPTH);
    if !rq.Expands(x) {
      DrainedSettles(rq, x);
      SettledLater(rq, x);
      OnceStep(rq, plan, MAX_DEPTH, x);
      PlacedByExpansion(rq, MAX_DEPTH, x);
      NeverStepped(rq, Needed, MAX_DEPTH, x);
    }
  }

  lemma SettledLater(rq: Request, t: TypeId)
    requires Settled(rq, MAX_DEPTH, t)
    ensures Settled(rq, MAX_DEPTH + 1, t)
  {
    hide LevelAt;
  }

  // Such a plan exists: settle the types level by level, consumers first

  ghost function OnceUpTo(rq: Request, d: nat): map<TypeId, int> {
    if d == 0 then map[]
    else map t | t in StepTypes(rq, MAX_DEPTH) && Settled(rq, d, t) ::
           rq.Runs(t, PlanDemand(rq, OnceUpTo(rq, d - 1), t))
  }

  ghost predicate Keeps(small: map<TypeId, int>, large: map<TypeId, int>) {
    forall t :: t in small ==> t in large && large[t] == small[t]
  }

  lemma OnceUpToAt(rq: Request, d: nat, t: TypeId)
    ensures OnceUpTo(rq, 0) == map[]
    ensures t in OnceUpTo(rq, d) <==> 0 < d && t in StepTypes(rq, MAX_DEPTH) && Settled(rq, d, t)
    ensures t in OnceUpTo(rq, d) ==>
              OnceUpTo(rq, d)[t] == rq.Runs(t, PlanDemand(rq, OnceUpTo(rq, d - 1), t))
  {
    hide StepTypes;
    hide PlanDemand;
  }

  lemma DemandStable(rq: Request, d: nat, t: TypeId)
    requires Settled(rq, d + 1, t) && Keeps(OnceUpTo(rq, d), OnceUpTo(rq, d + 1))
    ensures PlanDemand(rq, OnceUpTo(rq, d), t) == PlanDemand(rq, OnceUpTo(rq, d + 1), t)
  {
    hide LevelAt;
    hide StepTypes;
    hide OnceUpTo;
    hide SumOver;
    var small, large := OnceUpTo(rq, d), OnceUpTo(rq, d + 1);
    forall s | s in large.Keys
      ensures PlanUse(rq, small, t)(s) == PlanUse(rq, large, t)(s)
    {
      if s !in small {
        OnceUpToAt(rq, d, s);
        OnceUpToAt(rq, d + 1, s);
        UnsettledUnused(rq, d, s, t);
      }
    }
    SumSame(large.Keys, PlanUse(rq, small, t), PlanUse(rq, large, t));
    forall s | s in small.Keys
      ensures s in large.Keys
    {
      assert s in small;
    }
    SumSupport(small.Keys, large.Keys, PlanUse(rq, small, t));
  }

  /** What is left out at depth `d` consumes nothing that settles one level later. */
  lemma UnsettledUnused(rq: Request, d: nat, s: TypeId, t: TypeId)
    requires s in StepTypes(rq, MAX_DEPTH) && Settled(rq, d + 1, t)
    requires d == 0 || !Settled(rq, d, s)
    ensures rq.Uses(s, t) == 0
  {
    hide LevelAt;
    hide StepTypes;
    PlacedByExpansion(rq, MAX_DEPTH, s);
    LineTotalPositive(rq.catalogue[s].materials, t);
    if t in rq.Ingredients(s) {
      ConsumersSettleFirst(rq, d, s, t);
      assert false;
    }
  }

  lemma {:induction false} OnceKeeps(rq: Request, d: nat)
    ensures Keeps(OnceUpTo(rq, d), OnceUpTo(rq, d + 1))
  {
    hide LevelAt;
    hide StepTypes;
    hide OnceUpTo;
    hide PlanDemand;
    forall t | t in OnceUpTo(rq, d)
      ensures t in OnceUpTo(rq, d + 1) && OnceUpTo(rq, d + 1)[t] == OnceUpTo(rq, d)[t]
    {
      OnceUpToAt(rq, d, t);
      OnceUpToAt(rq, d + 1, t);
      OnceKeeps(rq, d - 1);
      DemandStable(rq, d - 1, t);
    }
  }

  /** The lower planner is well defined within the depth limit: its equations have a solution. */
  lemma RoundingOncePossible(rq: Request) returns (plan: map<TypeId, int>)
    requires Drains(rq)
    ensures RoundsOnce(rq, plan)
  {
    hide LevelAt;
    hide StepTypes;
    hide OnceUpTo;
    plan := OnceUpTo(rq, MAX_DEPTH);
    forall t
      ensures Settled(rq, MAX_DEPTH, t)
    {
      DrainedSettles(rq, t);
    }
    RoundsOnceUpTo(rq, MAX_DEPTH);
  }

  lemma RoundsOnceUpTo(rq: Request, d: nat)
    requires 0 < d && forall t :: t in StepTypes(rq, MAX_DEPTH) ==> Settled(rq, d, t)
    ensures RoundsOnce(rq, OnceUpTo(rq, d))
  {
    hide LevelAt;
    hide StepTypes;
    hide OnceUpTo;
    hide PlanDemand;
    var plan := OnceUpTo(rq, d);
    forall t
      ensures t in plan <==> t in StepTypes(rq, MAX_DEPTH)
      ensures t in plan ==> t in rq.catalogue && plan[t] == rq.Runs(t, PlanDemand(rq, plan, t))
    {
      OnceUpToAt(rq, d, t);
      if t in plan {
        PlacedByExpansion(rq, MAX_DEPTH, t);
        OnceKeeps(rq, d - 1);
        DemandStable(rq, d - 1, t);
      }
    }
    forall t
      ensures t in plan.Keys <==> t in StepTypes(rq, MAX_DEPTH)
    {
      assert t in plan.Keys <==> t in plan;
    }
  }
}
