/** Laws of the level walk that hold for every request, cyclic recipe graphs included. `d` is the
    number of levels processed: a law for every `d` is a law at every head of the loop. */
module WalkLaws {
  import opened Maps
  import opened Sums
  import opened Recipes
  import opened LevelWalk

  // Conservation of demand

  /** What the step for `s` has consumed of `m` after `d` levels. */
  ghost function Consumption(rq: Request, d: nat, m: TypeId): int -> int {
    s => After(rq, Runs, d, s) * rq.Uses(s, m)
  }

  function TargetDemand(rq: Request, m: TypeId): int {
    if m == rq.target then rq.quantity else 0
  }

  /** One more level, seen from any tally. */
  lemma OneMoreLevel(rq: Request, tally: Tally, d: nat, x: TypeId)
    requires 0 < d
    ensures After(rq, tally, d, x) == After(rq, tally, d - 1, x) + Here(rq, tally, LevelAt(rq, d - 1), x)
    ensures LevelAt(rq, d) == Next(rq, LevelAt(rq, d - 1))
  {
  }

  lemma ConsumptionGrows(rq: Request, d: nat, s: TypeId, m: TypeId)
    requires 0 < d
    ensures Consumption(rq, d, m)(s) == Consumption(rq, d - 1, m)(s) + Flow(rq, LevelAt(rq, d - 1), m)(s)
  {
    hide After;
    hide LevelAt;
    OneMoreLevel(rq, Runs, d, s);
    var level := LevelAt(rq, d - 1);
    var before, here, uses := After(rq, Runs, d - 1, s), Here(rq, Runs, level, s), rq.Uses(s, m);
    assert (before + here) * uses == before * uses + here * uses;
    assert Flow(rq, level, m)(s) == here * uses;
  }

  /** Whichever set covers the expanded types, a level hands the same demand down. */
  lemma FlowOver(rq: Request, level: Level, m: TypeId, types: set<TypeId>)
    requires Expanded(rq, level) <= types
    ensures SumOver(types, Flow(rq, level, m)) == Get(Next(rq, level), m)
  {
    SumSupport(Expanded(rq, level), types, Flow(rq, level, m));
    SumSupport(Expanded(rq, level), level.Keys, Flow(rq, level, m));
    FlowElsewhere(rq, level, m);
  }

  lemma {:induction false} DemandConserved(rq: Request, d: nat, m: TypeId, types: set<TypeId>)
    requires StepTypes(rq, d) <= types
    ensures TargetDemand(rq, m) + SumOver(types, Consumption(rq, d, m))
         == After(rq, Needed, d, m) + After(rq, Raw, d, m) + Get(LevelAt(rq, d), m)
  {
    hide After;
    hide LevelAt;
    hide SumOver;
    hide Consumption;
    hide Flow;
    hide Next;
    hide StepTypes;
    if d == 0 {
      ConservedAtStart(rq, m, types);
    } else {
      CoveredBefore(rq, d, types);
      DemandConserved(rq, d - 1, m, types);
      forall s | s in types
        ensures Consumption(rq, d, m)(s)
             == Consumption(rq, d - 1, m)(s) + Flow(rq, LevelAt(rq, d - 1), m)(s)
      {
        ConsumptionGrows(rq, d, s, m);
      }
      SumAdd(types, Consumption(rq, d - 1, m), Flow(rq, LevelAt(rq, d - 1), m), Consumption(rq, d, m));
      FlowOver(rq, LevelAt(rq, d - 1), m, types);
      OneMoreLevel(rq, Needed, d, m);
      OneMoreLevel(rq, Raw, d, m);
    }
  }

  lemma ConservedAtStart(rq: Request, m: TypeId, types: set<TypeId>)
    ensures SumOver(types, Consumption(rq, 0, m)) == 0
    ensures After(rq, Needed, 0, m) == After(rq, Raw, 0, m) == 0
    ensures Get(LevelAt(rq, 0), m) == TargetDemand(rq, m)
  {
    SumSupport({}, types, Consumption(rq, 0, m));
  }

  lemma CoveredBefore(rq: Request, d: nat, types: set<TypeId>)
    requires 0 < d && StepTypes(rq, d) <= types
    ensures StepTypes(rq, d - 1) <= types && Expanded(rq, LevelAt(rq, d - 1)) <= types
  {
  }

  // Positive demand, and the price of rounding level by level

  lemma {:induction false} LevelsPositive(rq: Request, d: nat)
    requires 1 <= rq.quantity
    ensures forall t :: t in LevelAt(rq, d) ==> 1 <= LevelAt(rq, d)[t]
  {
    if d > 0 {
      LevelsPositive(rq, d - 1);
      forall m | m in LevelAt(rq, d)
        ensures 1 <= LevelAt(rq, d)[m]
      {
        NextPositive(rq, LevelAt(rq, d - 1), m);
      }
    }
  }

  lemma PassedPositive(rq: Request, t: TypeId, q: int, m: TypeId)
    ensures 0 <= Passed(rq, t, q, m)
    ensures rq.Expands(t) && m in rq.Ingredients(t) ==> 1 <= Passed(rq, t, q, m)
  {
    if rq.Expands(t) {
      LineTotalPositive(rq.catalogue[t].materials, m);
      var runs, uses := rq.Runs(t, q), rq.Uses(t, m);
      assert 0 <= (runs - 1) * uses == runs * uses - uses;
    }
  }

  lemma NextPositive(rq: Request, level: Level, m: TypeId)
    requires m in NextTypes(rq, level)
    ensures 1 <= Next(rq, level)[m]
  {
    hide SumOver;
    hide Passed;
    var s :| s in level && rq.Expands(s) && m in rq.Ingredients(s);
    PassedPositive(rq, s, level[s], m);
    forall t | t in level.Keys
      ensures 0 <= Flow(rq, level, m)(t)
    {
      PassedPositive(rq, t, level[t], m);
    }
    SumAtLeast(level.Keys, Flow(rq, level, m), s);
  }

  /** In how many of the first `d` levels `t` was expanded. */
  ghost function Batches(rq: Request, d: nat, t: TypeId): nat {
    if d == 0 then 0
    else Batches(rq, d - 1, t) + if t in Expanded(rq, LevelAt(rq, d - 1)) then 1 else 0
  }

  /** Each batch is rounded up on its own: the surplus stays below one product batch per level. */
  lemma {:induction false} SurplusBounded(rq: Request, d: nat, t: TypeId)
    requires t in rq.catalogue
    ensures var p := rq.catalogue[t].productQuantity;
      var surplus := After(rq, Runs, d, t) * p - After(rq, Needed, d, t);
      0 <= surplus && (1 <= rq.quantity ==> surplus <= Batches(rq, d, t) * (p - 1))
    ensures Batches(rq, d, t) <= d
  {
    hide After;
    hide LevelAt;
    hide Batches;
    TalliesStartEmpty(rq, t);
    if d > 0 {
      SurplusBounded(rq, d - 1, t);
      OneMoreLevel(rq, Runs, d, t);
      OneMoreLevel(rq, Needed, d, t);
      OneMoreBatch(rq, d, t);
      if 1 <= rq.quantity {
        LevelsPositive(rq, d - 1);
      }
      var level := LevelAt(rq, d - 1);
      if t in Expanded(rq, level) {
        SurplusStep(After(rq, Runs, d - 1, t), After(rq, Needed, d - 1, t), Batches(rq, d - 1, t),
                    level[t], rq.catalogue[t].productQuantity);
      }
    }
  }

  lemma TalliesStartEmpty(rq: Request, t: TypeId)
    ensures forall tally :: After(rq, tally, 0, t) == 0
    ensures Batches(rq, 0, t) == 0
  {
  }

  lemma OneMoreBatch(rq: Request, d: nat, t: TypeId)
    requires 0 < d
    ensures Batches(rq, d, t) == Batches(rq, d - 1, t) + if t in Expanded(rq, LevelAt(rq, d - 1)) then 1 else 0
  {
  }

  lemma SurplusStep(runs: int, needed: int, batches: nat, q: int, p: Count)
    requires 0 <= runs * p - needed
    ensures 0 <= (runs + RunsFor(q, p)) * p - (needed + q)
    ensures 1 <= q && runs * p - needed <= batches * (p - 1) ==>
              (runs + RunsFor(q, p)) * p - (needed + q) <= (batches + 1) * (p - 1)
  {
    var r: int := RunsFor(q, p);
    assert (runs + r) * p == runs * p + r * p;
    assert (batches + 1) * (p - 1) == batches * (p - 1) + (p - 1);
    if 1 <= q {
      RunsSlack(q, p);
    }
  }

  /** A type expanded in one level only is rounded up exactly once. */
  lemma {:induction false} SingleBatchExact(rq: Request, d: nat, t: TypeId)
    requires t in rq.catalogue && Batches(rq, d, t) <= 1
    ensures Batches(rq, d, t) == 0 ==> After(rq, Needed, d, t) == After(rq, Runs, d, t) == 0
    ensures Batches(rq, d, t) == 1 ==>
              After(rq, Runs, d, t) == RunsFor(After(rq, Needed, d, t), rq.catalogue[t].productQuantity)
  {
    hide After;
    hide LevelAt;
    hide Batches;
    TalliesStartEmpty(rq, t);
    if d > 0 {
      OneMoreBatch(rq, d, t);
      SingleBatchExact(rq, d - 1, t);
      OneMoreLevel(rq, Runs, d, t);
      OneMoreLevel(rq, Needed, d, t);
    }
  }

  // Two target quantities: the same types are met, and the totals are monotone and subadditive

  ghost predicate AtMost(a: Level, b: Level) {
    a.Keys == b.Keys && forall t :: t in a ==> a[t] <= b[t]
  }

  lemma PassedMonotone(rq: Request, t: TypeId, q: int, q': int, m: TypeId)
    requires q <= q'
    ensures Passed(rq, t, q, m) <= Passed(rq, t, q', m)
  {
    hide Consumed;
    if rq.Expands(t) {
      RunsMonotone(q, q', rq.catalogue[t].productQuantity);
      ConsumedMonotone(rq.catalogue[t].materials, rq.Runs(t, q), rq.Runs(t, q'), m);
    }
  }

  lemma ConsumedMonotone(lines: seq<Material>, a: int, b: int, m: TypeId)
    requires a <= b
    ensures Consumed(lines, a, m) <= Consumed(lines, b, m)
  {
    assert 0 <= (b - a) * LineTotal(lines, m);
  }

  lemma NextMonotone(rq: Request, a: Level, b: Level)
    requires AtMost(a, b)
    ensures AtMost(Next(rq, a), Next(rq, b))
  {
    hide SumOver;
    hide Passed;
    forall m | m in NextTypes(rq, a)
      ensures Next(rq, a)[m] <= Next(rq, b)[m]
    {
      forall t | t in a.Keys
        ensures Flow(rq, a, m)(t) <= Flow(rq, b, m)(t)
      {
        PassedMonotone(rq, t, a[t], b[t], m);
      }
      SumLe(a.Keys, Flow(rq, a, m), Flow(rq, b, m));
    }
  }

  lemma HereMonotone(rq: Request, tally: Tally, a: Level, b: Level, x: TypeId)
    requires AtMost(a, b)
    ensures Here(rq, tally, a, x) <= Here(rq, tally, b, x)
  {
    if x in a && x in rq.catalogue {
      RunsMonotone(a[x], b[x], rq.catalogue[x].productQuantity);
    }
  }

  /** Asking for more never lowers any tally; the types met do not depend on the quantity. */
  lemma {:induction false} WalkMonotone(rq: Request, more: int, d: nat)
    requires rq.quantity <= more
    ensures AtMost(LevelAt(rq, d), LevelAt(rq.(quantity := more), d))
    ensures forall tally, x :: After(rq, tally, d, x) <= After(rq.(quantity := more), tally, d, x)
    ensures StepTypes(rq, d) == StepTypes(rq.(quantity := more), d)
    ensures LeafTypes(rq, d) == LeafTypes(rq.(quantity := more), d)
  {
    hide Next;
    hide Here;
    if d > 0 {
      WalkMonotone(rq, more, d - 1);
      var rq' := rq.(quantity := more);
      var a, b := LevelAt(rq, d - 1), LevelAt(rq', d - 1);
      NextSame(rq, rq', b);
      NextMonotone(rq, a, b);
      forall tally, x
        ensures Here(rq, tally, a, x) <= Here(rq', tally, b, x)
      {
        HereMonotone(rq, tally, a, b, x);
        HereSame(rq, rq', tally, b, x);
      }
    }
  }

  ghost predicate SumAtLeastOf(a: Level, b: Level, both: Level) {
    a.Keys == b.Keys == both.Keys && forall t :: t in both ==> both[t] <= a[t] + b[t]
  }

  lemma PassedSubadditive(rq: Request, t: TypeId, a: int, b: int, m: TypeId)
    ensures Passed(rq, t, a + b, m) <= Passed(rq, t, a, m) + Passed(rq, t, b, m)
  {
    if rq.Expands(t) {
      RunsSubadditive(a, b, rq.catalogue[t].productQuantity);
      ScaleLe(rq.Runs(t, a + b), rq.Runs(t, a), rq.Runs(t, b), rq.Uses(t, m));
    }
  }

  lemma ScaleLe(whole: int, part: int, rest: int, uses: nat)
    requires whole <= part + rest
    ensures whole * uses <= part * uses + rest * uses
  {
    assert 0 <= (part + rest - whole) * uses;
    assert (part + rest - whole) * uses == part * uses + rest * uses - whole * uses;
  }

  ghost function BothFlows(rq: Request, a: Level, b: Level, m: TypeId): int -> int {
    t => Flow(rq, a, m)(t) + Flow(rq, b, m)(t)
  }

  lemma FlowSubadditive(rq: Request, a: Level, b: Level, both: Level, m: TypeId, t: TypeId)
    requires SumAtLeastOf(a, b, both)
    ensures Flow(rq, both, m)(t) <= BothFlows(rq, a, b, m)(t)
  {
    hide Passed;
    if t in both {
      PassedMonotone(rq, t, both[t], a[t] + b[t], m);
      PassedSubadditive(rq, t, a[t], b[t], m);
    }
    assert BothFlows(rq, a, b, m)(t) == Flow(rq, a, m)(t) + Flow(rq, b, m)(t);
  }

  lemma NextSubadditive(rq: Request, a: Level, b: Level, both: Level)
    requires SumAtLeastOf(a, b, both)
    ensures SumAtLeastOf(Next(rq, a), Next(rq, b), Next(rq, both))
  {
    hide SumOver;
    hide Flow;
    forall m | m in NextTypes(rq, a)
      ensures Next(rq, both)[m] <= Next(rq, a)[m] + Next(rq, b)[m]
    {
      forall t | t in a.Keys
        ensures Flow(rq, both, m)(t) <= BothFlows(rq, a, b, m)(t)
      {
        FlowSubadditive(rq, a, b, both, m, t);
      }
      SumLe(a.Keys, Flow(rq, both, m), BothFlows(rq, a, b, m));
      SumAdd(a.Keys, Flow(rq, a, m), Flow(rq, b, m), BothFlows(rq, a, b, m));
    }
  }

  lemma HereSubadditive(rq: Request, tally: Tally, a: Level, b: Level, both: Level, x: TypeId)
    requires SumAtLeastOf(a, b, both)
    ensures Here(rq, tally, both, x) <= Here(rq, tally, a, x) + Here(rq, tally, b, x)
  {
    if x in both && x in rq.catalogue {
      RunsMonotone(both[x], a[x] + b[x], rq.catalogue[x].productQuantity);
      RunsSubadditive(a[x], b[x], rq.catalogue[x].productQuantity);
    }
  }

  /** One order for the sum never takes more of anything than two separate orders. */
  lemma {:induction false} WalkSubadditive(rq: Request, more: int, d: nat)
    ensures SumAtLeastOf(LevelAt(rq, d), LevelAt(rq.(quantity := more), d),
                         LevelAt(rq.(quantity := rq.quantity + more), d))
    ensures forall tally, x :: After(rq.(quantity := rq.quantity + more), tally, d, x)
                            <= After(rq, tally, d, x) + After(rq.(quantity := more), tally, d, x)
  {
    hide Next;
    hide Here;
    if d > 0 {
      WalkSubadditive(rq, more, d - 1);
      var rq1, rq2 := rq.(quantity := more), rq.(quantity := rq.quantity + more);
      var a, b, both := LevelAt(rq, d - 1), LevelAt(rq1, d - 1), LevelAt(rq2, d - 1);
      NextSame(rq, rq1, b);
      NextSame(rq, rq2, both);
      NextSubadditive(rq, a, b, both);
      forall tally, x
        ensures Here(rq2, tally, both, x) <= Here(rq, tally, a, x) + Here(rq1, tally, b, x)
      {
        HereSubadditive(rq, tally, a, b, both, x);
        HereSame(rq, rq1, tally, b, x);
        HereSame(rq, rq2, tally, both, x);
      }
    }
  }

  // Two requests that agree on every type met: build-set locality, and material order

  /** `t` is treated alike: expanded or not, and with the same recipe when it is. */
  ghost predicate SameRecipe(rq: Request, rq': Request, t: TypeId) {
    && rq.Expands(t) == rq'.Expands(t)
    && (rq.Expands(t) ==>
          && rq.catalogue[t].productQuantity == rq'.catalogue[t].productQuantity
          && forall m :: rq.Uses(t, m) == rq'.Uses(t, m))
  }

  lemma SameRecipeParts(rq: Request, rq': Request, t: TypeId)
    requires SameRecipe(rq, rq', t) && rq.Expands(t)
    ensures rq.Ingredients(t) == rq'.Ingredients(t)
    ensures forall q :: rq.Runs(t, q) == rq'.Runs(t, q)
    ensures forall q, m :: Passed(rq, t, q, m) == Passed(rq', t, q, m)
  {
    forall m
      ensures m in rq.Ingredients(t) <==> m in rq'.Ingredients(t)
    {
      assert rq.Uses(t, m) == rq'.Uses(t, m);
      LineTotalPositive(rq.catalogue[t].materials, m);
      LineTotalPositive(rq'.catalogue[t].materials, m);
    }
    forall q, m
      ensures Passed(rq, t, q, m) == Passed(rq', t, q, m)
    {
      assert rq.Uses(t, m) == rq'.Uses(t, m);
    }
  }

  lemma NextSame(rq: Request, rq': Request, level: Level)
    requires forall t :: t in level ==> SameRecipe(rq, rq', t)
    ensures Next(rq, level) == Next(rq', level)
  {
    hide SumOver;
    hide Passed;
    forall t | t in level && rq.Expands(t)
      ensures rq.Ingredients(t) == rq'.Ingredients(t)
      ensures forall q, m :: Passed(rq, t, q, m) == Passed(rq', t, q, m)
    {
      SameRecipeParts(rq, rq', t);
    }
    NextTypesSame(rq, rq', level);
    forall m
      ensures SumOver(level.Keys, Flow(rq, level, m)) == SumOver(level.Keys, Flow(rq', level, m))
    {
      forall t | t in level.Keys
        ensures Flow(rq, level, m)(t) == Flow(rq', level, m)(t)
      {
        PassedSame(rq, rq', t, level[t], m);
      }
      SumSame(level.Keys, Flow(rq, level, m), Flow(rq', level, m));
    }
    SameMap(Next(rq, level), Next(rq', level));
  }

  lemma NextTypesSame(rq: Request, rq': Request, level: Level)
    requires forall t :: t in level ==> SameRecipe(rq, rq', t)
    ensures NextTypes(rq, level) == NextTypes(rq', level)
  {
    forall t | t in level && rq.Expands(t)
      ensures rq.Ingredients(t) == rq'.Ingredients(t)
    {
      SameRecipeParts(rq, rq', t);
    }
  }

  lemma PassedSame(rq: Request, rq': Request, t: TypeId, q: int, m: TypeId)
    requires SameRecipe(rq, rq', t)
    ensures Passed(rq, t, q, m) == Passed(rq', t, q, m)
  {
    if rq.Expands(t) {
      SameRecipeParts(rq, rq', t);
    }
  }

  lemma HereSame(rq: Request, rq': Request, tally: Tally, level: Level, x: TypeId)
    requires x in level ==> SameRecipe(rq, rq', x)
    ensures Here(rq, tally, level, x) == Here(rq', tally, level, x)
  {
  }

  /** The walk only reads the recipes of the types it meets before the guard. */
  lemma {:induction false} WalkLocal(rq: Request, rq': Request, d: nat)
    requires rq.target == rq'.target && rq.quantity == rq'.quantity
    requires forall e: nat, t :: e < d && t in LevelAt(rq, e) ==> SameRecipe(rq, rq', t)
    ensures LevelAt(rq, d) == LevelAt(rq', d)
    ensures StepTypes(rq, d) == StepTypes(rq', d) && LeafTypes(rq, d) == LeafTypes(rq', d)
    ensures forall tally, x :: After(rq, tally, d, x) == After(rq', tally, d, x)
  {
    hide Next;
    hide Here;
    if d > 0 {
      WalkLocal(rq, rq', d - 1);
      var level := LevelAt(rq, d - 1);
      assert forall t :: t in level ==> SameRecipe(rq, rq', t);
      NextSame(rq, rq', level);
      forall tally, x
        ensures Here(rq, tally, level, x) == Here(rq', tally, level, x)
      {
        HereSame(rq, rq', tally, level, x);
      }
    }
  }
}
