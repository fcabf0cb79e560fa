/** The demand that `resolve_build_chain` pushes down the recipe graph, one level at a time,
    as a pure function of the request: no iteration order, no mutable step. */
module LevelWalk {
  import opened Maps
  import opened Sums
  import opened Recipes

  const MAX_DEPTH: nat := 15

  type Level = map<TypeId, int>

  /** What a walk accumulates for a type: demand met by a step, runs of that step, raw demand. */
  datatype Tally = Needed | Runs | Raw

  /** `d` after the demand of `runs` runs of a recipe has been added line by line. */
  function Added(d: Level, lines: seq<Material>, runs: int): Level {
    map m | m in d.Keys + LineTypes(lines) :: Get(d, m) + Consumed(lines, runs, m)
  }

  function Consumed(lines: seq<Material>, runs: int, m: TypeId): int {
    runs * LineTotal(lines, m)
  }

  /** What demand `q` for `t` asks of `m` one level down. */
  function Passed(rq: Request, t: TypeId, q: int, m: TypeId): int {
    if rq.Expands(t) then Consumed(rq.catalogue[t].materials, rq.Runs(t, q), m) else 0
  }

  function Expanded(rq: Request, level: Level): set<TypeId> {
    set t | t in level && rq.Expands(t)
  }

  function NextTypes(rq: Request, level: Level): set<TypeId> {
    set t, m | t in level && rq.Expands(t) && m in rq.Ingredients(t) :: m
  }

  /** Demand for `m` that a type of this level passes down. */
  ghost function Flow(rq: Request, level: Level, m: TypeId): int -> int {
    t => if t in level then Passed(rq, t, level[t], m) else 0
  }

  /** The level below: for each material, the sum of what every expanded type consumes. */
  ghost function Next(rq: Request, level: Level): Level {
    map m | m in NextTypes(rq, level) :: SumOver(level.Keys, Flow(rq, level, m))
  }

  ghost function LevelAt(rq: Request, d: nat): Level {
    if d == 0 then map[rq.target := rq.quantity] else Next(rq, LevelAt(rq, d - 1))
  }

  /** What one level contributes to a tally of `x`. */
  function Here(rq: Request, tally: Tally, level: Level, x: TypeId): int {
    if x !in level then 0
    else match tally
      case Needed => if rq.Expands(x) then level[x] else 0
      case Runs => if rq.Expands(x) then rq.Runs(x, level[x]) else 0
      case Raw => if rq.Expands(x) then 0 else level[x]
  }

  /** The tally of `x` after `d` levels. */
  ghost function After(rq: Request, tally: Tally, d: nat, x: TypeId): int {
    if d == 0 then 0
    else After(rq, tally, d - 1, x) + Here(rq, tally, LevelAt(rq, d - 1), x)
  }

  ghost function StepTypes(rq: Request, d: nat): set<TypeId> {
    if d == 0 then {} else StepTypes(rq, d - 1) + Expanded(rq, LevelAt(rq, d - 1))
  }

  /** Types met unexpanded in the first `d` levels. */
  ghost function LeafTypes(rq: Request, d: nat): set<TypeId> {
    if d == 0 then {}
    else LeafTypes(rq, d - 1) + (LevelAt(rq, d - 1).Keys - Expanded(rq, LevelAt(rq, d - 1)))
  }

  /** The final tallies: whatever is still pending at the depth guard counts as raw. */
  ghost function Total(rq: Request, tally: Tally, x: TypeId): int {
    After(rq, tally, MAX_DEPTH, x) + if tally == Raw then Get(LevelAt(rq, MAX_DEPTH), x) else 0
  }

  ghost function RawTypes(rq: Request): set<TypeId> {
    LeafTypes(rq, MAX_DEPTH) + LevelAt(rq, MAX_DEPTH).Keys
  }

  /** No demand is left when the depth guard stops the walk. */
  ghost predicate Drains(rq: Request) {
    LevelAt(rq, MAX_DEPTH) == map[]
  }

  // Building the next level one type at a time

  lemma NextOfNothing(rq: Request)
    ensures Next(rq, map[]) == map[]
  {
  }

  lemma FlowExtend(rq: Request, level: Level, t: TypeId, q: int, m: TypeId)
    requires t !in level
    ensures SumOver(level[t := q].Keys, Flow(rq, level[t := q], m))
         == SumOver(level.Keys, Flow(rq, level, m)) + Passed(rq, t, q, m)
  {
    var more := level[t := q];
    SumPick(more.Keys, Flow(rq, more, m), t);
    assert more.Keys - {t} == level.Keys;
    SumSame(level.Keys, Flow(rq, more, m), Flow(rq, level, m));
  }

  /** Outside the next level's keys nothing flows. */
  lemma FlowElsewhere(rq: Request, level: Level, m: TypeId)
    ensures Get(Next(rq, level), m) == SumOver(level.Keys, Flow(rq, level, m))
  {
    if m !in NextTypes(rq, level) {
      forall t | t in level.Keys
        ensures Flow(rq, level, m)(t) == 0
      {
        if rq.Expands(t) {
          assert m !in rq.Ingredients(t);
          LineTotalPositive(rq.catalogue[t].materials, m);
        }
      }
      SumSupport({}, level.Keys, Flow(rq, level, m));
    }
  }

  lemma NextTypesExtend(rq: Request, level: Level, t: TypeId, q: int)
    requires t !in level
    ensures NextTypes(rq, level[t := q])
         == NextTypes(rq, level) + if rq.Expands(t) then rq.Ingredients(t) else {}
  {
    var more := level[t := q];
    forall m
      ensures m in NextTypes(rq, more)
         <==> m in NextTypes(rq, level) || (rq.Expands(t) && m in rq.Ingredients(t))
    {
      if m in NextTypes(rq, level) {
        var s :| s in level && rq.Expands(s) && m in rq.Ingredients(s);
        assert s in more;
      }
    }
  }

  lemma NextEntryExtend(rq: Request, level: Level, t: TypeId, q: int, m: TypeId)
    requires t !in level
    ensures Get(Next(rq, level[t := q]), m) == Get(Next(rq, level), m) + Passed(rq, t, q, m)
  {
    FlowElsewhere(rq, level[t := q], m);
    FlowElsewhere(rq, level, m);
    FlowExtend(rq, level, t, q, m);
  }

  lemma NextKeys(rq: Request, level: Level)
    ensures Next(rq, level).Keys == NextTypes(rq, level)
  {
  }

  lemma PassedOn(rq: Request, t: TypeId, q: int)
    ensures rq.Expands(t) ==>
              forall m :: Passed(rq, t, q, m) == Consumed(rq.catalogue[t].materials, rq.Runs(t, q), m)
    ensures !rq.Expands(t) ==> forall m :: Passed(rq, t, q, m) == 0
  {
  }

  lemma NextExtend(rq: Request, level: Level, t: TypeId, q: int)
    requires t !in level
    ensures rq.Expands(t) ==>
              Next(rq, level[t := q]) == Added(Next(rq, level), rq.catalogue[t].materials, rq.Runs(t, q))
    ensures !rq.Expands(t) ==> Next(rq, level[t := q]) == Next(rq, level)
  {
    hide Consumed;
    hide NextTypes;
    hide Next;
    hide RunsFor;
    hide Passed;
    var before, after := Next(rq, level), Next(rq, level[t := q]);
    NextTypesExtend(rq, level, t, q);
    NextKeys(rq, level);
    NextKeys(rq, level[t := q]);
    forall m
      ensures Get(after, m) == Get(before, m) + Passed(rq, t, q, m)
    {
      NextEntryExtend(rq, level, t, q, m);
    }
    PassedOn(rq, t, q);
    if rq.Expands(t) {
      SameEntries(after, Added(before, rq.catalogue[t].materials, rq.Runs(t, q)));
    } else {
      SameEntries(after, before);
    }
  }

  lemma SameEntries(a: Level, b: Level)
    requires a.Keys == b.Keys
    requires forall m :: m in a ==> Get(a, m) == Get(b, m)
    ensures a == b
  {
    forall m | m in a
      ensures a[m] == b[m]
    {
      assert Get(a, m) == Get(b, m);
    }
    SameMap(a, b);
  }

  // A walk that has run dry stays dry

  lemma EmptyLevelAdds(rq: Request, d: nat)
    requires LevelAt(rq, d) == map[]
    ensures LevelAt(rq, d + 1) == map[]
    ensures StepTypes(rq, d + 1) == StepTypes(rq, d) && LeafTypes(rq, d + 1) == LeafTypes(rq, d)
    ensures forall tally, x :: After(rq, tally, d + 1, x) == After(rq, tally, d, x)
  {
    hide Next, Here;
    NextOfNothing(rq);
    forall tally, x
      ensures After(rq, tally, d + 1, x) == After(rq, tally, d, x)
    {
      NothingHere(rq, tally, x);
    }
  }

  lemma NothingHere(rq: Request, tally: Tally, x: TypeId)
    ensures Here(rq, tally, map[], x) == 0
  {
  }

  lemma {:induction false} StaysEmpty(rq: Request, d: nat, e: nat)
    requires d <= e && LevelAt(rq, d) == map[]
    ensures LevelAt(rq, e) == map[]
    ensures StepTypes(rq, e) == StepTypes(rq, d) && LeafTypes(rq, e) == LeafTypes(rq, d)
    ensures forall tally, x :: After(rq, tally, e, x) == After(rq, tally, d, x)
  {
    hide LevelAt, StepTypes, LeafTypes, After;
    if d < e {
      StaysEmpty(rq, d, e - 1);
      EmptyLevelAdds(rq, e - 1);
    }
  }
}
