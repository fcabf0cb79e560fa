/** The level loop of `resolve_build_chain`, with steps updated in place. A Python dict is walked
    in an arbitrary order here, so what is proved holds for every insertion order. */
module ChainResolver {
  import opened Maps
  import opened Sums
  import opened Recipes
  import opened LevelWalk
  import opened Chains

  datatype StepView = StepView(quantityNeeded: int, runs: int, productQuantity: Count,
                               materials: map<TypeId, int>)

  class BuildStep {
    const typeId: TypeId
    var quantityNeeded: int
    var runs: int
    const productQuantity: Count
    var materials: map<TypeId, int>

    constructor (typeId: TypeId, productQuantity: Count)
      ensures this.typeId == typeId
      ensures View() == StepView(0, 0, productQuantity, map[])
    {
      this.typeId := typeId;
      this.productQuantity := productQuantity;
      quantityNeeded, runs, materials := 0, 0, map[];
    }

    function View(): StepView
      reads this
    {
      StepView(quantityNeeded, runs, productQuantity, materials)
    }
  }

  /** The step objects, one per key, show exactly the values of `model`. */
  ghost predicate Shows(steps: map<TypeId, BuildStep>, model: map<TypeId, StepView>)
    reads steps.Values
  {
    && steps.Keys == model.Keys
    && forall t :: t in steps ==> steps[t].typeId == t && steps[t].View() == model[t]
  }

  // The state of the loop: `d` whole levels and the part `done` of the next one are processed

  ghost function StepKeys(rq: Request, d: nat, done: Level): set<TypeId> {
    StepTypes(rq, d) + Expanded(rq, done)
  }

  ghost function StepEntry(rq: Request, d: nat, done: Level, t: TypeId): StepView
    requires t in rq.catalogue
  {
    var runs := After(rq, Runs, d, t) + Here(rq, Runs, done, t);
    StepView(After(rq, Needed, d, t) + Here(rq, Needed, done, t), runs,
             rq.catalogue[t].productQuantity, Scaled(rq, t, runs))
  }

  ghost function StepModel(rq: Request, d: nat, done: Level): map<TypeId, StepView> {
    map t | t in StepKeys(rq, d, done) && t in rq.catalogue :: StepEntry(rq, d, done, t)
  }

  /** The recipe of `t` times `runs`. */
  function Scaled(rq: Request, t: TypeId, runs: int): map<TypeId, int> {
    map m | m in rq.Ingredients(t) :: runs * rq.Uses(t, m)
  }

  ghost function RawKeys(rq: Request, d: nat, done: Level): set<TypeId> {
    LeafTypes(rq, d) + (done.Keys - Expanded(rq, done))
  }

  ghost function RawEntry(rq: Request, d: nat, done: Level, t: TypeId): int {
    After(rq, Raw, d, t) + Here(rq, Raw, done, t)
  }

  ghost function RawModel(rq: Request, d: nat, done: Level): map<TypeId, int> {
    map t | t in RawKeys(rq, d, done) :: RawEntry(rq, d, done, t)
  }

  ghost function BuildableModel(rq: Request, d: nat, done: Level): map<TypeId, bool> {
    map t | t in RawKeys(rq, d, done) :: t in rq.catalogue
  }

  lemma KeysAdvance(rq: Request, d: nat)
    ensures StepKeys(rq, d + 1, map[]) == StepKeys(rq, d, LevelAt(rq, d))
    ensures RawKeys(rq, d + 1, map[]) == RawKeys(rq, d, LevelAt(rq, d))
  {
    assert Expanded(rq, map[]) == {};
  }

  lemma TallyAdvances(rq: Request, tally: Tally, d: nat, t: TypeId)
    ensures After(rq, tally, d + 1, t) + Here(rq, tally, map[], t)
         == After(rq, tally, d, t) + Here(rq, tally, LevelAt(rq, d), t)
  {
  }

  lemma EntryAdvances(rq: Request, d: nat, t: TypeId)
    requires t in rq.catalogue
    ensures StepEntry(rq, d + 1, map[], t) == StepEntry(rq, d, LevelAt(rq, d), t)
  {
    TallyAdvances(rq, Needed, d, t);
    TallyAdvances(rq, Runs, d, t);
    hide After;
    hide LevelAt;
    hide Scaled;
  }

  lemma StepsAdvance(rq: Request, d: nat)
    ensures StepModel(rq, d + 1, map[]) == StepModel(rq, d, LevelAt(rq, d))
  {
    hide StepEntry;
    hide StepKeys;
    KeysAdvance(rq, d);
    forall t | t in rq.catalogue
      ensures StepEntry(rq, d + 1, map[], t) == StepEntry(rq, d, LevelAt(rq, d), t)
    {
      EntryAdvances(rq, d, t);
    }
    SameMap(StepModel(rq, d + 1, map[]), StepModel(rq, d, LevelAt(rq, d)));
  }

  lemma RawAdvances(rq: Request, d: nat)
    ensures RawModel(rq, d + 1, map[]) == RawModel(rq, d, LevelAt(rq, d))
    ensures BuildableModel(rq, d + 1, map[]) == BuildableModel(rq, d, LevelAt(rq, d))
  {
    KeysAdvance(rq, d);
    forall t
      ensures RawEntry(rq, d + 1, map[], t) == RawEntry(rq, d, LevelAt(rq, d), t)
    {
      TallyAdvances(rq, Raw, d, t);
    }
    SameMap(RawModel(rq, d + 1, map[]), RawModel(rq, d, LevelAt(rq, d)));
    SameMap(BuildableModel(rq, d + 1, map[]), BuildableModel(rq, d, LevelAt(rq, d)));
  }

  lemma ModelsAtStart(rq: Request)
    ensures StepModel(rq, 0, map[]) == map[] && RawModel(rq, 0, map[]) == map[]
    ensures BuildableModel(rq, 0, map[]) == map[]
    ensures LevelAt(rq, 0) == map[rq.target := rq.quantity]
  {
  }

  // The loop

  /** The demand of one material line, added to whatever was asked of it before. */
  function Bumped(d: Level, line: Material, runs: int): Level {
    d[line.typeId := Get(d, line.typeId) + line.quantity * runs]
  }

  /** The material lines of one expanded type: both dicts grow by the same demand. */
  method AddMaterials(step: BuildStep, lines: seq<Material>, additionalRuns: int, nextLevel: Level)
    returns (nextLevel': Level)
    modifies step`materials
    ensures step.materials == Added(old(step.materials), lines, additionalRuns)
    ensures nextLevel' == Added(nextLevel, lines, additionalRuns)
  {
    nextLevel' := nextLevel;
    var i := 0;
    assert Added(step.materials, [], additionalRuns) == step.materials;
    assert Added(nextLevel, [], additionalRuns) == nextLevel;
    while i < |lines|
      invariant 0 <= i <= |lines|
      invariant step.materials == Added(old(step.materials), lines[..i], additionalRuns)
      invariant nextLevel' == Added(nextLevel, lines[..i], additionalRuns)
    {
      AddedOneMore(old(step.materials), lines, i, additionalRuns);
      AddedOneMore(nextLevel, lines, i, additionalRuns);
      step.materials := Bumped(step.materials, lines[i], additionalRuns);
      nextLevel' := Bumped(nextLevel', lines[i], additionalRuns);
      i := i + 1;
    }
    assert lines[..i] == lines;
  }

  lemma AddedOneMore(d: Level, lines: seq<Material>, i: nat, runs: int)
    requires i < |lines|
    ensures Added(d, lines[..i + 1], runs) == Bumped(Added(d, lines[..i], runs), lines[i], runs)
  {
    hide Consumed;
    var line := lines[i];
    var after, before := Added(d, lines[..i + 1], runs), Added(d, lines[..i], runs);
    assert lines[..i + 1] == lines[..i] + [line];
    assert after.Keys == before.Keys + {line.typeId};
    forall m | m in after
      ensures Get(after, m) == Get(Bumped(before, line, runs), m)
    {
      OneMoreLine(lines[..i], line, m, runs);
    }
    SameEntries(after, Bumped(before, line, runs));
  }

  lemma OneMoreLine(front: seq<Material>, line: Material, m: TypeId, runs: int)
    ensures Consumed(front + [line], runs, m)
         == Consumed(front, runs, m) + if line.typeId == m then line.quantity * runs else 0
    ensures m !in LineTypes(front) ==> Consumed(front, runs, m) == 0
  {
    var all := front + [line];
    assert all[..|all| - 1] == front;
    var more: int := if line.typeId == m then line.quantity else 0;
    assert runs * (LineTotal(front, m) + more) == runs * LineTotal(front, m) + runs * more;
    LineTotalPositive(front, m);
  }

  // One type of the current level

  lemma StepEntryElsewhere(rq: Request, d: nat, done: Level, t: TypeId, q: int, s: TypeId)
    requires t !in done && s in rq.catalogue && (s != t || !rq.Expands(t))
    ensures StepEntry(rq, d, done[t := q], s) == StepEntry(rq, d, done, s)
  {
  }

  lemma StepModelOther(rq: Request, d: nat, done: Level, t: TypeId, q: int)
    requires t !in done && !rq.Expands(t)
    ensures StepModel(rq, d, done[t := q]) == StepModel(rq, d, done)
  {
    assert Expanded(rq, done[t := q]) == Expanded(rq, done);
    forall s | s in rq.catalogue
      ensures StepEntry(rq, d, done[t := q], s) == StepEntry(rq, d, done, s)
    {
      StepEntryElsewhere(rq, d, done, t, q, s);
    }
    hide StepEntry;
    SameMap(StepModel(rq, d, done[t := q]), StepModel(rq, d, done));
  }

  /** What the step for `t` shows before its share of this level, created empty if need be. */
  ghost function EntryBefore(rq: Request, d: nat, done: Level, t: TypeId): StepView
    requires t in rq.catalogue
  {
    var model := StepModel(rq, d, done);
    if t in model then model[t] else StepView(0, 0, rq.catalogue[t].productQuantity, map[])
  }

  lemma {:induction false} NeverStepped(rq: Request, tally: Tally, d: nat, t: TypeId)
    requires t !in StepTypes(rq, d) && tally != Raw
    ensures After(rq, tally, d, t) == 0
  {
    hide LevelAt;
    if d > 0 {
      NeverStepped(rq, tally, d - 1, t);
    }
  }

  lemma {:induction false} NeverLeaf(rq: Request, d: nat, t: TypeId)
    requires t !in LeafTypes(rq, d)
    ensures After(rq, Raw, d, t) == 0
  {
    hide LevelAt;
    if d > 0 {
      NeverLeaf(rq, d - 1, t);
    }
  }

  lemma BumpedEntry(rq: Request, d: nat, done: Level, t: TypeId, q: int)
    requires t !in done && rq.Expands(t)
    ensures var before, after := EntryBefore(rq, d, done, t), StepEntry(rq, d, done[t := q], t);
      && after.quantityNeeded == before.quantityNeeded + q
      && after.runs == before.runs + rq.Runs(t, q)
      && after.productQuantity == before.productQuantity
      && after.materials == Added(before.materials, rq.catalogue[t].materials, rq.Runs(t, q))
  {
    hide After;
    hide LevelAt;
    hide StepTypes;
    if t !in StepTypes(rq, d) {
      NeverStepped(rq, Needed, d, t);
      NeverStepped(rq, Runs, d, t);
    }
    ScaledGrows(rq, t, After(rq, Runs, d, t), rq.Runs(t, q));
    hide Scaled;
    hide Added;
  }

  lemma ScaledGrows(rq: Request, t: TypeId, runs: int, more: int)
    requires t in rq.catalogue
    ensures Added(Scaled(rq, t, runs), rq.catalogue[t].materials, more) == Scaled(rq, t, runs + more)
    ensures Added(map[], rq.catalogue[t].materials, more) == Scaled(rq, t, more)
  {
    forall m
      ensures runs * rq.Uses(t, m) + more * rq.Uses(t, m) == (runs + more) * rq.Uses(t, m)
    {
    }
    SameMap(Added(Scaled(rq, t, runs), rq.catalogue[t].materials, more), Scaled(rq, t, runs + more));
    SameMap(Added(map[], rq.catalogue[t].materials, more), Scaled(rq, t, more));
  }

  lemma StepModelGrows(rq: Request, d: nat, done: Level, t: TypeId, q: int)
    requires t !in done && rq.Expands(t)
    ensures StepModel(rq, d, done[t := q])
         == StepModel(rq, d, done)[t := StepEntry(rq, d, done[t := q], t)]
  {
    assert Expanded(rq, done[t := q]) == Expanded(rq, done) + {t};
    forall s | s in rq.catalogue && s != t
      ensures StepEntry(rq, d, done[t := q], s) == StepEntry(rq, d, done, s)
    {
      StepEntryElsewhere(rq, d, done, t, q, s);
    }
    hide StepEntry;
    SameMap(StepModel(rq, d, done[t := q]),
            StepModel(rq, d, done)[t := StepEntry(rq, d, done[t := q], t)]);
  }

  lemma RawModelGrows(rq: Request, d: nat, done: Level, t: TypeId, q: int)
    requires t !in done && !rq.Expands(t)
    ensures var raw := RawModel(rq, d, done); RawModel(rq, d, done[t := q]) == raw[t := Get(raw, t) + q]
    ensures BuildableModel(rq, d, done[t := q]) == BuildableModel(rq, d, done)[t := t in rq.catalogue]
  {
    hide After;
    hide LevelAt;
    var more := done[t := q];
    assert Expanded(rq, more) == Expanded(rq, done);
    assert RawKeys(rq, d, more) == RawKeys(rq, d, done) + {t};
    if t !in LeafTypes(rq, d) {
      NeverLeaf(rq, d, t);
    }
    hide LeafTypes;
    var raw := RawModel(rq, d, done);
    SameMap(RawModel(rq, d, more), raw[t := Get(raw, t) + q]);
    SameMap(BuildableModel(rq, d, more), BuildableModel(rq, d, done)[t := t in rq.catalogue]);
  }

  lemma RawModelOther(rq: Request, d: nat, done: Level, t: TypeId, q: int)
    requires t !in done && rq.Expands(t)
    ensures RawModel(rq, d, done[t := q]) == RawModel(rq, d, done)
    ensures BuildableModel(rq, d, done[t := q]) == BuildableModel(rq, d, done)
  {
    var more := done[t := q];
    assert Expanded(rq, more) == Expanded(rq, done) + {t};
    assert RawKeys(rq, d, more) == RawKeys(rq, d, done);
    SameMap(RawModel(rq, d, more), RawModel(rq, d, done));
    SameMap(BuildableModel(rq, d, more), BuildableModel(rq, d, done));
  }

  /** One type of the level: booked as raw, or taken on by its step and passed down. */
  method ProcessType(rq: Request, ghost d: nat, ghost done: Level, t: TypeId, quantity: int,
                     steps: map<TypeId, BuildStep>, raw: map<TypeId, int>,
                     rawBuildable: map<TypeId, bool>, nextLevel: Level)
    returns (steps': map<TypeId, BuildStep>, raw': map<TypeId, int>,
             rawBuildable': map<TypeId, bool>, nextLevel': Level)
    requires t !in done
    requires Shows(steps, StepModel(rq, d, done))
    requires raw == RawModel(rq, d, done) && rawBuildable == BuildableModel(rq, d, done)
    requires nextLevel == Next(rq, done)
    modifies steps.Values
    ensures Shows(steps', StepModel(rq, d, done[t := quantity]))
    ensures fresh(steps'.Values - steps.Values)
    ensures raw' == RawModel(rq, d, done[t := quantity])
    ensures rawBuildable' == BuildableModel(rq, d, done[t := quantity])
    ensures nextLevel' == Next(rq, done[t := quantity])
    ensures if t in rq.catalogue && (t == rq.target || t in rq.buildSet) then
              && steps'.Keys == steps.Keys + {t} && raw' == raw && rawBuildable' == rawBuildable
              && steps'[t].quantityNeeded == quantity + (if t in steps then old(steps[t].quantityNeeded) else 0)
            else
              && steps' == steps && nextLevel' == nextLevel
              && raw' == raw[t := Get(raw, t) + quantity] && rawBuildable' == rawBuildable[t := t in rq.catalogue]
  {
    hide StepModel;
    hide StepEntry;
    hide RawModel;
    hide BuildableModel;
    hide Next;
    hide Added;
    steps', raw', rawBuildable', nextLevel' := steps, raw, rawBuildable, nextLevel;
    NextExtend(rq, done, t, quantity);
    if t !in rq.catalogue || (t != rq.target && t !in rq.buildSet) {
      raw' := raw[t := Get(raw, t) + quantity];
      rawBuildable' := rawBuildable[t := t in rq.catalogue];
      RawModelGrows(rq, d, done, t, quantity);
      StepModelOther(rq, d, done, t, quantity);
    } else {
      RawModelOther(rq, d, done, t, quantity);
      StepModelGrows(rq, d, done, t, quantity);
      BumpedEntry(rq, d, done, t, quantity);
      var blueprint := rq.catalogue[t];
      var additionalRuns := RunsFor(quantity, blueprint.productQuantity);
      if t !in steps {
        var created := new BuildStep(t, blueprint.productQuantity);
        steps' := steps[t := created];
      }
      nextLevel' := Supply(steps'[t], quantity, additionalRuns, blueprint.materials, nextLevel);
    }
  }

  /** The step takes on one batch of demand; its materials and the next level grow alike. */
  method Supply(step: BuildStep, quantity: int, additionalRuns: int, lines: seq<Material>,
                nextLevel: Level)
    returns (nextLevel': Level)
    modifies step
    ensures step.quantityNeeded == old(step.quantityNeeded) + quantity
    ensures step.runs == old(step.runs) + additionalRuns
    ensures step.materials == Added(old(step.materials), lines, additionalRuns)
    ensures nextLevel' == Added(nextLevel, lines, additionalRuns)
  {
    step.quantityNeeded := step.quantityNeeded + quantity;
    step.runs := step.runs + additionalRuns;
    nextLevel' := AddMaterials(step, lines, additionalRuns, nextLevel);
  }

  // Whole levels, and the fold of what the depth guard leaves over

  method ProcessLevel(rq: Request, ghost d: nat, level: Level, steps: map<TypeId, BuildStep>,
                      raw: map<TypeId, int>, rawBuildable: map<TypeId, bool>)
    returns (steps': map<TypeId, BuildStep>, raw': map<TypeId, int>,
             rawBuildable': map<TypeId, bool>, nextLevel: Level)
    requires level == LevelAt(rq, d)
    requires Shows(steps, StepModel(rq, d, map[]))
    requires raw == RawModel(rq, d, map[]) && rawBuildable == BuildableModel(rq, d, map[])
    modifies steps.Values
    ensures Shows(steps', StepModel(rq, d + 1, map[]))
    ensures fresh(steps'.Values - steps.Values)
    ensures raw' == RawModel(rq, d + 1, map[]) && rawBuildable' == BuildableModel(rq, d + 1, map[])
    ensures nextLevel == LevelAt(rq, d + 1)
  {
    steps', raw', rawBuildable', nextLevel := steps, raw, rawBuildable, map[];
    NextOfNothing(rq);
    StepsAdvance(rq, d);
    RawAdvances(rq, d);
    hide StepModel;
    hide RawModel;
    hide BuildableModel;
    hide Next;
    ghost var done: Level := map[];
    var remaining := level.Keys;
    while remaining != {}
      invariant remaining <= level.Keys && done.Keys == level.Keys - remaining
      invariant forall t :: t in done ==> done[t] == level[t]
      invariant Shows(steps', StepModel(rq, d, done))
      invariant fresh(steps'.Values - steps.Values)
      invariant raw' == RawModel(rq, d, done) && rawBuildable' == BuildableModel(rq, d, done)
      invariant nextLevel == Next(rq, done)
      decreases remaining
    {
      HasElement(remaining);
      var t :| t in remaining;
      steps', raw', rawBuildable', nextLevel :=
        ProcessType(rq, d, done, t, level[t], steps', raw', rawBuildable', nextLevel);
      done := done[t := level[t]];
      remaining := remaining - {t};
    }
    assert forall t :: t in level ==> level[t] == done[t];
    SameMap(level, done);
  }

  /** raw_totals and raw_buildable after the demand still pending is treated as raw. */
  function WithLeftover(raw: map<TypeId, int>, level: Level): map<TypeId, int> {
    map t | t in raw.Keys + level.Keys :: Get(raw, t) + Get(level, t)
  }

  function WithDefaults(rawBuildable: map<TypeId, bool>, level: Level): map<TypeId, bool> {
    map t | t in rawBuildable.Keys + level.Keys :: t in rawBuildable && rawBuildable[t]
  }

  lemma OneLeftover(raw: map<TypeId, int>, rawBuildable: map<TypeId, bool>, done: Level, t: TypeId, q: int)
    requires t !in done
    ensures var before := WithLeftover(raw, done);
      WithLeftover(raw, done[t := q]) == before[t := Get(before, t) + q]
    ensures var before := WithDefaults(rawBuildable, done);
      WithDefaults(rawBuildable, done[t := q]) == if t in before then before else before[t := false]
  {
    var before, after := WithLeftover(raw, done), WithLeftover(raw, done[t := q]);
    SameMap(after, before[t := Get(before, t) + q]);
    var flags := WithDefaults(rawBuildable, done);
    SameMap(WithDefaults(rawBuildable, done[t := q]), if t in flags then flags else flags[t := false]);
  }

  method FoldLeftover(level: Level, raw: map<TypeId, int>, rawBuildable: map<TypeId, bool>)
    returns (raw': map<TypeId, int>, rawBuildable': map<TypeId, bool>)
    ensures raw' == WithLeftover(raw, level)
    ensures rawBuildable' == WithDefaults(rawBuildable, level)
  {
    raw', rawBuildable' := raw, rawBuildable;
    ghost var done: Level := map[];
    var remaining := level.Keys;
    SameMap(raw, WithLeftover(raw, done));
    SameMap(rawBuildable, WithDefaults(rawBuildable, done));
    hide WithLeftover;
    hide WithDefaults;
    while remaining != {}
      invariant remaining <= level.Keys && done.Keys == level.Keys - remaining
      invariant forall t :: t in done ==> done[t] == level[t]
      invariant raw' == WithLeftover(raw, done)
      invariant rawBuildable' == WithDefaults(rawBuildable, done)
      decreases remaining
    {
      HasElement(remaining);
      var t :| t in remaining;
      OneLeftover(raw, rawBuildable, done, t, level[t]);
      raw' := raw'[t := Get(raw', t) + level[t]];
      if t !in rawBuildable' {  // setdefault
        rawBuildable' := rawBuildable'[t := false];
      }
      done := done[t := level[t]];
      remaining := remaining - {t};
    }
    assert forall t :: t in level ==> level[t] == done[t];
    SameMap(level, done);
  }

  // The whole resolution

  ghost function FinalSteps(rq: Request): map<TypeId, StepView> {
    map t | t in StepTypes(rq, MAX_DEPTH) && t in rq.catalogue ::
      StepView(Total(rq, Needed, t), Total(rq, Runs, t), rq.catalogue[t].productQuantity,
               Scaled(rq, t, Total(rq, Runs, t)))
  }

  ghost function FinalRaw(rq: Request): map<TypeId, int> {
    map t | t in RawTypes(rq) :: Total(rq, Raw, t)
  }

  /** A raw type counts as buildable when it has a blueprint and was met before the depth guard. */
  ghost function FinalBuildable(rq: Request): map<TypeId, bool> {
    map t | t in RawTypes(rq) :: t in LeafTypes(rq, MAX_DEPTH) && t in rq.catalogue
  }

  lemma FinalModels(rq: Request)
    ensures StepModel(rq, MAX_DEPTH, map[]) == FinalSteps(rq)
    ensures WithLeftover(RawModel(rq, MAX_DEPTH, map[]), LevelAt(rq, MAX_DEPTH)) == FinalRaw(rq)
    ensures WithDefaults(BuildableModel(rq, MAX_DEPTH, map[]), LevelAt(rq, MAX_DEPTH)) == FinalBuildable(rq)
  {
    hide LevelAt;
    hide StepTypes;
    hide After;
    assert Expanded(rq, map[]) == {};
    SameMap(StepModel(rq, MAX_DEPTH, map[]), FinalSteps(rq));
    var level := LevelAt(rq, MAX_DEPTH);
    forall t | t !in LeafTypes(rq, MAX_DEPTH)
      ensures After(rq, Raw, MAX_DEPTH, t) == 0
    {
      NeverLeaf(rq, MAX_DEPTH, t);
    }
    hide LeafTypes;
    SameMap(WithLeftover(RawModel(rq, MAX_DEPTH, map[]), level), FinalRaw(rq));
    SameMap(WithDefaults(BuildableModel(rq, MAX_DEPTH, map[]), level), FinalBuildable(rq));
  }

  /** The step has the output of the blueprint for `t` and, material by material, its lines times the runs. */
  predicate IsRecipeTimes(rq: Request, t: TypeId, step: StepView) {
    && t in rq.catalogue && step.productQuantity == rq.catalogue[t].productQuantity
    && (forall line :: line in rq.catalogue[t].materials ==> line.typeId in step.materials)
    && forall m :: m in step.materials ==>
         && (exists line :: line in rq.catalogue[t].materials && line.typeId == m)
         && step.materials[m] == step.runs * LineTotal(rq.catalogue[t].materials, m)
  }

  lemma FinalStepIsRecipe(rq: Request, t: TypeId)
    ensures t in FinalSteps(rq) ==> IsRecipeTimes(rq, t, FinalSteps(rq)[t])
  {
    hide StepTypes, Total;
  }

  /** The result in terms of the chains of materials: the steps are the types with a blueprint, target or chosen,
      that some chain of at most 14 edges ends in; the raw materials are the other types that one ends in, and
      those that a chain of 15 edges ends in. A raw material counts as buildable when it has a blueprint, is
      neither target nor chosen, and a chain of at most 14 edges ends in it. */
  lemma ResultInChains(rq: Request, t: TypeId)
    ensures t in FinalSteps(rq) <==>
            t in rq.catalogue && (t == rq.target || t in rq.buildSet) && WithinChain(rq, 14, t)
    ensures t in FinalSteps(rq) ==> IsRecipeTimes(rq, t, FinalSteps(rq)[t])
    ensures t in FinalRaw(rq) <==>
            || (exists c :: ChainTo(rq, c, 15, t))
            || (WithinChain(rq, 14, t) && !(t in rq.catalogue && (t == rq.target || t in rq.buildSet)))
    ensures t in FinalBuildable(rq) <==> t in FinalRaw(rq)
    ensures t in FinalRaw(rq) ==>
            (FinalBuildable(rq)[t] <==>
             t in rq.catalogue && t != rq.target && t !in rq.buildSet && WithinChain(rq, 14, t))
  {
    hide LevelAt, StepTypes, LeafTypes, ChainTo, WithinChain, Total, Scaled, IsRecipeTimes;
    FinalStepIsRecipe(rq, t);
    PlacedByExpansion(rq, MAX_DEPTH, t);
    LevelsAreChains(rq, MAX_DEPTH, t);
    MetIsWithinChain(rq, MAX_DEPTH, t);
  }

  lemma EveryRawHasFlag(rq: Request)
    ensures FinalBuildable(rq).Keys == FinalRaw(rq).Keys
  {
    hide RawTypes, LeafTypes, Total;
  }

  /** The level loop, which ends when nothing is pending or the depth guard is reached. */
  method RunLevels(rq: Request, maxDepth: nat)
    returns (steps: map<TypeId, BuildStep>, raw: map<TypeId, int>, rawBuildable: map<TypeId, bool>,
             currentLevel: Level)
    ensures fresh(steps.Values) && Shows(steps, StepModel(rq, maxDepth, map[]))
    ensures raw == RawModel(rq, maxDepth, map[]) && rawBuildable == BuildableModel(rq, maxDepth, map[])
    ensures currentLevel == LevelAt(rq, maxDepth)
  {
    hide LevelAt;
    hide StepModel;
    hide RawModel;
    hide BuildableModel;
    steps, raw, rawBuildable := map[], map[], map[];
    currentLevel := map[rq.target := rq.quantity];
    var depth := 0;
    ModelsAtStart(rq);
    while currentLevel != map[] && depth < maxDepth
      invariant depth <= maxDepth
      invariant currentLevel == LevelAt(rq, depth)
      invariant fresh(steps.Values) && Shows(steps, StepModel(rq, depth, map[]))
      invariant raw == RawModel(rq, depth, map[]) && rawBuildable == BuildableModel(rq, depth, map[])
    {
      steps, raw, rawBuildable, currentLevel :=
        ProcessLevel(rq, depth, currentLevel, steps, raw, rawBuildable);
      depth := depth + 1;
    }
    if depth < maxDepth {
      RanDry(rq, depth, maxDepth);
    }
  }

  method ResolveBuildChain(rq: Request)
    returns (steps: map<TypeId, BuildStep>, raw: map<TypeId, int>, rawBuildable: map<TypeId, bool>)
    ensures fresh(steps.Values) && Shows(steps, FinalSteps(rq))
    ensures raw == FinalRaw(rq)
    ensures rawBuildable == FinalBuildable(rq)
    ensures forall t :: t in steps <==>
              t in rq.catalogue && (t == rq.target || t in rq.buildSet) && WithinChain(rq, 14, t)
    ensures forall t :: t in steps ==> IsRecipeTimes(rq, t, steps[t].View())
    ensures forall t :: t in raw <==>
              || (exists c :: ChainTo(rq, c, 15, t))
              || (WithinChain(rq, 14, t) && !(t in rq.catalogue && (t == rq.target || t in rq.buildSet)))
    ensures rawBuildable.Keys == raw.Keys
    ensures forall t :: t in raw ==>
              (rawBuildable[t] <==>
               t in rq.catalogue && t != rq.target && t !in rq.buildSet && WithinChain(rq, 14, t))
  {
    hide WithinChain, ChainTo, IsRecipeTimes;
    hide LevelAt;
    hide StepModel;
    hide RawModel;
    hide BuildableModel;
    hide FinalSteps;
    hide FinalRaw;
    hide FinalBuildable;
    hide WithLeftover;
    hide WithDefaults;
    var pending: Level;
    steps, raw, rawBuildable, pending := RunLevels(rq, MAX_DEPTH);
    FinalModels(rq);
    raw, rawBuildable := FoldLeftover(pending, raw, rawBuildable);
    EveryRawHasFlag(rq);
    forall t
      ensures t in FinalSteps(rq) <==>
              t in rq.catalogue && (t == rq.target || t in rq.buildSet) && WithinChain(rq, 14, t)
      ensures t in FinalSteps(rq) ==> IsRecipeTimes(rq, t, FinalSteps(rq)[t])
      ensures t in FinalRaw(rq) <==>
              || (exists c :: ChainTo(rq, c, 15, t))
              || (WithinChain(rq, 14, t) && !(t in rq.catalogue && (t == rq.target || t in rq.buildSet)))
      ensures t in FinalRaw(rq) <==> t in FinalBuildable(rq)
      ensures t in FinalRaw(rq) ==>
              (FinalBuildable(rq)[t] <==>
               t in rq.catalogue && t != rq.target && t !in rq.buildSet && WithinChain(rq, 14, t))
    {
      ResultInChains(rq, t);
    }
  }

  lemma RanDry(rq: Request, d: nat, e: nat)
    requires d <= e && LevelAt(rq, d) == map[]
    ensures LevelAt(rq, e) == map[]
    ensures StepModel(rq, e, map[]) == StepModel(rq, d, map[])
    ensures RawModel(rq, e, map[]) == RawModel(rq, d, map[])
    ensures BuildableModel(rq, e, map[]) == BuildableModel(rq, d, map[])
  {
    StaysEmpty(rq, d, e);
    hide After;
    hide StepTypes;
    hide LeafTypes;
    SameMap(StepModel(rq, e, map[]), StepModel(rq, d, map[]));
    SameMap(RawModel(rq, e, map[]), RawModel(rq, d, map[]));
    SameMap(BuildableModel(rq, e, map[]), BuildableModel(rq, d, map[]));
  }
}
