/** The laws of the walk, read off the resolution itself: its steps and its raw materials. */
module ResolutionLaws {
  import opened Sums
  import opened Recipes
  import opened LevelWalk
  import opened Chains
  import opened ChainResolver
  import opened WalkLaws

  ghost function MaterialOf(steps: map<TypeId, StepView>, m: TypeId): int -> int {
    s => if s in steps then Get(steps[s].materials, m) else 0
  }

  /** How much of `m` all the steps together consume. */
  ghost function StepsConsume(steps: map<TypeId, StepView>, m: TypeId): int {
    SumOver(steps.Keys, MaterialOf(steps, m))
  }

  function Produced(steps: map<TypeId, StepView>, m: TypeId): int {
    if m in steps then steps[m].quantityNeeded else 0
  }

  /** At every head of the level loop: what was asked of a type is met by its step, booked as raw,
      or still pending. */
  lemma LoopHeadConserves(rq: Request, d: nat, m: TypeId)
    ensures TargetDemand(rq, m) + StepsConsume(StepModel(rq, d, map[]), m)
         == Produced(StepModel(rq, d, map[]), m) + Get(RawModel(rq, d, map[]), m) + Get(LevelAt(rq, d), m)
  {
    hide LevelAt;
    hide After;
    hide StepTypes;
    hide LeafTypes;
    hide SumOver;
    hide StepModel;
    var steps := StepModel(rq, d, map[]);
    StepModelAt(rq, d, m);
    forall s
      ensures MaterialOf(steps, m)(s) == if s in steps then Consumption(rq, d, m)(s) else 0
      ensures s in steps.Keys <==> s in StepTypes(rq, d)
    {
      StepModelAt(rq, d, s);
      if s in steps {
        StepMaterial(rq, d, s, m);
      }
    }
    SumSame(steps.Keys, MaterialOf(steps, m), Consumption(rq, d, m));
    DemandConserved(rq, d, m, steps.Keys);
    RawModelAt(rq, d, m);
  }

  lemma StepModelAt(rq: Request, d: nat, t: TypeId)
    ensures t in StepModel(rq, d, map[]) <==> t in StepTypes(rq, d)
    ensures t in StepModel(rq, d, map[]) ==>
              && t in rq.catalogue
              && StepModel(rq, d, map[])[t] == StepView(After(rq, Needed, d, t), After(rq, Runs, d, t),
                                                        rq.catalogue[t].productQuantity,
                                                        Scaled(rq, t, After(rq, Runs, d, t)))
    ensures Produced(StepModel(rq, d, map[]), t) == After(rq, Needed, d, t)
  {
    hide LevelAt;
    hide After;
    hide StepTypes;
    hide Scaled;
    PlacedByExpansion(rq, d, t);
    assert Expanded(rq, map[]) == {};
    if t !in StepTypes(rq, d) {
      NeverStepped(rq, Needed, d, t);
    }
  }

  lemma StepMaterial(rq: Request, d: nat, s: TypeId, m: TypeId)
    requires s in rq.catalogue
    ensures Get(Scaled(rq, s, After(rq, Runs, d, s)), m) == Consumption(rq, d, m)(s)
  {
    hide After;
    LineTotalPositive(rq.catalogue[s].materials, m);
    if m !in rq.Ingredients(s) {
      assert rq.Uses(s, m) == 0;
    }
  }

  lemma RawModelAt(rq: Request, d: nat, t: TypeId)
    ensures Get(RawModel(rq, d, map[]), t) == After(rq, Raw, d, t)
  {
    hide LevelAt;
    hide After;
    hide LeafTypes;
    if t !in LeafTypes(rq, d) {
      NeverLeaf(rq, d, t);
    }
  }

  /** The resolution conserves demand, even when a cycle was cut by the guard. */
  lemma ResolutionConserves(rq: Request, m: TypeId)
    ensures TargetDemand(rq, m) + StepsConsume(FinalSteps(rq), m)
         == Produced(FinalSteps(rq), m) + Get(FinalRaw(rq), m)
  {
    hide LevelAt;
    hide StepModel;
    hide RawModel;
    hide FinalSteps;
    hide FinalRaw;
    LoopHeadConserves(rq, MAX_DEPTH, m);
    FinalModels(rq);
    LeftoverCounted(RawModel(rq, MAX_DEPTH, map[]), LevelAt(rq, MAX_DEPTH), m);
  }

  lemma LeftoverCounted(raw: map<TypeId, int>, level: Level, m: TypeId)
    ensures Get(WithLeftover(raw, level), m) == Get(raw, m) + Get(level, m)
  {
  }

  /** Every step's materials are its runs times the recipe, and its runs cover its demand with less
      than one product batch to spare for each level that asked for it. */
  lemma StepArithmetic(rq: Request, t: TypeId)
    requires t in FinalSteps(rq)
    ensures var step := FinalSteps(rq)[t];
      && (forall m :: Get(step.materials, m) == step.runs * rq.Uses(t, m))
      && step.productQuantity == rq.catalogue[t].productQuantity
      && 0 <= step.runs * step.productQuantity - step.quantityNeeded
      && (1 <= rq.quantity ==>
            step.runs * step.productQuantity - step.quantityNeeded
              <= Batches(rq, MAX_DEPTH, t) * (step.productQuantity - 1)
              <= MAX_DEPTH * (step.productQuantity - 1))
      && (Batches(rq, MAX_DEPTH, t) == 1 ==>
            step.runs == RunsFor(step.quantityNeeded, step.productQuantity))
  {
    hide LevelAt;
    hide After;
    hide StepTypes;
    hide Batches;
    hide RunsFor;
    var step := FinalSteps(rq)[t];
    forall m
      ensures Get(step.materials, m) == step.runs * rq.Uses(t, m)
    {
      StepMaterial(rq, MAX_DEPTH, t, m);
    }
    SurplusBounded(rq, MAX_DEPTH, t);
    if Batches(rq, MAX_DEPTH, t) == 1 {
      SingleBatchExact(rq, MAX_DEPTH, t);
    }
    assert Batches(rq, MAX_DEPTH, t) * (step.productQuantity - 1) <= MAX_DEPTH * (step.productQuantity - 1) by {
      assert 0 <= (MAX_DEPTH - Batches(rq, MAX_DEPTH, t)) * (step.productQuantity - 1);
    }
  }

  /** A larger order: the same steps and raw materials, none of them smaller. */
  lemma LargerOrder(rq: Request, more: int)
    requires rq.quantity <= more
    ensures var rq' := rq.(quantity := more);
      && FinalSteps(rq').Keys == FinalSteps(rq).Keys
      && FinalRaw(rq').Keys == FinalRaw(rq).Keys
      && (forall t :: t in FinalSteps(rq) ==> FinalSteps(rq)[t].runs <= FinalSteps(rq')[t].runs)
      && forall t :: t in FinalRaw(rq) ==> FinalRaw(rq)[t] <= FinalRaw(rq')[t]
  {
    hide LevelAt;
    hide After;
    hide StepTypes;
    hide LeafTypes;
    hide Scaled;
    WalkMonotone(rq, more, MAX_DEPTH);
  }

  /** One order for the sum needs no more runs and no more raw material than two orders. */
  lemma SplitOrder(rq: Request, more: int, t: TypeId)
    ensures var rq1, rq2 := rq.(quantity := more), rq.(quantity := rq.quantity + more);
      forall tally :: Total(rq2, tally, t) <= Total(rq, tally, t) + Total(rq1, tally, t)
  {
    hide LevelAt;
    hide After;
    WalkSubadditive(rq, more, MAX_DEPTH);
  }
}
