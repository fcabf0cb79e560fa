/** What the depth guard does: when the walk finishes on its own, which types the result lists
    where, and how the result reacts to the user's build set. */
module DepthGuard {
  import opened Maps
  import opened Sums
  import opened Recipes
  import opened LevelWalk
  import opened Chains
  import opened ChainResolver
  import opened WalkLaws

  /** The loop ends with nothing pending exactly when no chain, leaves included, has more than
      14 edges. */
  lemma DrainsExactlyWithinDepth(rq: Request)
    ensures Drains(rq) <==> forall c :: IsChain(rq, c) ==> |c| - 1 <= 14
  {
    hide LevelAt;
    DrainsBelow(rq, MAX_DEPTH);
  }

  lemma DrainsBelow(rq: Request, d: nat)
    ensures LevelAt(rq, d) == map[] <==> forall c :: IsChain(rq, c) ==> |c| <= d
  {
    hide LevelAt;
    if LevelAt(rq, d) != map[] {
      assert LevelAt(rq, d).Keys != {};
      HasElement(LevelAt(rq, d).Keys);
      var t :| t in LevelAt(rq, d).Keys;
      var c := LevelHasChain(rq, d, t);
      assert IsChain(rq, c) && |c| == d + 1;
    } else {
      forall c | IsChain(rq, c)
        ensures |c| <= d
      {
        if d < |c| {
          assert ChainTo(rq, c[..d + 1], d, c[d]);
          ChainReaches(rq, c[..d + 1], d, c[d]);
        }
      }
    }
  }

  // Where a type ends up

  /** Every raw material carries a flag; a type is listed both as a step and as raw exactly when
      it expands and is pending at the guard as well as met before. */
  lemma ResultKeys(rq: Request, t: TypeId)
    ensures FinalBuildable(rq).Keys == FinalRaw(rq).Keys
    ensures t in FinalSteps(rq) <==> rq.Expands(t) && Met(rq, MAX_DEPTH, t)
    ensures t in FinalRaw(rq) <==> t in LevelAt(rq, MAX_DEPTH) || (!rq.Expands(t) && Met(rq, MAX_DEPTH, t))
    ensures rq.target in FinalSteps(rq) <==> rq.target in rq.catalogue
  {
    hide LevelAt;
    hide StepTypes;
    hide LeafTypes;
    PlacedByExpansion(rq, MAX_DEPTH, t);
    PlacedByExpansion(rq, MAX_DEPTH, rq.target);
    OnlyTargetAtTop(rq, rq.target);
    assert Met(rq, MAX_DEPTH, rq.target);
  }

  /** Within the depth limit, steps and raw materials are disjoint and the flag is exact. */
  lemma WithinDepth(rq: Request, t: TypeId)
    requires Drains(rq)
    ensures !(t in FinalSteps(rq) && t in FinalRaw(rq))
    ensures t in FinalRaw(rq) ==> FinalBuildable(rq)[t] == (t in rq.catalogue)
  {
    hide LevelAt;
    hide StepTypes;
    hide LeafTypes;
    ResultKeys(rq, t);
    PlacedByExpansion(rq, MAX_DEPTH, t);
  }

  /** `is_buildable` is right for every raw material. */
  ghost predicate FlagsExact(rq: Request) {
    forall t :: t in FinalRaw(rq) ==> FinalBuildable(rq)[t] == (t in rq.catalogue)
  }

  /** When it is: whatever ends a chain of 15 edges has no blueprint, or is left unexpanded and
      also ends a shorter chain. */
  lemma FlagsExactWhen(rq: Request)
    ensures FlagsExact(rq)
       <==> forall c, t :: ChainTo(rq, c, 15, t) && t in rq.catalogue ==>
                             t != rq.target && t !in rq.buildSet && WithinChain(rq, 14, t)
  {
    hide LevelAt, StepTypes, LeafTypes, ChainTo;
    forall t
      ensures t in FinalRaw(rq) && FinalBuildable(rq)[t] != (t in rq.catalogue)
         <==> t in LevelAt(rq, MAX_DEPTH) && t in rq.catalogue && !(!rq.Expands(t) && Met(rq, MAX_DEPTH, t))
      ensures t in LevelAt(rq, MAX_DEPTH) <==> exists c :: ChainTo(rq, c, 15, t)
      ensures Met(rq, MAX_DEPTH, t) <==> WithinChain(rq, 14, t)
    {
      ResultKeys(rq, t);
      PlacedByExpansion(rq, MAX_DEPTH, t);
      LevelsAreChains(rq, MAX_DEPTH, t);
      MetIsWithinChain(rq, MAX_DEPTH, t);
    }
  }

  // A recipe that consumes its own product shows both failures

  const LOOP: Request := Request(map[1 := Blueprint(1, [Material(1, 1)])], 1, 1, {})

  lemma {:induction false} SelfUseNeverDrains(rq: Request, d: nat)
    requires rq.Expands(rq.target) && rq.target in rq.Ingredients(rq.target)
    ensures rq.target in LevelAt(rq, d)
  {
    hide LevelAt;
    OnlyTargetAtTop(rq, rq.target);
    if d > 0 {
      SelfUseNeverDrains(rq, d - 1);
      PassesDown(rq, d - 1, rq.target, rq.target);
    }
  }

  lemma LoopMisreported()
    ensures 1 in FinalSteps(LOOP) && 1 in FinalRaw(LOOP)
    ensures 1 in LOOP.catalogue && !FinalBuildable(LOOP)[1]
  {
    hide LevelAt;
    hide StepTypes;
    hide LeafTypes;
    assert LOOP.catalogue[1].materials[0].typeId == 1;
    SelfUseNeverDrains(LOOP, MAX_DEPTH);
    ResultKeys(LOOP, 1);
    PlacedByExpansion(LOOP, MAX_DEPTH, 1);
  }

  // The build set

  lemma {:induction false} LevelsGrow(rq: Request, x: TypeId, d: nat)
    ensures LevelAt(rq, d).Keys <= LevelAt(rq.(buildSet := rq.buildSet + {x}), d).Keys
  {
    hide NextTypes, SumOver;
    if d > 0 {
      LevelsGrow(rq, x, d - 1);
      NextTypesGrow(rq, x, LevelAt(rq, d - 1), LevelAt(rq.(buildSet := rq.buildSet + {x}), d - 1));
    }
  }

  lemma NextTypesGrow(rq: Request, x: TypeId, a: Level, b: Level)
    requires a.Keys <= b.Keys
    ensures NextTypes(rq, a) <= NextTypes(rq.(buildSet := rq.buildSet + {x}), b)
  {
    var rq' := rq.(buildSet := rq.buildSet + {x});
    forall m | m in NextTypes(rq, a)
      ensures m in NextTypes(rq', b)
    {
      var t :| t in a && rq.Expands(t) && m in rq.Ingredients(t);
      assert t in b.Keys && rq'.Expands(t) && m in rq'.Ingredients(t);
    }
  }

  /** A chain that ends in `x` first meets `x` without expanding it. */
  lemma FirstMeeting(rq: Request, c: seq<TypeId>, d: nat, x: TypeId) returns (i: nat)
    requires ChainTo(rq.(buildSet := rq.buildSet + {x}), c, d, x)
    ensures i <= d && ChainTo(rq, c[..i + 1], i, x)
  {
    i := 0;
    while c[i] != x
      invariant i <= d && forall j :: 0 <= j < i ==> c[j] != x
      decreases d - i
    {
      i := i + 1;
    }
    var rq' := rq.(buildSet := rq.buildSet + {x});
    forall j | 0 <= j < i
      ensures Consumes(rq, c[j], c[j + 1])
    {
      assert Consumes(rq', c[j], c[j + 1]);
    }
  }

  /** Whether `x` is met before the guard does not depend on whether it is built. */
  lemma MetAlike(rq: Request, x: TypeId)
    ensures Met(rq.(buildSet := rq.buildSet + {x}), MAX_DEPTH, x) <==> Met(rq, MAX_DEPTH, x)
  {
    hide LevelAt;
    var rq' := rq.(buildSet := rq.buildSet + {x});
    if Met(rq', MAX_DEPTH, x) {
      var d: nat :| d < MAX_DEPTH && x in LevelAt(rq', d);
      var c := LevelHasChain(rq', d, x);
      var i := FirstMeeting(rq, c, d, x);
      ChainReaches(rq, c[..i + 1], i, x);
    }
    if Met(rq, MAX_DEPTH, x) {
      var d: nat :| d < MAX_DEPTH && x in LevelAt(rq, d);
      LevelsGrow(rq, x, d);
      assert x in LevelAt(rq', d).Keys;
    }
  }

  /** Choosing to build a buildable raw material makes it a step exactly when it is met before the guard, and takes it
      off the raw list exactly when the larger walk does not leave it pending at the guard. It does both when the
      larger walk stays within the depth limit. */
  lemma BuildingALeaf(rq: Request, x: TypeId)
    requires x in FinalRaw(rq) && x in rq.catalogue
    ensures x in FinalSteps(rq.(buildSet := rq.buildSet + {x})) <==> Met(rq, MAX_DEPTH, x)
    ensures x !in FinalRaw(rq.(buildSet := rq.buildSet + {x}))
       <==> x !in LevelAt(rq.(buildSet := rq.buildSet + {x}), MAX_DEPTH)
    ensures Drains(rq.(buildSet := rq.buildSet + {x})) ==>
              && x in FinalSteps(rq.(buildSet := rq.buildSet + {x}))
              && x !in FinalRaw(rq.(buildSet := rq.buildSet + {x}))
  {
    hide LevelAt, FinalSteps, FinalRaw, FinalBuildable;
    var rq' := rq.(buildSet := rq.buildSet + {x});
    ResultKeys(rq, x);
    ResultKeys(rq', x);
    MetAlike(rq, x);
    LevelsGrow(rq, x, MAX_DEPTH);
    assert x in LevelAt(rq, MAX_DEPTH).Keys ==> x in LevelAt(rq', MAX_DEPTH).Keys;
  }

  /** Build sets that agree on every type met give the same resolution. */
  lemma BuildSetLocality(rq: Request, other: set<TypeId>)
    requires forall t :: Met(rq, MAX_DEPTH, t) ==> (t in rq.buildSet <==> t in other)
    ensures FinalSteps(rq.(buildSet := other)) == FinalSteps(rq)
    ensures FinalRaw(rq.(buildSet := other)) == FinalRaw(rq)
    ensures FinalBuildable(rq.(buildSet := other)) == FinalBuildable(rq)
  {
    hide LevelAt;
    var rq' := rq.(buildSet := other);
    forall e: nat, t | e < MAX_DEPTH && t in LevelAt(rq, e)
      ensures SameRecipe(rq, rq', t)
    {
      assert Met(rq, MAX_DEPTH, t);
    }
    SameResult(rq, rq');
  }

  /** The order of the material lines of a blueprint does not matter. */
  lemma MaterialOrderIrrelevant(rq: Request, shuffled: map<TypeId, Blueprint>)
    requires shuffled.Keys == rq.catalogue.Keys
    requires forall t :: t in shuffled ==>
                           && shuffled[t].productQuantity == rq.catalogue[t].productQuantity
                           && multiset(shuffled[t].materials) == multiset(rq.catalogue[t].materials)
    ensures FinalSteps(rq.(catalogue := shuffled)) == FinalSteps(rq)
    ensures FinalRaw(rq.(catalogue := shuffled)) == FinalRaw(rq)
    ensures FinalBuildable(rq.(catalogue := shuffled)) == FinalBuildable(rq)
  {
    hide LevelAt;
    var rq' := rq.(catalogue := shuffled);
    forall t
      ensures SameRecipe(rq, rq', t)
    {
      if rq.Expands(t) {
        forall m
          ensures rq.Uses(t, m) == rq'.Uses(t, m)
        {
          LineTotalOfMultiset(rq.catalogue[t].materials, shuffled[t].materials, m);
        }
      }
    }
    SameResult(rq, rq');
  }

  lemma SameResult(rq: Request, rq': Request)
    requires rq.target == rq'.target && rq.quantity == rq'.quantity
    requires rq.catalogue.Keys == rq'.catalogue.Keys
    requires forall e: nat, t :: e < MAX_DEPTH && t in LevelAt(rq, e) ==> SameRecipe(rq, rq', t)
    ensures FinalSteps(rq') == FinalSteps(rq)
    ensures FinalRaw(rq') == FinalRaw(rq) && FinalBuildable(rq') == FinalBuildable(rq)
  {
    hide LevelAt;
    hide StepTypes;
    hide LeafTypes;
    hide After;
    hide Scaled;
    WalkLocal(rq, rq', MAX_DEPTH);
    forall t | t in StepTypes(rq, MAX_DEPTH)
      ensures SameRecipe(rq, rq', t) && t in rq.catalogue
      ensures forall runs :: Scaled(rq, t, runs) == Scaled(rq', t, runs)
      ensures rq.catalogue[t].productQuantity == rq'.catalogue[t].productQuantity
    {
      PlacedByExpansion(rq, MAX_DEPTH, t);
      var e: nat :| e < MAX_DEPTH && t in LevelAt(rq, e);
      forall runs
        ensures Scaled(rq, t, runs) == Scaled(rq', t, runs)
      {
        ScaledSame(rq, rq', t, runs);
      }
    }
    SameMap(FinalSteps(rq'), FinalSteps(rq));
    SameMap(FinalRaw(rq'), FinalRaw(rq));
    SameMap(FinalBuildable(rq'), FinalBuildable(rq));
  }

  lemma ScaledSame(rq: Request, rq': Request, t: TypeId, runs: int)
    requires SameRecipe(rq, rq', t) && rq.Expands(t)
    ensures Scaled(rq, t, runs) == Scaled(rq', t, runs)
  {
    SameRecipeParts(rq, rq', t);
    SameMap(Scaled(rq, t, runs), Scaled(rq', t, runs));
  }
}
