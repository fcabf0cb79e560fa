/** The chains of materials behind the levels of the walk. */
module Chains {
  import opened Recipes
  import opened LevelWalk

  /** The resolver breaks `s` down and `m` is one of its materials: `s` has a blueprint that lists `m`, and is the
      target or chosen to be built. */
  predicate Consumes(rq: Request, s: TypeId, m: TypeId) {
    && s in rq.catalogue && (s == rq.target || s in rq.buildSet)
    && exists line :: line in rq.catalogue[s].materials && line.typeId == m
  }

  lemma ConsumesIsExpansion(rq: Request, s: TypeId, m: TypeId)
    ensures Consumes(rq, s, m) <==> rq.Expands(s) && m in rq.Ingredients(s)
  {
  }

  /** A path of such materials from the target. */
  ghost predicate IsChain(rq: Request, c: seq<TypeId>) {
    c != [] && c[0] == rq.target && forall i :: 0 <= i < |c| - 1 ==> Consumes(rq, c[i], c[i + 1])
  }

  ghost predicate ChainTo(rq: Request, c: seq<TypeId>, edges: nat, t: TypeId) {
    IsChain(rq, c) && |c| == edges + 1 && c[edges] == t
  }

  lemma PassesDown(rq: Request, d: nat, s: TypeId, t: TypeId)
    requires s in LevelAt(rq, d) && rq.Expands(s) && t in rq.Ingredients(s)
    ensures t in LevelAt(rq, d + 1)
  {
    assert t in NextTypes(rq, LevelAt(rq, d));
  }

  lemma {:induction false} ChainReaches(rq: Request, c: seq<TypeId>, d: nat, t: TypeId)
    requires ChainTo(rq, c, d, t)
    ensures t in LevelAt(rq, d)
  {
    hide LevelAt;
    OnlyTargetAtTop(rq, rq.target);
    if d > 0 {
      var s := c[d - 1];
      assert ChainTo(rq, c[..d], d - 1, s);
      ChainReaches(rq, c[..d], d - 1, s);
      PassesDown(rq, d - 1, s, t);
    }
  }

  lemma Consumer(rq: Request, d: nat, t: TypeId) returns (s: TypeId)
    requires 0 < d && t in LevelAt(rq, d)
    ensures s in LevelAt(rq, d - 1) && rq.Expands(s) && t in rq.Ingredients(s)
  {
    assert t in NextTypes(rq, LevelAt(rq, d - 1));
    s :| s in LevelAt(rq, d - 1) && rq.Expands(s) && t in rq.Ingredients(s);
  }

  lemma {:induction false} LevelHasChain(rq: Request, d: nat, t: TypeId) returns (c: seq<TypeId>)
    requires t in LevelAt(rq, d)
    ensures ChainTo(rq, c, d, t)
  {
    hide LevelAt;
    if d == 0 {
      OnlyTargetAtTop(rq, t);
      c := [t];
    } else {
      var s := Consumer(rq, d, t);
      c := LevelHasChain(rq, d - 1, s);
      c := c + [t];
    }
  }

  lemma OnlyTargetAtTop(rq: Request, t: TypeId)
    ensures t in LevelAt(rq, 0) <==> t == rq.target
  {
  }

  /** A type is met at level `d` exactly when some chain of `d` edges ends in it. */
  lemma LevelsAreChains(rq: Request, d: nat, t: TypeId)
    ensures t in LevelAt(rq, d) <==> exists c :: ChainTo(rq, c, d, t)
  {
    if t in LevelAt(rq, d) {
      var c := LevelHasChain(rq, d, t);
    }
    forall c | ChainTo(rq, c, d, t)
      ensures t in LevelAt(rq, d)
    {
      ChainReaches(rq, c, d, t);
    }
  }

  /** Some chain of fewer than `d` edges ends in `t`. */
  ghost predicate Met(rq: Request, d: nat, t: TypeId) {
    exists e: nat :: e < d && t in LevelAt(rq, e)
  }

  lemma {:induction false} PlacedByExpansion(rq: Request, d: nat, t: TypeId)
    ensures t in StepTypes(rq, d) <==> rq.Expands(t) && Met(rq, d, t)
    ensures t in LeafTypes(rq, d) <==> !rq.Expands(t) && Met(rq, d, t)
  {
    hide LevelAt;
    if d > 0 {
      PlacedByExpansion(rq, d - 1, t);
      assert Met(rq, d, t) <==> Met(rq, d - 1, t) || t in LevelAt(rq, d - 1) by {
        if t in LevelAt(rq, d - 1) {
          assert Met(rq, d, t);
        }
      }
    }
  }

  /** Some chain of at most `edges` edges ends in `t`. */
  ghost predicate WithinChain(rq: Request, edges: nat, t: TypeId) {
    exists c, e: nat :: e <= edges && ChainTo(rq, c, e, t)
  }

  /** Being met before level `d` is being at the end of a chain of fewer than `d` edges. */
  lemma MetIsWithinChain(rq: Request, d: nat, t: TypeId)
    requires 0 < d
    ensures Met(rq, d, t) <==> WithinChain(rq, d - 1, t)
  {
    hide LevelAt, ChainTo;
    if Met(rq, d, t) {
      var e: nat :| e < d && t in LevelAt(rq, e);
      var c := LevelHasChain(rq, e, t);
    }
    if WithinChain(rq, d - 1, t) {
      var c, e: nat :| e <= d - 1 && ChainTo(rq, c, e, t);
      ChainReaches(rq, c, e, t);
    }
  }
}
