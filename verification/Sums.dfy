/** Finite sums over sets of keys. The order of summation is irrelevant (SumPick). */
module Sums {

  lemma HasElement(keys: set<int>)
    requires keys != {}
    ensures exists k :: k in keys
  {
    assert (forall k :: k !in keys) ==> keys == {};
  }

  ghost function Pick(keys: set<int>): (k: int)
    requires keys != {}
    ensures k in keys
  {
    HasElement(keys);
    var k :| k in keys; k
  }

  ghost function SumOver(keys: set<int>, f: int -> int): int
  {
    if keys == {} then 0 else
      var k := Pick(keys);
      f(k) + SumOver(keys - {k}, f)
  }

  /** Any element may be taken out first. */
  lemma {:induction false} SumPick(keys: set<int>, f: int -> int, k: int)
    requires k in keys
    ensures SumOver(keys, f) == f(k) + SumOver(keys - {k}, f)
    decreases |keys|
  {
    var p := Pick(keys);
    if p != k {
      SumPick(keys - {p}, f, k);
      SumPick(keys - {k}, f, p);
      assert keys - {p} - {k} == keys - {k} - {p};
    }
  }

  lemma {:induction false} SumAdd(keys: set<int>, f: int -> int, g: int -> int, h: int -> int)
    requires forall k :: k in keys ==> h(k) == f(k) + g(k)
    ensures SumOver(keys, h) == SumOver(keys, f) + SumOver(keys, g)
    decreases |keys|
  {
    if keys != {} {
      var k := Pick(keys);
      SumPick(keys, f, k);
      SumPick(keys, g, k);
      SumPick(keys, h, k);
      SumAdd(keys - {k}, f, g, h);
    }
  }

  lemma {:induction false} SumLe(keys: set<int>, f: int -> int, g: int -> int)
    requires forall k :: k in keys ==> f(k) <= g(k)
    ensures SumOver(keys, f) <= SumOver(keys, g)
    decreases |keys|
  {
    if keys != {} {
      var k := Pick(keys);
      SumPick(keys, f, k);
      SumPick(keys, g, k);
      SumLe(keys - {k}, f, g);
    }
  }

  lemma SumSame(keys: set<int>, f: int -> int, g: int -> int)
    requires forall k :: k in keys ==> f(k) == g(k)
    ensures SumOver(keys, f) == SumOver(keys, g)
  {
    SumLe(keys, f, g);
    SumLe(keys, g, f);
  }

  /** Keys on which the summand is zero may be added or dropped. */
  lemma {:induction false} SumSupport(small: set<int>, large: set<int>, f: int -> int)
    requires small <= large
    requires forall k :: k in large - small ==> f(k) == 0
    ensures SumOver(small, f) == SumOver(large, f)
    decreases |large - small|
  {
    if large - small == {} {
      assert small == large;
    } else {
      var k := Pick(large - small);
      SumPick(large, f, k);
      assert large - {k} - small == large - small - {k};
      SumSupport(small, large - {k}, f);
    }
  }

  lemma {:induction false} SumAtLeast(keys: set<int>, f: int -> int, k: int)
    requires forall j :: j in keys ==> 0 <= f(j)
    ensures 0 <= SumOver(keys, f)
    ensures k in keys ==> f(k) <= SumOver(keys, f)
  {
    SumLe(keys, _ => 0, f);
    SumSupport({}, keys, _ => 0);
    if k in keys {
      SumPick(keys, f, k);
      SumLe(keys - {k}, _ => 0, f);
      SumSupport({}, keys - {k}, _ => 0);
    }
  }

  // The same over reals, for quantities that are divided

  ghost function RealSum(keys: set<int>, f: int -> real): real
  {
    if keys == {} then 0.0 else
      var k := Pick(keys);
      f(k) + RealSum(keys - {k}, f)
  }

  lemma {:induction false} RealSumPick(keys: set<int>, f: int -> real, k: int)
    requires k in keys
    ensures RealSum(keys, f) == f(k) + RealSum(keys - {k}, f)
    decreases |keys|
  {
    var p := Pick(keys);
    if p != k {
      RealSumPick(keys - {p}, f, k);
      RealSumPick(keys - {k}, f, p);
      assert keys - {p} - {k} == keys - {k} - {p};
    }
  }

  lemma {:induction false} RealSumSame(keys: set<int>, f: int -> real, g: int -> real)
    requires forall k :: k in keys ==> f(k) == g(k)
    ensures RealSum(keys, f) == RealSum(keys, g)
    decreases |keys|
  {
    if keys != {} {
      var k := Pick(keys);
      RealSumPick(keys, f, k);
      RealSumPick(keys, g, k);
      RealSumSame(keys - {k}, f, g);
    }
  }
}
