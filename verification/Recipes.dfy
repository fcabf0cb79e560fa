/** Blueprints and the request to build one target: the data build_chain.py reads. */
module Recipes {

  type TypeId = int
  type Count = n: int | 1 <= n witness 1

  datatype Material = Material(typeId: TypeId, quantity: Count)

  datatype Blueprint = Blueprint(productQuantity: Count, materials: seq<Material>)

  /** The arguments of one resolution. `catalogue` is the reverse lookup from a product to the
      blueprint that makes it; `buildSet` names the components the user chose to build. */
  datatype Request = Request(catalogue: map<TypeId, Blueprint>, target: TypeId, quantity: int,
                             buildSet: set<TypeId>) {

    /** The target is always expanded when it has a blueprint, anything else only on request. */
    predicate Expands(t: TypeId) {
      t in catalogue && (t == target || t in buildSet)
    }

    /** How many `m` one run of the blueprint for `t` consumes, over all its material lines. */
    function Uses(t: TypeId, m: TypeId): nat {
      if t in catalogue then LineTotal(catalogue[t].materials, m) else 0
    }

    function Ingredients(t: TypeId): set<TypeId> {
      if t in catalogue then LineTypes(catalogue[t].materials) else {}
    }

    function Runs(t: TypeId, quantity: int): int {
      if t in catalogue then RunsFor(quantity, catalogue[t].productQuantity) else 0
    }
  }

  function LineTotal(lines: seq<Material>, m: TypeId): nat {
    if lines == [] then 0
    else LineTotal(lines[..|lines| - 1], m) +
         if lines[|lines| - 1].typeId == m then lines[|lines| - 1].quantity else 0
  }

  function LineTypes(lines: seq<Material>): set<TypeId> {
    set line | line in lines :: line.typeId
  }

  /** What a dict of amounts holds for a type, nothing when it is absent. */
  function Get(d: map<TypeId, int>, t: TypeId): int {
    if t in d then d[t] else 0
  }

  /** The ceiling of a quotient, in exact arithmetic. */
  function CeilDiv(a: int, b: Count): (r: int)
    ensures b * (r - 1) < a <= b * r
  {
    (a + b - 1) / b
  }

  /** The least positive number of runs that covers the demand. */
  function RunsFor(quantity: int, productQuantity: Count): (r: Count)
    ensures quantity <= productQuantity * r
    ensures forall n: int :: 1 <= n && quantity <= productQuantity * n ==> r <= n
  {
    var c := CeilDiv(quantity, productQuantity);
    var r := if 1 <= c then c else 1;
    assert productQuantity * c <= productQuantity * r;
    assert forall n: int :: 1 <= n && quantity <= productQuantity * n ==> r <= n by {
      forall n: int | 1 <= n && quantity <= productQuantity * n ensures r <= n {
        MulStrict(productQuantity, c - 1, n);
      }
    }
    r
  }

  lemma MulStrict(p: Count, a: int, b: int)
    requires p * a < p * b
    ensures a < b
  {
    assert p * (b - a) == p * b - p * a;
  }

  /** Runs never shrink with demand, and one batch never needs more runs than two. */
  lemma RunsMonotone(a: int, b: int, p: Count)
    requires a <= b
    ensures RunsFor(a, p) <= RunsFor(b, p)
  {
    assert a <= p * RunsFor(b, p);
  }

  lemma RunsSubadditive(a: int, b: int, p: Count)
    ensures RunsFor(a + b, p) <= RunsFor(a, p) + RunsFor(b, p)
  {
    hide RunsFor;
    var x, y: int := RunsFor(a, p), RunsFor(b, p);
    assert p * (x + y) == p * x + p * y;
  }

  lemma RunsOfSingles(a: int)
    requires 1 <= a
    ensures RunsFor(a, 1) == a
  {
  }

  /** The surplus of one rounding is less than one batch. */
  lemma RunsSlack(a: int, p: Count)
    requires 1 <= a
    ensures 0 <= RunsFor(a, p) * p - a <= p - 1
  {
    var r := RunsFor(a, p);
    if r == 1 {
    } else {
      assert !(a <= p * (r - 1));
      assert p * (r - 1) == p * r - p;
    }
  }

  lemma {:induction false} LineTotalPositive(lines: seq<Material>, m: TypeId)
    ensures 0 < LineTotal(lines, m) <==> m in LineTypes(lines)
  {
    if lines != [] {
      var front, last := lines[..|lines| - 1], lines[|lines| - 1];
      LineTotalPositive(front, m);
      assert lines == front + [last];
    }
  }

  /** The line total only depends on which lines there are, not on their order. */
  lemma {:induction false} LineTotalOfMultiset(a: seq<Material>, b: seq<Material>, m: TypeId)
    requires multiset(a) == multiset(b)
    ensures LineTotal(a, m) == LineTotal(b, m)
    decreases |a|
  {
    if a == [] {
      assert multiset(b) == multiset{};
      assert |b| == 0;
    } else {
      var front, last := a[..|a| - 1], a[|a| - 1];
      assert a == front + [last];
      assert last in multiset(b);
      var i :| 0 <= i < |b| && b[i] == last;
      var rest := b[..i] + b[i + 1..];
      assert b == b[..i] + [last] + b[i + 1..];
      assert multiset(a) == multiset(front) + multiset{last};
      assert multiset(b) == multiset(b[..i]) + multiset{last} + multiset(b[i + 1..]);
      assert multiset(rest) == multiset(b[..i]) + multiset(b[i + 1..]);
      Cancel(multiset(rest), multiset(front), last);
      LineTotalOfMultiset(front, rest, m);
      LineTotalWithout(b, i, m);
    }
  }

  lemma Cancel(a: multiset<Material>, b: multiset<Material>, last: Material)
    requires a + multiset{last} == b + multiset{last}
    ensures a == b
  {
    forall x: Material
      ensures a[x] == b[x]
    {
      assert (a + multiset{last})[x] == (b + multiset{last})[x];
    }
  }

  lemma {:induction false} LineTotalWithout(b: seq<Material>, i: nat, m: TypeId)
    requires i < |b|
    ensures LineTotal(b, m)
         == LineTotal(b[..i] + b[i + 1..], m) + if b[i].typeId == m then b[i].quantity else 0
    decreases |b|
  {
    if i == |b| - 1 {
      assert b[..i] + b[i + 1..] == b[..|b| - 1];
    } else {
      var front, last := b[..|b| - 1], b[|b| - 1];
      LineTotalWithout(front, i, m);
      var rest := b[..i] + b[i + 1..];
      assert rest[..|rest| - 1] == front[..i] + front[i + 1..];
      assert rest[|rest| - 1] == last;
    }
  }
}
