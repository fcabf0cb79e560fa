/** What an expansion is, said without computing it: which types are left is a matter of paths of inputs,
    and how much of each follows from what the expansion is worth. */
module TierPaths {
  import opened Maps
  import opened Sums
  import opened Recipes
  import opened TierExpansion

  /** `t` has a schematic and a tier above the floor. */
  ghost predicate IsOpened(w: World, floor: nat, t: TypeId) {
    t in w.byOutput && t in w.tiers && w.tiers[t] > floor
  }

  ghost predicate HasInput(lines: seq<Material>, t: TypeId) {
    exists k :: 0 <= k < |lines| && lines[k].typeId == t
  }

  /** Each type of the path is opened, and the next one is among its inputs. */
  ghost predicate IsPath(w: World, floor: nat, p: seq<TypeId>) {
    && 0 < |p|
    && forall i :: 0 <= i < |p| - 1 ==> IsOpened(w, floor, p[i]) && HasInput(w.byOutput[p[i]].inputs, p[i + 1])
  }

  ghost predicate PathTo(w: World, floor: nat, p: seq<TypeId>, t: TypeId, x: TypeId) {
    IsPath(w, floor, p) && p[0] == t && p[|p| - 1] == x
  }

  ghost predicate Reaches(w: World, floor: nat, t: TypeId, x: TypeId) {
    exists p :: PathTo(w, floor, p, t, x)
  }

  /** `x` is reached and left as it is. */
  ghost predicate LeftOf(w: World, floor: nat, t: TypeId, x: TypeId) {
    Reaches(w, floor, t, x) && !IsOpened(w, floor, x)
  }

  ghost predicate LeftOfLines(w: World, floor: nat, lines: seq<Material>, x: TypeId) {
    exists k :: 0 <= k < |lines| && LeftOf(w, floor, lines[k].typeId, x)
  }

  /** Under these prices every schematic opened on the way from `t` costs what its output costs. */
  ghost predicate Even(w: World, floor: nat, t: TypeId, price: int -> real) {
    forall s :: Reaches(w, floor, t, s) && IsOpened(w, floor, s) ==>
                  DirectCost(w.byOutput[s].inputs, price) == w.byOutput[s].outputQuantity as real * price(s)
  }

  ghost predicate EvenLines(w: World, floor: nat, lines: seq<Material>, price: int -> real) {
    forall k :: 0 <= k < |lines| ==> Even(w, floor, lines[k].typeId, price)
  }

  ghost function Worth(amounts: map<TypeId, real>, price: int -> real): real {
    RealSum(amounts.Keys, (x: int) => if x in amounts then amounts[x] * price(x) else 0.0)
  }

  /** The expansion of `q` of `t`: its types are those left at the end of a path, and expanding changes
      no cost under any prices that are even. No other dict has both (`ExpansionIsDecided`). */
  ghost predicate IsExpansion(w: World, floor: nat, t: TypeId, q: real, amounts: map<TypeId, real>) {
    && (forall x :: x in amounts <==> LeftOf(w, floor, t, x))
    && forall price :: Even(w, floor, t, price) ==> Worth(amounts, price) == q * price(t)
  }

  /** The same for one run of a list of input lines. */
  ghost predicate IsExpansionOfLines(w: World, floor: nat, lines: seq<Material>, runs: real,
                                     amounts: map<TypeId, real>) {
    && (forall x :: x in amounts <==> LeftOfLines(w, floor, lines, x))
    && forall price :: EvenLines(w, floor, lines, price) ==> Worth(amounts, price) == runs * DirectCost(lines, price)
  }

  // Paths

  lemma OpensPlainly(w: World, floor: nat, t: TypeId)
    ensures w.Opens(t, floor) <==> IsOpened(w, floor, t)
  {
  }

  lemma ReachesItself(w: World, floor: nat, t: TypeId)
    ensures Reaches(w, floor, t, t)
  {
    assert PathTo(w, floor, [t], t, t);
  }

  lemma ReachesByInput(w: World, floor: nat, t: TypeId, y: TypeId, x: TypeId)
    requires IsOpened(w, floor, t) && HasInput(w.byOutput[t].inputs, y) && Reaches(w, floor, y, x)
    ensures Reaches(w, floor, t, x)
  {
    hide HasInput;
    var p :| PathTo(w, floor, p, y, x);
    var longer := [t] + p;
    forall i | 0 <= i < |longer| - 1
      ensures IsOpened(w, floor, longer[i]) && HasInput(w.byOutput[longer[i]].inputs, longer[i + 1])
    {
      if i > 0 {
        assert longer[i] == p[i - 1] && longer[i + 1] == p[i];
      }
    }
    assert PathTo(w, floor, longer, t, x);
  }

  /** A path is over at once, or goes through an input. */
  lemma FirstStep(w: World, floor: nat, t: TypeId, x: TypeId) returns (k: nat)
    requires Reaches(w, floor, t, x) && t != x
    ensures IsOpened(w, floor, t) && k < |w.byOutput[t].inputs|
    ensures Reaches(w, floor, w.byOutput[t].inputs[k].typeId, x)
  {
    var p :| PathTo(w, floor, p, t, x);
    var rest := p[1..];
    assert HasInput(w.byOutput[p[0]].inputs, p[1]);
    k :| 0 <= k < |w.byOutput[t].inputs| && w.byOutput[t].inputs[k].typeId == p[1];
    forall i | 0 <= i < |rest| - 1
      ensures IsOpened(w, floor, rest[i]) && HasInput(w.byOutput[rest[i]].inputs, rest[i + 1])
    {
      assert rest[i] == p[i + 1] && rest[i + 1] == p[i + 2];
    }
    assert PathTo(w, floor, rest, p[1], x);
  }

  lemma LeftOfUnopened(w: World, floor: nat, t: TypeId, x: TypeId)
    requires !IsOpened(w, floor, t)
    ensures LeftOf(w, floor, t, x) <==> x == t
  {
    ReachesItself(w, floor, t);
    if LeftOf(w, floor, t, x) && x != t {
      var _ := FirstStep(w, floor, t, x);
      assert false;
    }
  }

  lemma LeftOfOpened(w: World, floor: nat, t: TypeId, x: TypeId)
    requires IsOpened(w, floor, t)
    ensures LeftOf(w, floor, t, x) <==> LeftOfLines(w, floor, w.byOutput[t].inputs, x)
  {
    hide Reaches;
    var lines := w.byOutput[t].inputs;
    if LeftOf(w, floor, t, x) {
      var k := FirstStep(w, floor, t, x);
      assert LeftOf(w, floor, lines[k].typeId, x);
    }
    if LeftOfLines(w, floor, lines, x) {
      var k :| 0 <= k < |lines| && LeftOf(w, floor, lines[k].typeId, x);
      assert HasInput(lines, lines[k].typeId);
      ReachesByInput(w, floor, t, lines[k].typeId, x);
    }
  }

  lemma LeftOfLast(w: World, floor: nat, lines: seq<Material>, x: TypeId)
    requires lines != []
    ensures LeftOfLines(w, floor, lines, x)
       <==> LeftOfLines(w, floor, lines[..|lines| - 1], x) || LeftOf(w, floor, lines[|lines| - 1].typeId, x)
  {
    hide LeftOf;
    var front := lines[..|lines| - 1];
    if LeftOfLines(w, floor, lines, x) {
      var k :| 0 <= k < |lines| && LeftOf(w, floor, lines[k].typeId, x);
      assert k < |front| ==> front[k] == lines[k];
    }
    if LeftOfLines(w, floor, front, x) {
      var k :| 0 <= k < |front| && LeftOf(w, floor, front[k].typeId, x);
      assert front[k] == lines[k];
    }
  }

  lemma {:induction false} LeavesByPaths(w: World, t: TypeId, floor: nat, x: TypeId)
    requires w.Ends(t, floor)
    ensures x in Leaves(w, t, floor) <==> LeftOf(w, floor, t, x)
    decreases w.Depth(t, floor), 0, 0
  {
    hide LeftOf, LeftOfLines;
    OpensPlainly(w, floor, t);
    if w.Opens(t, floor) {
      Opened(w, t, floor);
      LeavesOfLinesByPaths(w, w.byOutput[t].inputs, floor, x);
      LeftOfOpened(w, floor, t, x);
    } else {
      LeftOfUnopened(w, floor, t, x);
    }
  }

  lemma {:induction false} LeavesOfLinesByPaths(w: World, lines: seq<Material>, floor: nat, x: TypeId)
    requires w.LinesEnd(lines, floor)
    ensures x in LeavesOfLines(w, lines, floor) <==> LeftOfLines(w, floor, lines, x)
    decreases w.LinesDepth(lines, floor), 1, |lines|
  {
    hide LeftOf;
    if lines == [] {
      assert !LeftOfLines(w, floor, lines, x);
    } else {
      Parted(w, lines, floor);
      LeavesOfLinesByPaths(w, lines[..|lines| - 1], floor, x);
      LeavesByPaths(w, lines[|lines| - 1].typeId, floor, x);
      LeftOfLast(w, floor, lines, x);
    }
  }

  // Where the recursion ends

  /** A path of `n + 1` opened types from `t`. */
  ghost predicate OpenPath(w: World, floor: nat, p: seq<TypeId>, t: TypeId, n: nat) {
    IsPath(w, floor, p) && p[0] == t && |p| == n + 1 && IsOpened(w, floor, p[n])
  }

  ghost predicate HasOpenPath(w: World, floor: nat, t: TypeId, n: nat) {
    exists p :: OpenPath(w, floor, p, t, n)
  }

  lemma OpenPathOn(w: World, floor: nat, p: seq<TypeId>, t: TypeId, n: nat)
    returns (k: nat, rest: seq<TypeId>)
    requires OpenPath(w, floor, p, t, n) && 0 < n
    ensures IsOpened(w, floor, t) && k < |w.byOutput[t].inputs|
    ensures OpenPath(w, floor, rest, w.byOutput[t].inputs[k].typeId, n - 1)
  {
    rest := p[1..];
    assert HasInput(w.byOutput[p[0]].inputs, p[1]);
    k :| 0 <= k < |w.byOutput[t].inputs| && w.byOutput[t].inputs[k].typeId == p[1];
    forall i | 0 <= i < |rest| - 1
      ensures IsOpened(w, floor, rest[i]) && HasInput(w.byOutput[rest[i]].inputs, rest[i + 1])
    {
      assert rest[i] == p[i + 1] && rest[i + 1] == p[i + 2];
    }
  }

  lemma OpenPathBefore(w: World, floor: nat, p: seq<TypeId>, t: TypeId, k: nat, n: nat)
    requires IsOpened(w, floor, t) && k < |w.byOutput[t].inputs|
    requires OpenPath(w, floor, p, w.byOutput[t].inputs[k].typeId, n)
    ensures OpenPath(w, floor, [t] + p, t, n + 1)
  {
    var longer := [t] + p;
    assert HasInput(w.byOutput[t].inputs, p[0]);
    forall i | 0 <= i < |longer| - 1
      ensures IsOpened(w, floor, longer[i]) && HasInput(w.byOutput[longer[i]].inputs, longer[i + 1])
    {
      if i > 0 {
        assert longer[i] == p[i - 1] && longer[i + 1] == p[i];
      }
    }
  }

  /** The recursion is over after `n` rounds exactly when no path opens more than `n` types in a row. */
  lemma {:induction false} EndsByPaths(w: World, floor: nat, t: TypeId, n: nat)
    ensures w.EndsIn(t, floor, n) <==> !HasOpenPath(w, floor, t, n)
    decreases n, 1
  {
    OpensPlainly(w, floor, t);
    if w.Opens(t, floor) {
      if n == 0 {
        assert OpenPath(w, floor, [t], t, 0);
      } else {
        EndsByPathsOfInputs(w, floor, t, n);
      }
    }
  }

  lemma {:induction false} EndsByPathsOfInputs(w: World, floor: nat, t: TypeId, n: nat)
    requires w.Opens(t, floor) && IsOpened(w, floor, t) && 0 < n
    ensures w.EndsIn(t, floor, n) <==> !HasOpenPath(w, floor, t, n)
    decreases n, 0
  {
    hide OpenPath;
    var lines := w.byOutput[t].inputs;
    forall k | 0 <= k < |lines|
      ensures w.EndsIn(lines[k].typeId, floor, n - 1) <==> !HasOpenPath(w, floor, lines[k].typeId, n - 1)
    {
      EndsByPaths(w, floor, lines[k].typeId, n - 1);
    }
    if HasOpenPath(w, floor, t, n) {
      var p :| OpenPath(w, floor, p, t, n);
      var k, rest := OpenPathOn(w, floor, p, t, n);
      assert HasOpenPath(w, floor, lines[k].typeId, n - 1);
      assert lines[k] in lines;
    }
    if !w.EndsIn(t, floor, n) {
      var k :| 0 <= k < |lines| && !w.EndsIn(lines[k].typeId, floor, n - 1);
      var p :| OpenPath(w, floor, p, lines[k].typeId, n - 1);
      OpenPathBefore(w, floor, p, t, k, n - 1);
      assert HasOpenPath(w, floor, t, n);
    }
  }

  // Even prices

  lemma EvenBelow(w: World, floor: nat, t: TypeId, price: int -> real)
    requires Even(w, floor, t, price) && IsOpened(w, floor, t)
    ensures EvenLines(w, floor, w.byOutput[t].inputs, price)
  {
    hide Reaches, DirectCost;
    var lines := w.byOutput[t].inputs;
    forall k, s | 0 <= k < |lines| && Reaches(w, floor, lines[k].typeId, s)
      ensures Reaches(w, floor, t, s)
    {
      assert HasInput(lines, lines[k].typeId);
      ReachesByInput(w, floor, t, lines[k].typeId, s);
    }
  }

  lemma {:induction false} EvenValue(w: World, t: TypeId, q: real, floor: nat, price: int -> real)
    requires w.Ends(t, floor) && Even(w, floor, t, price)
    ensures Value(w, t, q, floor, price) == q * price(t)
    decreases w.Depth(t, floor), 0, 0
  {
    hide DirectCost, Reaches, RunsNeeded;
    OpensPlainly(w, floor, t);
    if w.Opens(t, floor) {
      Opened(w, t, floor);
      ReachesItself(w, floor, t);
      EvenBelow(w, floor, t, price);
      var s := w.byOutput[t];
      EvenValueOfLines(w, s.inputs, RunsNeeded(q, s.outputQuantity), floor, price);
      RunsPayOff(q, s.outputQuantity, DirectCost(s.inputs, price), price(t));
    }
  }

  lemma {:induction false} EvenValueOfLines(w: World, lines: seq<Material>, runs: real, floor: nat,
                                            price: int -> real)
    requires w.LinesEnd(lines, floor) && EvenLines(w, floor, lines, price)
    ensures ValueOfLines(w, lines, runs, floor, price) == runs * DirectCost(lines, price)
    decreases w.LinesDepth(lines, floor), 1, |lines|
  {
    hide Even, Supply, Value, DirectCost;
    if lines == [] {
      NoLinesCost(runs, price);
    } else {
      Parted(w, lines, floor);
      var front, last := lines[..|lines| - 1], lines[|lines| - 1];
      assert forall k :: 0 <= k < |front| ==> front[k] == lines[k];
      EvenValueOfLines(w, front, runs, floor, price);
      EvenValue(w, last.typeId, Supply(runs, last.quantity), floor, price);
      LastLineCost(lines, runs, price);
    }
  }

  lemma WorthByLines(amounts: map<TypeId, real>, price: int -> real)
    ensures Worth(amounts, price) == RealSum(amounts.Keys, LineWorth(amounts, price))
  {
    hide RealSum;
    RealSumSame(amounts.Keys, (x: int) => if x in amounts then amounts[x] * price(x) else 0.0,
                LineWorth(amounts, price));
  }

  // What the recursion computes is the expansion

  lemma LinesAreExpanded(w: World, lines: seq<Material>, runs: real, floor: nat)
    requires w.LinesEnd(lines, floor)
    ensures IsExpansionOfLines(w, floor, lines, runs, ExpansionOfLines(w, lines, runs, floor))
  {
    hide ValueOfLines, LeavesOfLines, LeftOfLines, EvenLines, RealSum, DirectCost, Worth;
    var amounts := ExpansionOfLines(w, lines, runs, floor);
    forall x
      ensures x in amounts <==> LeftOfLines(w, floor, lines, x)
    {
      LeavesOfLinesByPaths(w, lines, floor, x);
    }
    forall price | EvenLines(w, floor, lines, price)
      ensures Worth(amounts, price) == runs * DirectCost(lines, price)
    {
      ExpansionWorth(w, lines, runs, floor, price);
      EvenValueOfLines(w, lines, runs, floor, price);
      WorthByLines(amounts, price);
    }
  }

  lemma ExpansionWorthOf(w: World, t: TypeId, q: real, floor: nat, price: int -> real)
    requires w.Ends(t, floor)
    ensures Worth(Expansion(w, t, q, floor), price) == Value(w, t, q, floor, price)
  {
    hide ValueOfLines, LeavesOfLines, RealSum, RunsNeeded;
    var amounts := Expansion(w, t, q, floor);
    WorthByLines(amounts, price);
    if w.Opens(t, floor) {
      Opened(w, t, floor);
      var s := w.byOutput[t];
      assert amounts == ExpansionOfLines(w, s.inputs, RunsNeeded(q, s.outputQuantity), floor);
      ExpansionWorth(w, s.inputs, RunsNeeded(q, s.outputQuantity), floor, price);
    } else {
      assert amounts.Keys == {t};
      RealSumOne(t, LineWorth(amounts, price));
    }
  }

  lemma RealSumOne(k: int, f: int -> real)
    ensures RealSum({k}, f) == f(k)
  {
    RealSumPick({k}, f, k);
    assert {k} - {k} == {};
  }

  lemma TypeIsExpanded(w: World, t: TypeId, q: real, floor: nat)
    requires w.Ends(t, floor)
    ensures IsExpansion(w, floor, t, q, Expansion(w, t, q, floor))
  {
    hide Value, Leaves, LeftOf, Even, Worth;
    var amounts := Expansion(w, t, q, floor);
    forall x
      ensures x in amounts <==> LeftOf(w, floor, t, x)
    {
      LeavesByPaths(w, t, floor, x);
    }
    forall price | Even(w, floor, t, price)
      ensures Worth(amounts, price) == q * price(t)
    {
      ExpansionWorthOf(w, t, q, floor, price);
      EvenValue(w, t, q, floor, price);
    }
  }

  // ... and nothing else is

  /** Prices at which a unit of `x` costs 1, no other type that is left costs anything, and everything else costs
      the `x` in it. */
  ghost function PriceOfOnly(w: World, floor: nat, x: TypeId): int -> real {
    Deeper(w, floor, Indicator(x))
  }

  lemma {:induction false} ReachedEnds(w: World, floor: nat, t: TypeId, s: TypeId)
    requires w.Ends(t, floor) && Reaches(w, floor, t, s)
    ensures w.Ends(s, floor)
    decreases w.Depth(t, floor)
  {
    hide Reaches;
    OpensPlainly(w, floor, t);
    if t != s {
      var k := FirstStep(w, floor, t, s);
      var lines := w.byOutput[t].inputs;
      Opened(w, t, floor);
      PrefixEnds(w, lines, floor, k);
      ReachedEnds(w, floor, lines[k].typeId, s);
    }
  }

  lemma {:induction false} DeeperLines(w: World, lines: seq<Material>, floor: nat, weight: int -> real)
    requires w.LinesEnd(lines, floor)
    ensures DirectCost(lines, Deeper(w, floor, weight)) == ValueOfLines(w, lines, 1.0, floor, weight)
    decreases |lines|
  {
    hide Value;
    if lines != [] {
      Parted(w, lines, floor);
      var front, last := lines[..|lines| - 1], lines[|lines| - 1];
      DeeperLines(w, front, floor, weight);
      var n := Supply(1.0, last.quantity);
      ValueScales(w, last.typeId, n, 1.0, n, floor, weight);
    }
  }

  lemma OnlyIsEven(w: World, floor: nat, t: TypeId, x: TypeId)
    requires w.Ends(t, floor)
    ensures Even(w, floor, t, PriceOfOnly(w, floor, x))
  {
    hide Value, ValueOfLines, DirectCost, Reaches;
    forall s | Reaches(w, floor, t, s) && IsOpened(w, floor, s)
      ensures DirectCost(w.byOutput[s].inputs, PriceOfOnly(w, floor, x))
           == w.byOutput[s].outputQuantity as real * PriceOfOnly(w, floor, x)(s)
    {
      ReachedEnds(w, floor, t, s);
      OpensPlainly(w, floor, s);
      Opened(w, s, floor);
      DeeperLines(w, w.byOutput[s].inputs, floor, Indicator(x));
      UnitOpened(w, s, floor, Indicator(x));
    }
  }

  lemma {:induction false} RealSumOfOne(keys: set<int>, f: int -> real, x: int)
    requires forall k :: k in keys && k != x ==> f(k) == 0.0
    ensures RealSum(keys, f) == if x in keys then f(x) else 0.0
    decreases |keys|
  {
    if keys != {} {
      var k := Pick(keys);
      RealSumPick(keys, f, k);
      RealSumOfOne(keys - {k}, f, x);
    }
  }

  /** Priced so, a dict of types that are left costs its amount of `x`. */
  lemma WorthOfOnly(w: World, floor: nat, x: TypeId, amounts: map<TypeId, real>)
    requires forall y :: y in amounts ==> !IsOpened(w, floor, y)
    ensures Worth(amounts, PriceOfOnly(w, floor, x)) == if x in amounts then amounts[x] else 0.0
  {
    hide RealSum;
    var price := PriceOfOnly(w, floor, x);
    forall y | y in amounts
      ensures price(y) == Indicator(x)(y)
    {
      OpensPlainly(w, floor, y);
    }
    RealSumOfOne(amounts.Keys, (y: int) => if y in amounts then amounts[y] * price(y) else 0.0, x);
  }

  /** Where the recursion ends, the paths and the even prices decide the dict. */
  lemma ExpansionIsDecided(w: World, floor: nat, t: TypeId, q: real, a: map<TypeId, real>, b: map<TypeId, real>)
    requires w.Ends(t, floor) && IsExpansion(w, floor, t, q, a) && IsExpansion(w, floor, t, q, b)
    ensures a == b
  {
    hide Reaches, IsOpened, Even, Worth, PriceOfOnly;
    assert forall x :: x in a <==> x in b;
    forall x | x in a
      ensures a[x] == b[x]
    {
      OnlyIsEven(w, floor, t, x);
      WorthOfOnly(w, floor, x, a);
      WorthOfOnly(w, floor, x, b);
      assert Worth(a, PriceOfOnly(w, floor, x)) == Worth(b, PriceOfOnly(w, floor, x));
    }
    SameMap(a, b);
  }

  lemma LinesExpansionIsDecided(w: World, floor: nat, lines: seq<Material>, runs: real,
                                a: map<TypeId, real>, b: map<TypeId, real>)
    requires w.LinesEnd(lines, floor)
    requires IsExpansionOfLines(w, floor, lines, runs, a) && IsExpansionOfLines(w, floor, lines, runs, b)
    ensures a == b
  {
    hide Reaches, IsOpened, Even, Worth, PriceOfOnly, DirectCost;
    assert forall x :: x in a <==> x in b;
    forall x | x in a
      ensures a[x] == b[x]
    {
      var price := PriceOfOnly(w, floor, x);
      forall k | 0 <= k < |lines|
        ensures Even(w, floor, lines[k].typeId, price)
      {
        PrefixEnds(w, lines, floor, k);
        OnlyIsEven(w, floor, lines[k].typeId, x);
      }
      WorthOfOnly(w, floor, x, a);
      WorthOfOnly(w, floor, x, b);
      assert EvenLines(w, floor, lines, price);
    }
    SameMap(a, b);
  }
}
