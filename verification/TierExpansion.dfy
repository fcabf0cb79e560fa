/** `_expand_to_tier`: replacing a commodity by its inputs down to a floor tier. Quantities and
    prices are exact reals. */
module TierExpansion {
  import opened Maps
  import opened Sums
  import opened Recipes

  datatype Schematic = Schematic(id: int, outputType: TypeId, outputQuantity: Count,
                                 inputs: seq<Material>, cycleSeconds: Count)

  /** The two dicts the expansion reads; a type without a tier counts as tier 0. */
  datatype World = World(byOutput: map<TypeId, Schematic>, tiers: map<TypeId, nat>) {
    function Tier(t: TypeId): nat {
      if t in tiers then tiers[t] else 0
    }

    /** `t` is replaced by its inputs at this floor. */
    predicate Opens(t: TypeId, floor: nat) {
      t in byOutput && floor < Tier(t)
    }

    /** Replacing `t` by its inputs, those by theirs and so on is over after at most `n` rounds. */
    predicate EndsIn(t: TypeId, floor: nat, n: nat)
      decreases n
    {
      Opens(t, floor) ==> n > 0 && forall line :: line in byOutput[t].inputs ==> EndsIn(line.typeId, floor, n - 1)
    }

    predicate LinesEndIn(lines: seq<Material>, floor: nat, n: nat) {
      forall line :: line in lines ==> EndsIn(line.typeId, floor, n)
    }

    /** The recursion from `t` ends. */
    ghost predicate Ends(t: TypeId, floor: nat) {
      exists n: nat :: EndsIn(t, floor, n)
    }

    /** So do those from the input lines. */
    ghost predicate LinesEnd(lines: seq<Material>, floor: nat) {
      exists n: nat :: LinesEndIn(lines, floor, n)
    }

    ghost function LeastDepth(t: TypeId, floor: nat, n: nat): (k: nat)
      requires EndsIn(t, floor, n)
      ensures EndsIn(t, floor, k) && forall m: nat :: m < k ==> !EndsIn(t, floor, m)
    {
      if m: nat :| m < n && EndsIn(t, floor, m) then LeastDepth(t, floor, m) else n
    }

    ghost function LeastLinesDepth(lines: seq<Material>, floor: nat, n: nat): (k: nat)
      requires LinesEndIn(lines, floor, n)
      ensures LinesEndIn(lines, floor, k) && forall m: nat :: m < k ==> !LinesEndIn(lines, floor, m)
    {
      if m: nat :| m < n && LinesEndIn(lines, floor, m) then LeastLinesDepth(lines, floor, m) else n
    }

    /** After how many rounds. */
    ghost function Depth(t: TypeId, floor: nat): (n: nat)
      requires Ends(t, floor)
      ensures EndsIn(t, floor, n) && forall m: nat :: m < n ==> !EndsIn(t, floor, m)
    {
      var n: nat :| EndsIn(t, floor, n);
      LeastDepth(t, floor, n)
    }

    ghost function LinesDepth(lines: seq<Material>, floor: nat): (n: nat)
      requires LinesEnd(lines, floor)
      ensures LinesEndIn(lines, floor, n) && forall m: nat :: m < n ==> !LinesEndIn(lines, floor, m)
    {
      var n: nat :| LinesEndIn(lines, floor, n);
      LeastLinesDepth(lines, floor, n)
    }

    /** Every input sits strictly below its output. Then all recursions end (`GradedEnds`). */
    predicate Graded() {
      forall t, line :: t in byOutput && 0 < Tier(t) && line in byOutput[t].inputs ==>
                          Tier(line.typeId) < Tier(t)
    }
  }

  // When the recursion ends

  /** The inputs of an opened type take a round less. */
  lemma Opened(w: World, t: TypeId, floor: nat)
    requires w.Ends(t, floor) && w.Opens(t, floor)
    ensures w.LinesEnd(w.byOutput[t].inputs, floor)
    ensures w.LinesDepth(w.byOutput[t].inputs, floor) < w.Depth(t, floor)
  {
    assert w.LinesEndIn(w.byOutput[t].inputs, floor, w.Depth(t, floor) - 1);
  }

  /** A list ends when its last line and the lines before it do. */
  lemma Parted(w: World, lines: seq<Material>, floor: nat)
    requires w.LinesEnd(lines, floor) && lines != []
    ensures var front, last := lines[..|lines| - 1], lines[|lines| - 1];
      && w.LinesEnd(front, floor) && w.LinesDepth(front, floor) <= w.LinesDepth(lines, floor)
      && w.Ends(last.typeId, floor) && w.Depth(last.typeId, floor) <= w.LinesDepth(lines, floor)
  {
    var front, n := lines[..|lines| - 1], w.LinesDepth(lines, floor);
    assert forall line :: line in front ==> line in lines;
    assert w.LinesEndIn(front, floor, n);
    assert w.EndsIn(lines[|lines| - 1].typeId, floor, n);
  }

  lemma {:induction false} EndsInMore(w: World, t: TypeId, low: nat, high: nat, n: nat, more: nat)
    requires w.EndsIn(t, low, n) && low <= high && n <= more
    ensures w.EndsIn(t, high, more)
    decreases n
  {
    if w.Opens(t, high) {
      forall line | line in w.byOutput[t].inputs
        ensures w.EndsIn(line.typeId, high, more - 1)
      {
        EndsInMore(w, line.typeId, low, high, n - 1, more - 1);
      }
    }
  }

  /** What ends at a floor ends at every higher one. */
  lemma EndsHigher(w: World, t: TypeId, low: nat, high: nat)
    requires w.Ends(t, low) && low <= high
    ensures w.Ends(t, high)
  {
    EndsInMore(w, t, low, high, w.Depth(t, low), w.Depth(t, low));
  }

  lemma LinesEndHigher(w: World, lines: seq<Material>, low: nat, high: nat)
    requires w.LinesEnd(lines, low) && low <= high
    ensures w.LinesEnd(lines, high)
  {
    var n := w.LinesDepth(lines, low);
    forall line | line in lines
      ensures w.EndsIn(line.typeId, high, n)
    {
      EndsInMore(w, line.typeId, low, high, n, n);
    }
    assert w.LinesEndIn(lines, high, n);
  }

  lemma PrefixEnds(w: World, lines: seq<Material>, floor: nat, i: nat)
    requires w.LinesEnd(lines, floor) && i <= |lines|
    ensures w.LinesEnd(lines[..i], floor)
    ensures i < |lines| ==>
              w.Ends(lines[i].typeId, floor) && w.Depth(lines[i].typeId, floor) <= w.LinesDepth(lines, floor)
  {
    var n := w.LinesDepth(lines, floor);
    assert w.LinesEndIn(lines[..i], floor, n);
    assert i < |lines| ==> lines[i] in lines && w.EndsIn(lines[i].typeId, floor, n);
  }

  lemma {:induction false} GradedEndsIn(w: World, t: TypeId, floor: nat, n: nat)
    requires w.Graded() && w.Tier(t) <= n
    ensures w.EndsIn(t, floor, n)
    decreases n
  {
    if w.Opens(t, floor) {
      forall line | line in w.byOutput[t].inputs
        ensures w.EndsIn(line.typeId, floor, n - 1)
      {
        GradedEndsIn(w, line.typeId, floor, n - 1);
      }
    }
  }

  lemma GradedEnds(w: World, t: TypeId, floor: nat)
    requires w.Graded()
    ensures w.Ends(t, floor)
  {
    GradedEndsIn(w, t, floor, w.Tier(t));
  }

  /** A list whose lines end, each for itself. */
  lemma {:induction false} EachEnds(w: World, lines: seq<Material>, floor: nat)
    requires forall line :: line in lines ==> w.Ends(line.typeId, floor)
    ensures w.LinesEnd(lines, floor)
  {
    if lines == [] {
      assert w.LinesEndIn(lines, floor, 0);
    } else {
      var front, last := lines[..|lines| - 1], lines[|lines| - 1];
      assert last in lines;
      EachEnds(w, front, floor);
      var a, b := w.LinesDepth(front, floor), w.Depth(last.typeId, floor);
      var n := if a < b then b else a;
      forall line | line in lines
        ensures w.EndsIn(line.typeId, floor, n)
      {
        if line in front {
          EndsInMore(w, line.typeId, floor, floor, a, n);
        } else {
          EndsInMore(w, line.typeId, floor, floor, b, n);
        }
      }
      assert w.LinesEndIn(lines, floor, n);
    }
  }

  // Quantities and values

  function RunsNeeded(q: real, outputQuantity: Count): real {
    q / outputQuantity as real
  }

  function Supply(runs: real, quantity: Count): real {
    runs * quantity as real
  }

  /** The worth of `q` of `t` expanded to `floor`, when a unit of `y` left unexpanded is worth
      `weight(y)`. Prices give the cost; the indicator of `x` gives the amount of `x`. */
  ghost function Value(w: World, t: TypeId, q: real, floor: nat, weight: int -> real): real
    requires w.Ends(t, floor)
    decreases w.Depth(t, floor), 0, 0
  {
    if w.Opens(t, floor) then
      Opened(w, t, floor);
      ValueOfLines(w, w.byOutput[t].inputs, RunsNeeded(q, w.byOutput[t].outputQuantity), floor, weight)
    else
      q * weight(t)
  }

  /** The same for `runs` runs of a list of input lines. */
  ghost function ValueOfLines(w: World, lines: seq<Material>, runs: real, floor: nat,
                              weight: int -> real): real
    requires w.LinesEnd(lines, floor)
    decreases w.LinesDepth(lines, floor), 1, |lines|
  {
    if lines == [] then 0.0
    else
      var front, last := lines[..|lines| - 1], lines[|lines| - 1];
      Parted(w, lines, floor);
      ValueOfLines(w, front, runs, floor, weight) +
      Value(w, last.typeId, Supply(runs, last.quantity), floor, weight)
  }

  /** The types left after expanding `t`. */
  ghost function Leaves(w: World, t: TypeId, floor: nat): set<TypeId>
    requires w.Ends(t, floor)
    decreases w.Depth(t, floor), 0, 0
  {
    if w.Opens(t, floor) then
      Opened(w, t, floor);
      LeavesOfLines(w, w.byOutput[t].inputs, floor)
    else {t}
  }

  ghost function LeavesOfLines(w: World, lines: seq<Material>, floor: nat): set<TypeId>
    requires w.LinesEnd(lines, floor)
    decreases w.LinesDepth(lines, floor), 1, |lines|
  {
    if lines == [] then {}
    else
      Parted(w, lines, floor);
      LeavesOfLines(w, lines[..|lines| - 1], floor) + Leaves(w, lines[|lines| - 1].typeId, floor)
  }

  function Indicator(x: TypeId): int -> real {
    y => if y == x then 1.0 else 0.0
  }

  ghost function Expansion(w: World, t: TypeId, q: real, floor: nat): map<TypeId, real>
    requires w.Ends(t, floor)
  {
    map x | x in Leaves(w, t, floor) :: Value(w, t, q, floor, Indicator(x))
  }

  ghost function ExpansionOfLines(w: World, lines: seq<Material>, runs: real, floor: nat): map<TypeId, real>
    requires w.LinesEnd(lines, floor)
  {
    map x | x in LeavesOfLines(w, lines, floor) :: ValueOfLines(w, lines, runs, floor, Indicator(x))
  }

  // The value only depends on the weights of the leaves

  lemma {:induction false} ValueSame(w: World, t: TypeId, q: real, floor: nat, a: int -> real, b: int -> real)
    requires w.Ends(t, floor) && forall y :: y in Leaves(w, t, floor) ==> a(y) == b(y)
    ensures Value(w, t, q, floor, a) == Value(w, t, q, floor, b)
    decreases w.Depth(t, floor), 0, 0
  {
    if w.Opens(t, floor) {
      Opened(w, t, floor);
      var s := w.byOutput[t];
      ValueOfLinesSame(w, s.inputs, RunsNeeded(q, s.outputQuantity), floor, a, b);
    }
  }

  lemma {:induction false} ValueOfLinesSame(w: World, lines: seq<Material>, runs: real, floor: nat,
                                            a: int -> real, b: int -> real)
    requires w.LinesEnd(lines, floor)
    requires forall y :: y in LeavesOfLines(w, lines, floor) ==> a(y) == b(y)
    ensures ValueOfLines(w, lines, runs, floor, a) == ValueOfLines(w, lines, runs, floor, b)
    decreases w.LinesDepth(lines, floor), 1, |lines|
  {
    hide Supply;
    if lines != [] {
      Parted(w, lines, floor);
      var front, last := lines[..|lines| - 1], lines[|lines| - 1];
      ValueOfLinesSame(w, front, runs, floor, a, b);
      ValueSame(w, last.typeId, Supply(runs, last.quantity), floor, a, b);
    }
  }

  // ... and is linear in the quantity and in the weights

  lemma {:induction false} ValueScales(w: World, t: TypeId, c: real, q: real, scaled: real, floor: nat,
                                       weight: int -> real)
    requires w.Ends(t, floor) && scaled == c * q
    ensures Value(w, t, scaled, floor, weight) == c * Value(w, t, q, floor, weight)
    decreases w.Depth(t, floor), 0, 0
  {
    if w.Opens(t, floor) {
      Opened(w, t, floor);
      hide RunsNeeded;
      var s := w.byOutput[t];
      RunsNeededScales(c, q, scaled, s.outputQuantity);
      ValueOfLinesScales(w, s.inputs, c, RunsNeeded(q, s.outputQuantity),
                         RunsNeeded(scaled, s.outputQuantity), floor, weight);
    }
  }

  lemma RunsNeededScales(c: real, q: real, scaled: real, n: Count)
    requires scaled == c * q
    ensures RunsNeeded(scaled, n) == c * RunsNeeded(q, n)
  {
    var r := n as real;
    assert c * q == c * (q / r * r) == c * (q / r) * r;
  }

  lemma SupplyScales(c: real, runs: real, scaled: real, n: Count)
    requires scaled == c * runs
    ensures Supply(scaled, n) == c * Supply(runs, n)
  {
  }

  lemma {:induction false} ValueOfLinesScales(w: World, lines: seq<Material>, c: real, runs: real,
                                              scaled: real, floor: nat, weight: int -> real)
    requires w.LinesEnd(lines, floor) && scaled == c * runs
    ensures ValueOfLines(w, lines, scaled, floor, weight)
         == c * ValueOfLines(w, lines, runs, floor, weight)
    decreases w.LinesDepth(lines, floor), 1, |lines|
  {
    hide Supply;
    if lines != [] {
      Parted(w, lines, floor);
      var front, last := lines[..|lines| - 1], lines[|lines| - 1];
      ValueOfLinesScales(w, front, c, runs, scaled, floor, weight);
      SupplyScales(c, runs, scaled, last.quantity);
      ValueScales(w, last.typeId, c, Supply(runs, last.quantity), Supply(scaled, last.quantity), floor, weight);
    }
  }

  lemma {:induction false} ValueSplits(w: World, t: TypeId, q: real, floor: nat, f: int -> real, c: real,
                                       g: int -> real, h: int -> real)
    requires w.Ends(t, floor) && forall y :: h(y) == f(y) + c * g(y)
    ensures Value(w, t, q, floor, h) == Value(w, t, q, floor, f) + c * Value(w, t, q, floor, g)
    decreases w.Depth(t, floor), 0, 0
  {
    hide RunsNeeded;
    if w.Opens(t, floor) {
      Opened(w, t, floor);
      var s := w.byOutput[t];
      ValueOfLinesSplits(w, s.inputs, RunsNeeded(q, s.outputQuantity), floor, f, c, g, h);
    } else {
      SplitProduct(q, f(t), c, g(t));
    }
  }

  lemma SplitProduct(q: real, a: real, c: real, b: real)
    ensures q * (a + c * b) == q * a + c * (q * b)
  {
    assert q * (c * b) == c * (q * b);
    assert q * (a + c * b) == q * a + q * (c * b);
  }

  lemma {:induction false} ValueOfLinesSplits(w: World, lines: seq<Material>, runs: real, floor: nat,
                                              f: int -> real, c: real, g: int -> real, h: int -> real)
    requires w.LinesEnd(lines, floor) && forall y :: h(y) == f(y) + c * g(y)
    ensures ValueOfLines(w, lines, runs, floor, h)
         == ValueOfLines(w, lines, runs, floor, f) + c * ValueOfLines(w, lines, runs, floor, g)
    decreases w.LinesDepth(lines, floor), 1, |lines|
  {
    hide Supply, Value;
    if lines != [] {
      Parted(w, lines, floor);
      var front, last := lines[..|lines| - 1], lines[|lines| - 1];
      ValueOfLinesSplits(w, front, runs, floor, f, c, g, h);
      var n := Supply(runs, last.quantity);
      ValueSplits(w, last.typeId, n, floor, f, c, g, h);
      Regroup(c, ValueOfLines(w, front, runs, floor, g), Value(w, last.typeId, n, floor, g));
    }
  }

  lemma Regroup(c: real, a: real, b: real)
    ensures c * (a + b) == c * a + c * b
  {
  }

  lemma {:induction false} ValueOrdered(w: World, t: TypeId, q: real, floor: nat, f: int -> real, g: int -> real)
    requires w.Ends(t, floor) && 0.0 <= q && forall y :: f(y) <= g(y)
    ensures Value(w, t, q, floor, f) <= Value(w, t, q, floor, g)
    decreases w.Depth(t, floor), 0, 0
  {
    if w.Opens(t, floor) {
      Opened(w, t, floor);
      var s := w.byOutput[t];
      ValueOfLinesOrdered(w, s.inputs, RunsNeeded(q, s.outputQuantity), floor, f, g);
    } else {
      assert 0.0 <= q * (g(t) - f(t)) == q * g(t) - q * f(t);
    }
  }

  lemma {:induction false} ValueOfLinesOrdered(w: World, lines: seq<Material>, runs: real, floor: nat,
                                               f: int -> real, g: int -> real)
    requires w.LinesEnd(lines, floor) && 0.0 <= runs && forall y :: f(y) <= g(y)
    ensures ValueOfLines(w, lines, runs, floor, f) <= ValueOfLines(w, lines, runs, floor, g)
    decreases w.LinesDepth(lines, floor), 1, |lines|
  {
    if lines != [] {
      Parted(w, lines, floor);
      var front, last := lines[..|lines| - 1], lines[|lines| - 1];
      ValueOfLinesOrdered(w, front, runs, floor, f, g);
      ValueOrdered(w, last.typeId, Supply(runs, last.quantity), floor, f, g);
    }
  }

  // The dict of amounts determines every value

  function WeightOn(keys: set<int>, weight: int -> real): int -> real {
    y => if y in keys then weight(y) else 0.0
  }

  /** What the line `x` of an expansion is worth. */
  function LineWorth(amounts: map<TypeId, real>, weight: int -> real): int -> real {
    x => if x in amounts then amounts[x] * weight(x) else 0.0
  }

  ghost function AmountWorth(w: World, lines: seq<Material>, runs: real, floor: nat,
                             weight: int -> real): int -> real
    requires w.LinesEnd(lines, floor)
  {
    x => (if w.LinesEnd(lines, floor) then ValueOfLines(w, lines, runs, floor, Indicator(x))
          else 0.0) * weight(x)
  }

  lemma {:induction false} WorthOfKeys(w: World, lines: seq<Material>, runs: real, floor: nat,
                                       weight: int -> real, keys: set<TypeId>)
    requires w.LinesEnd(lines, floor)
    ensures RealSum(keys, AmountWorth(w, lines, runs, floor, weight))
         == ValueOfLines(w, lines, runs, floor, WeightOn(keys, weight))
    decreases |keys|
  {
    hide ValueOfLines;
    hide AmountWorth;
    hide RealSum;
    hide WeightOn;
    if keys == {} {
      NothingWeighed(weight);
      ZeroValueOfLines(w, lines, runs, floor, WeightOn(keys, weight));
    } else {
      var x := Pick(keys);
      var rest := keys - {x};
      WorthOfKeys(w, lines, runs, floor, weight, rest);
      RealSumPick(keys, AmountWorth(w, lines, runs, floor, weight), x);
      AmountWorthAt(w, lines, runs, floor, weight, x);
      OneMoreWeight(keys, x, weight);
      ValueOfLinesSplits(w, lines, runs, floor, WeightOn(rest, weight), weight(x), Indicator(x),
                         WeightOn(keys, weight));
    }
  }

  lemma NothingWeighed(weight: int -> real)
    ensures forall y :: WeightOn({}, weight)(y) == 0.0
    ensures forall f :: RealSum({}, f) == 0.0
  {
  }

  lemma OneMoreWeight(keys: set<int>, x: int, weight: int -> real)
    requires x in keys
    ensures forall y :: WeightOn(keys, weight)(y) == WeightOn(keys - {x}, weight)(y) + weight(x) * Indicator(x)(y)
  {
  }

  lemma AmountWorthAt(w: World, lines: seq<Material>, runs: real, floor: nat,
                      weight: int -> real, x: int)
    requires w.LinesEnd(lines, floor)
    ensures AmountWorth(w, lines, runs, floor, weight)(x)
         == weight(x) * ValueOfLines(w, lines, runs, floor, Indicator(x))
  {
  }

  lemma ZeroValueOfLines(w: World, lines: seq<Material>, runs: real, floor: nat, zero: int -> real)
    requires w.LinesEnd(lines, floor) && forall y :: zero(y) == 0.0
    ensures ValueOfLines(w, lines, runs, floor, zero) == 0.0
  {
    ValueOfLinesSplits(w, lines, runs, floor, zero, 1.0, zero, zero);
  }

  /** Pricing the lines of an expansion one by one gives its value, for every weight. */
  lemma ExpansionWorth(w: World, lines: seq<Material>, runs: real, floor: nat, weight: int -> real)
    requires w.LinesEnd(lines, floor)
    ensures var amounts := ExpansionOfLines(w, lines, runs, floor);
      RealSum(amounts.Keys, LineWorth(amounts, weight)) == ValueOfLines(w, lines, runs, floor, weight)
  {
    hide ValueOfLines;
    hide LeavesOfLines;
    hide RealSum;
    hide AmountWorth;
    var keys := LeavesOfLines(w, lines, floor);
    var amounts := ExpansionOfLines(w, lines, runs, floor);
    assert amounts.Keys == keys;
    WorthOfKeys(w, lines, runs, floor, weight, keys);
    ValueOfLinesSame(w, lines, runs, floor, WeightOn(keys, weight), weight);
    forall x | x in keys
      ensures LineWorth(amounts, weight)(x) == AmountWorth(w, lines, runs, floor, weight)(x)
    {
      AmountWorthAt(w, lines, runs, floor, weight, x);
    }
    RealSumSame(keys, LineWorth(amounts, weight), AmountWorth(w, lines, runs, floor, weight));
  }

  /** Amounts of types that are not leaves are zero. */
  lemma AbsentAmount(w: World, lines: seq<Material>, runs: real, floor: nat, x: TypeId)
    requires w.LinesEnd(lines, floor) && x !in LeavesOfLines(w, lines, floor)
    ensures ValueOfLines(w, lines, runs, floor, Indicator(x)) == 0.0
  {
    ValueOfLinesSame(w, lines, runs, floor, Indicator(x), _ => 0.0);
    ZeroValueOfLines(w, lines, runs, floor, _ => 0.0);
  }

  // One output's worth

  lemma OneRun(n: Count)
    ensures RunsNeeded(n as real, n) == 1.0
  {
    var r := n as real;
    assert r / r == 1.0;
  }

  /** Where its inputs end, a type ends. */
  lemma OpenEnds(w: World, t: TypeId, floor: nat)
    requires t in w.byOutput && w.LinesEnd(w.byOutput[t].inputs, floor)
    ensures w.Ends(t, floor)
  {
    assert w.EndsIn(t, floor, w.LinesDepth(w.byOutput[t].inputs, floor) + 1);
  }

  /** Opening one output's worth of `t`. */
  lemma OneOutput(w: World, t: TypeId, floor: nat, weight: int -> real)
    requires w.Opens(t, floor) && w.LinesEnd(w.byOutput[t].inputs, floor)
    ensures w.Ends(t, floor)
    ensures Value(w, t, w.byOutput[t].outputQuantity as real, floor, weight)
         == ValueOfLines(w, w.byOutput[t].inputs, 1.0, floor, weight)
  {
    hide ValueOfLines;
    var n := w.byOutput[t].outputQuantity;
    OneRun(n);
    OpenEnds(w, t, floor);
  }

  lemma UnitOpened(w: World, t: TypeId, floor: nat, weight: int -> real)
    requires w.Opens(t, floor) && w.LinesEnd(w.byOutput[t].inputs, floor) && w.Ends(t, floor)
    ensures w.byOutput[t].outputQuantity as real * Value(w, t, 1.0, floor, weight)
         == ValueOfLines(w, w.byOutput[t].inputs, 1.0, floor, weight)
  {
    hide Value, ValueOfLines;
    var n := w.byOutput[t].outputQuantity as real;
    OneOutput(w, t, floor, weight);
    ValueScales(w, t, n, 1.0, n, floor, weight);
  }

  // What lines cost as they are

  ghost function DirectCost(lines: seq<Material>, weight: int -> real): real {
    if lines == [] then 0.0
    else DirectCost(lines[..|lines| - 1], weight) +
         lines[|lines| - 1].quantity as real * weight(lines[|lines| - 1].typeId)
  }

  lemma RunsPayOff(q: real, n: Count, inputs: real, price: real)
    ensures 0.0 <= q ==> 0.0 <= RunsNeeded(q, n)
    ensures 0.0 <= q && inputs <= n as real * price ==> RunsNeeded(q, n) * inputs <= q * price
    ensures inputs == n as real * price ==> RunsNeeded(q, n) * inputs == q * price
  {
    var r := RunsNeeded(q, n);
    assert r * n as real == q;
    assert r * (n as real * price) == q * price;
    if 0.0 <= q && inputs <= n as real * price {
      assert 0.0 <= r * (n as real * price - inputs);
      assert r * (n as real * price - inputs) == r * (n as real * price) - r * inputs;
    }
  }

  lemma NoLinesCost(runs: real, weight: int -> real)
    ensures runs * DirectCost([], weight) == 0.0
  {
  }

  lemma LastLineCost(lines: seq<Material>, runs: real, weight: int -> real)
    requires lines != []
    ensures var front, last := lines[..|lines| - 1], lines[|lines| - 1];
      && (0.0 <= runs ==> 0.0 <= Supply(runs, last.quantity))
      && runs * DirectCost(front, weight) + Supply(runs, last.quantity) * weight(last.typeId)
      == runs * DirectCost(lines, weight)
  {
    hide Supply;
    var front, last := lines[..|lines| - 1], lines[|lines| - 1];
    SupplyCost(runs, last.quantity, weight(last.typeId), DirectCost(front, weight));
  }

  lemma SupplyCost(runs: real, n: Count, price: real, before: real)
    ensures 0.0 <= runs ==> 0.0 <= Supply(runs, n)
    ensures runs * before + Supply(runs, n) * price == runs * (before + n as real * price)
  {
    assert runs * n as real * price == runs * (n as real * price);
    assert runs * (before + n as real * price) == runs * before + runs * (n as real * price);
  }

  // Going down in two steps

  /** A unit of `y`, taken down to `floor`. */
  ghost function Deeper(w: World, floor: nat, weight: int -> real): int -> real {
    y => if w.Ends(y, floor) then Value(w, y, 1.0, floor, weight) else weight(y)
  }

  lemma {:induction false} ValueComposes(w: World, t: TypeId, q: real, high: nat, low: nat, weight: int -> real)
    requires w.Ends(t, low) && low <= high
    ensures w.Ends(t, high)
    ensures Value(w, t, q, low, weight) == Value(w, t, q, high, Deeper(w, low, weight))
    decreases w.Depth(t, low), 0, 0
  {
    hide RunsNeeded;
    EndsHigher(w, t, low, high);
    if w.Opens(t, high) {
      Opened(w, t, low);
      var s := w.byOutput[t];
      ValueOfLinesComposes(w, s.inputs, RunsNeeded(q, s.outputQuantity), high, low, weight);
    } else {
      ValueScales(w, t, q, 1.0, q, low, weight);
    }
  }

  lemma {:induction false} ValueOfLinesComposes(w: World, lines: seq<Material>, runs: real, high: nat, low: nat,
                                                weight: int -> real)
    requires w.LinesEnd(lines, low) && low <= high
    ensures w.LinesEnd(lines, high)
    ensures ValueOfLines(w, lines, runs, low, weight) == ValueOfLines(w, lines, runs, high, Deeper(w, low, weight))
    decreases w.LinesDepth(lines, low), 1, |lines|
  {
    hide Supply, Deeper;
    LinesEndHigher(w, lines, low, high);
    if lines != [] {
      Parted(w, lines, low);
      var front, last := lines[..|lines| - 1], lines[|lines| - 1];
      ValueOfLinesComposes(w, front, runs, high, low, weight);
      ValueComposes(w, last.typeId, Supply(runs, last.quantity), high, low, weight);
    }
  }

  /** What is left at a higher floor can be taken down to the lower one. */
  lemma {:induction false} LeavesEnd(w: World, t: TypeId, high: nat, low: nat)
    requires w.Ends(t, low) && low <= high
    ensures w.Ends(t, high) && forall y :: y in Leaves(w, t, high) ==> w.Ends(y, low)
    decreases w.Depth(t, low), 0, 0
  {
    EndsHigher(w, t, low, high);
    if w.Opens(t, high) {
      Opened(w, t, low);
      LeavesOfLinesEnd(w, w.byOutput[t].inputs, high, low);
    }
  }

  lemma {:induction false} LeavesOfLinesEnd(w: World, lines: seq<Material>, high: nat, low: nat)
    requires w.LinesEnd(lines, low) && low <= high
    ensures w.LinesEnd(lines, high) && forall y :: y in LeavesOfLines(w, lines, high) ==> w.Ends(y, low)
    decreases w.LinesDepth(lines, low), 1, |lines|
  {
    LinesEndHigher(w, lines, low, high);
    if lines != [] {
      Parted(w, lines, low);
      LeavesOfLinesEnd(w, lines[..|lines| - 1], high, low);
      LeavesEnd(w, lines[|lines| - 1].typeId, high, low);
    }
  }

  /** The types left when each of `types` is expanded. */
  ghost function LeavesOfSet(w: World, types: set<TypeId>, floor: nat): set<TypeId>
    requires forall y :: y in types ==> w.Ends(y, floor)
  {
    set y, x | y in types && x in Leaves(w, y, floor) :: x
  }

  lemma LeavesOfOne(w: World, t: TypeId, floor: nat)
    requires w.Ends(t, floor)
    ensures LeavesOfSet(w, {}, floor) == {} && LeavesOfSet(w, {t}, floor) == Leaves(w, t, floor)
  {
    hide Leaves;
    forall x
      ensures x in LeavesOfSet(w, {t}, floor) <==> x in Leaves(w, t, floor)
    {
    }
  }

  lemma LeavesOfSetParts(w: World, a: set<TypeId>, b: set<TypeId>, floor: nat)
    requires forall y :: y in a || y in b ==> w.Ends(y, floor)
    ensures LeavesOfSet(w, a + b, floor) == LeavesOfSet(w, a, floor) + LeavesOfSet(w, b, floor)
  {
    hide Leaves;
    forall x
      ensures x in LeavesOfSet(w, a + b, floor) <==> x in LeavesOfSet(w, a, floor) || x in LeavesOfSet(w, b, floor)
    {
    }
  }

  lemma {:induction false} LeavesCompose(w: World, t: TypeId, high: nat, low: nat)
    requires w.Ends(t, low) && low <= high
    ensures w.Ends(t, high) && forall y :: y in Leaves(w, t, high) ==> w.Ends(y, low)
    ensures Leaves(w, t, low) == LeavesOfSet(w, Leaves(w, t, high), low)
    decreases w.Depth(t, low), 0, 0
  {
    hide LeavesOfSet;
    LeavesEnd(w, t, high, low);
    if w.Opens(t, high) {
      Opened(w, t, low);
      LeavesOfLinesCompose(w, w.byOutput[t].inputs, high, low);
    } else {
      LeavesOfOne(w, t, low);
    }
  }

  lemma {:induction false} LeavesOfLinesCompose(w: World, lines: seq<Material>, high: nat, low: nat)
    requires w.LinesEnd(lines, low) && low <= high
    ensures w.LinesEnd(lines, high) && forall y :: y in LeavesOfLines(w, lines, high) ==> w.Ends(y, low)
    ensures LeavesOfLines(w, lines, low) == LeavesOfSet(w, LeavesOfLines(w, lines, high), low)
    decreases w.LinesDepth(lines, low), 1, |lines|
  {
    hide LeavesOfSet;
    LeavesOfLinesEnd(w, lines, high, low);
    if lines == [] {
      NothingLeft(w, low);
    } else {
      Parted(w, lines, low);
      var front, last := lines[..|lines| - 1], lines[|lines| - 1];
      LeavesOfLinesCompose(w, front, high, low);
      LeavesCompose(w, last.typeId, high, low);
      LeavesOfSetParts(w, LeavesOfLines(w, front, high), Leaves(w, last.typeId, high), low);
    }
  }

  lemma NothingLeft(w: World, floor: nat)
    ensures LeavesOfSet(w, {}, floor) == {}
  {
  }

  /** The amount of `x` that the line `y` of `amounts` turns into at `floor`. */
  ghost function PartOf(w: World, amounts: map<TypeId, real>, floor: nat, x: TypeId): int -> real {
    y => if y in amounts && w.Ends(y, floor) then Value(w, y, amounts[y], floor, Indicator(x)) else 0.0
  }

  /** Every line expanded again to `floor`, and the results merged. */
  ghost function Reexpanded(w: World, amounts: map<TypeId, real>, floor: nat): map<TypeId, real>
    requires forall y :: y in amounts.Keys ==> w.Ends(y, floor)
  {
    map x | x in LeavesOfSet(w, amounts.Keys, floor) ::
      RealSum(amounts.Keys, PartOf(w, amounts, floor, x))
  }

  lemma AmountComposes(w: World, lines: seq<Material>, runs: real, high: nat, low: nat, x: TypeId)
    requires w.LinesEnd(lines, low) && w.LinesEnd(lines, high) && low <= high
    ensures var amounts := ExpansionOfLines(w, lines, runs, high);
      RealSum(amounts.Keys, PartOf(w, amounts, low, x)) == ValueOfLines(w, lines, runs, low, Indicator(x))
  {
    hide ValueOfLines, LeavesOfLines, RealSum, Value;
    var amounts := ExpansionOfLines(w, lines, runs, high);
    var unit := Deeper(w, low, Indicator(x));
    LeavesOfLinesEnd(w, lines, high, low);
    ExpansionWorth(w, lines, runs, high, unit);
    ValueOfLinesComposes(w, lines, runs, high, low, Indicator(x));
    forall y | y in amounts.Keys
      ensures PartOf(w, amounts, low, x)(y) == LineWorth(amounts, unit)(y)
    {
      ValueScales(w, y, amounts[y], 1.0, amounts[y], low, Indicator(x));
    }
    RealSumSame(amounts.Keys, PartOf(w, amounts, low, x), LineWorth(amounts, unit));
  }

  /** Expanding to one floor and then every line further down is expanding to the lower floor. */
  lemma ExpansionComposes(w: World, lines: seq<Material>, runs: real, high: nat, low: nat)
    requires w.LinesEnd(lines, low) && low <= high
    ensures w.LinesEnd(lines, high)
    ensures forall y :: y in ExpansionOfLines(w, lines, runs, high).Keys ==> w.Ends(y, low)
    ensures Reexpanded(w, ExpansionOfLines(w, lines, runs, high), low) == ExpansionOfLines(w, lines, runs, low)
  {
    hide ValueOfLines, LeavesOfLines, LeavesOfSet, RealSum, PartOf;
    LeavesOfLinesCompose(w, lines, high, low);
    var amounts := ExpansionOfLines(w, lines, runs, high);
    assert amounts.Keys == LeavesOfLines(w, lines, high);
    forall x
      ensures RealSum(amounts.Keys, PartOf(w, amounts, low, x))
           == ValueOfLines(w, lines, runs, low, Indicator(x))
    {
      AmountComposes(w, lines, runs, high, low, x);
    }
    SameMap(Reexpanded(w, amounts, low), ExpansionOfLines(w, lines, runs, low));
  }
}
