/** The planetary schematic page: one material list and one cost per floor tier, and how the costs
    of the floors compare. */
module SchematicPage {
  import opened Maps
  import opened Sums
  import opened Recipes
  import opened TierExpansion
  import opened TierPaths

  // The dicts of amounts that the expansion builds

  function GetReal(d: map<TypeId, real>, t: TypeId): real {
    if t in d then d[t] else 0.0
  }

  function Merged(a: map<TypeId, real>, b: map<TypeId, real>): map<TypeId, real> {
    map x | x in a.Keys + b.Keys :: GetReal(a, x) + GetReal(b, x)
  }

  /** One dict of amounts added to another, entry by entry. */
  method MergeInto(result: map<TypeId, real>, sub: map<TypeId, real>) returns (merged: map<TypeId, real>)
    ensures merged == Merged(result, sub)
    ensures merged.Keys == result.Keys + sub.Keys
    ensures forall x :: x in merged ==>
              merged[x] == (if x in result then result[x] else 0.0) + (if x in sub then sub[x] else 0.0)
  {
    merged := result;
    ghost var done: map<TypeId, real> := map[];
    var remaining := sub.Keys;
    SameMap(merged, Merged(result, done));
    while remaining != {}
      invariant remaining <= sub.Keys && done.Keys == sub.Keys - remaining
      invariant forall x :: x in done ==> done[x] == sub[x]
      invariant merged == Merged(result, done)
      decreases remaining
    {
      HasElement(remaining);
      var x :| x in remaining;
      ghost var next := done[x := sub[x]];
      merged := merged[x := GetReal(merged, x) + sub[x]];
      SameMap(merged, Merged(result, next));
      done := next;
      remaining := remaining - {x};
    }
    assert forall x :: x in sub ==> sub[x] == done[x];
    SameMap(sub, done);
  }

  lemma AbsentLeaf(w: World, t: TypeId, q: real, floor: nat, x: TypeId)
    requires w.Ends(t, floor) && x !in Leaves(w, t, floor)
    ensures Value(w, t, q, floor, Indicator(x)) == 0.0
  {
    ValueSame(w, t, q, floor, Indicator(x), _ => 0.0);
    ValueSplits(w, t, q, floor, _ => 0.0, 1.0, _ => 0.0, _ => 0.0);
  }

  lemma OneMoreInput(w: World, lines: seq<Material>, runs: real, floor: nat, i: nat)
    requires w.LinesEnd(lines, floor) && i < |lines|
    ensures w.LinesEnd(lines[..i], floor) && w.LinesEnd(lines[..i + 1], floor) && w.Ends(lines[i].typeId, floor)
    ensures ExpansionOfLines(w, lines[..i + 1], runs, floor)
         == Merged(ExpansionOfLines(w, lines[..i], runs, floor),
                   Expansion(w, lines[i].typeId, Supply(runs, lines[i].quantity), floor))
  {
    hide Value;
    hide Leaves;
    hide Supply, Indicator;
    var front, last, all := lines[..i], lines[i], lines[..i + 1];
    PrefixEnds(w, lines, floor, i);
    PrefixEnds(w, lines, floor, i + 1);
    assert all[..|all| - 1] == front && all[|all| - 1] == last;
    forall x
      ensures x !in LeavesOfLines(w, front, floor) ==>
                ValueOfLines(w, front, runs, floor, Indicator(x)) == 0.0
      ensures x !in Leaves(w, last.typeId, floor) ==>
                Value(w, last.typeId, Supply(runs, last.quantity), floor, Indicator(x)) == 0.0
    {
      if x !in LeavesOfLines(w, front, floor) {
        AbsentAmount(w, front, runs, floor, x);
      }
      if x !in Leaves(w, last.typeId, floor) {
        AbsentLeaf(w, last.typeId, Supply(runs, last.quantity), floor, x);
      }
    }
    SameMap(ExpansionOfLines(w, all, runs, floor),
            Merged(ExpansionOfLines(w, front, runs, floor),
                   Expansion(w, last.typeId, Supply(runs, last.quantity), floor)));
  }

  /** Called where the recursion of the code ends. */
  method ExpandToTier(w: World, t: TypeId, quantity: real, floor: nat) returns (result: map<TypeId, real>)
    requires w.Ends(t, floor)
    ensures result == Expansion(w, t, quantity, floor)
    ensures IsExpansion(w, floor, t, quantity, result)
    decreases w.Depth(t, floor), 0
  {
    hide IsExpansion, IsExpansionOfLines;
    TypeIsExpanded(w, t, quantity, floor);
    if t !in w.byOutput || w.Tier(t) <= floor {
      result := map[t := quantity];
      LeafExpansion(w, t, quantity, floor);
      return;
    }
    Opened(w, t, floor);
    var schematic := w.byOutput[t];
    result := ExpandLines(w, schematic.inputs, RunsNeeded(quantity, schematic.outputQuantity), floor);
    OpenExpansion(w, t, quantity, floor);
  }

  lemma LeafExpansion(w: World, t: TypeId, q: real, floor: nat)
    requires w.Ends(t, floor) && !w.Opens(t, floor)
    ensures Expansion(w, t, q, floor) == map[t := q]
  {
  }

  lemma OpenExpansion(w: World, t: TypeId, q: real, floor: nat)
    requires w.Ends(t, floor) && w.Opens(t, floor) && w.LinesEnd(w.byOutput[t].inputs, floor)
    ensures Expansion(w, t, q, floor)
         == ExpansionOfLines(w, w.byOutput[t].inputs, RunsNeeded(q, w.byOutput[t].outputQuantity), floor)
  {
  }

  /** The loop over the inputs, for `runs` runs. */
  method ExpandLines(w: World, lines: seq<Material>, runs: real, floor: nat) returns (result: map<TypeId, real>)
    requires w.LinesEnd(lines, floor)
    ensures result == ExpansionOfLines(w, lines, runs, floor)
    ensures IsExpansionOfLines(w, floor, lines, runs, result)
    decreases w.LinesDepth(lines, floor), 1
  {
    hide IsExpansion, IsExpansionOfLines;
    LinesAreExpanded(w, lines, runs, floor);
    result := map[];
    var i := 0;
    PrefixEnds(w, lines, floor, 0);
    assert ExpansionOfLines(w, lines[..0], runs, floor) == map[];
    while i < |lines|
      invariant 0 <= i <= |lines| && w.LinesEnd(lines[..i], floor)
      invariant result == ExpansionOfLines(w, lines[..i], runs, floor)
    {
      PrefixEnds(w, lines, floor, i);
      var sub := ExpandToTier(w, lines[i].typeId, Supply(runs, lines[i].quantity), floor);
      OneMoreInput(w, lines, runs, floor, i);
      result := MergeInto(result, sub);
      i := i + 1;
    }
    assert lines[..i] == lines;
  }

  // What the inputs of a schematic cost

  /** One run of any schematic that can be opened costs at most what its output is worth. */
  ghost predicate InputsNeverCostMore(w: World, weight: int -> real) {
    forall t :: t in w.byOutput && 0 < w.Tier(t) ==>
                  DirectCost(w.byOutput[t].inputs, weight) <= w.byOutput[t].outputQuantity as real * weight(t)
  }

  ghost predicate InputsCostTheSame(w: World, weight: int -> real) {
    forall t :: t in w.byOutput && 0 < w.Tier(t) ==>
                  DirectCost(w.byOutput[t].inputs, weight) == w.byOutput[t].outputQuantity as real * weight(t)
  }

  /** Expanding never costs more than buying the type itself, and the same if every schematic
      preserves value. */
  lemma {:induction false} ExpandedCost(w: World, t: TypeId, q: real, floor: nat, weight: int -> real)
    requires w.Ends(t, floor)
    ensures InputsNeverCostMore(w, weight) && 0.0 <= q ==> Value(w, t, q, floor, weight) <= q * weight(t)
    ensures InputsCostTheSame(w, weight) ==> Value(w, t, q, floor, weight) == q * weight(t)
    decreases w.Depth(t, floor), 0, 0
  {
    hide DirectCost;
    if w.Opens(t, floor) {
      Opened(w, t, floor);
      var s := w.byOutput[t];
      ExpandedCostOfLines(w, s.inputs, RunsNeeded(q, s.outputQuantity), floor, weight);
      RunsPayOff(q, s.outputQuantity, DirectCost(s.inputs, weight), weight(t));
    }
  }

  lemma {:induction false} ExpandedCostOfLines(w: World, lines: seq<Material>, runs: real, floor: nat,
                                               weight: int -> real)
    requires w.LinesEnd(lines, floor)
    ensures InputsNeverCostMore(w, weight) && 0.0 <= runs ==>
              ValueOfLines(w, lines, runs, floor, weight) <= runs * DirectCost(lines, weight)
    ensures InputsCostTheSame(w, weight) ==>
              ValueOfLines(w, lines, runs, floor, weight) == runs * DirectCost(lines, weight)
    decreases w.LinesDepth(lines, floor), 1, |lines|
  {
    hide InputsNeverCostMore, InputsCostTheSame, Supply, Value, DirectCost;
    if lines == [] {
      NoLinesCost(runs, weight);
    } else {
      Parted(w, lines, floor);
      var front, last := lines[..|lines| - 1], lines[|lines| - 1];
      ExpandedCostOfLines(w, front, runs, floor, weight);
      ExpandedCost(w, last.typeId, Supply(runs, last.quantity), floor, weight);
      LastLineCost(lines, runs, weight);
    }
  }

  /** Lines that sit at or below the floor are bought as they are. */
  lemma {:induction false} UnopenedLines(w: World, lines: seq<Material>, runs: real, floor: nat,
                                         weight: int -> real)
    requires w.LinesEnd(lines, floor)
    requires forall line :: line in lines ==> !w.Opens(line.typeId, floor)
    ensures ValueOfLines(w, lines, runs, floor, weight) == runs * DirectCost(lines, weight)
    decreases |lines|
  {
    hide Supply;
    if lines != [] {
      Parted(w, lines, floor);
      var front, last := lines[..|lines| - 1], lines[|lines| - 1];
      UnopenedLines(w, front, runs, floor, weight);
      assert last in lines;
      SupplyCost(runs, last.quantity, weight(last.typeId), DirectCost(front, weight));
    }
  }

  /** Lowering the floor never raises a cost. */
  ghost predicate CheaperDeeper(w: World, weight: int -> real) {
    forall t, q, high: nat, low: nat :: w.Ends(t, low) && w.Ends(t, high) && 0.0 <= q && low <= high ==>
      Value(w, t, q, low, weight) <= Value(w, t, q, high, weight)
  }

  lemma DeeperIsCheaper(w: World, t: TypeId, q: real, high: nat, low: nat, weight: int -> real)
    requires w.Ends(t, low) && InputsNeverCostMore(w, weight) && 0.0 <= q && low <= high
    ensures w.Ends(t, high)
    ensures Value(w, t, q, low, weight) <= Value(w, t, q, high, weight)
  {
    hide Value;
    hide InputsNeverCostMore;
    ValueComposes(w, t, q, high, low, weight);
    DeeperBelow(w, low, weight);
    ValueOrdered(w, t, q, high, Deeper(w, low, weight), weight);
  }

  lemma DeeperBelow(w: World, low: nat, weight: int -> real)
    ensures InputsNeverCostMore(w, weight) ==> forall y :: Deeper(w, low, weight)(y) <= weight(y)
    ensures InputsCostTheSame(w, weight) ==> forall y :: Deeper(w, low, weight)(y) == weight(y)
  {
    hide Value;
    hide InputsNeverCostMore;
    hide InputsCostTheSame;
    forall y | w.Ends(y, low)
      ensures InputsNeverCostMore(w, weight) ==> Value(w, y, 1.0, low, weight) <= weight(y)
      ensures InputsCostTheSame(w, weight) ==> Value(w, y, 1.0, low, weight) == weight(y)
    {
      ExpandedCost(w, y, 1.0, low, weight);
    }
  }

  lemma {:induction false} LeavesUnopened(w: World, t: TypeId, floor: nat)
    requires w.Ends(t, floor)
    ensures forall x :: x in Leaves(w, t, floor) ==> !w.Opens(x, floor)
    decreases w.Depth(t, floor), 0, 0
  {
    if w.Opens(t, floor) {
      Opened(w, t, floor);
      LeavesOfLinesUnopened(w, w.byOutput[t].inputs, floor);
    }
  }

  lemma {:induction false} LeavesOfLinesUnopened(w: World, lines: seq<Material>, floor: nat)
    requires w.LinesEnd(lines, floor)
    ensures forall x :: x in LeavesOfLines(w, lines, floor) ==> !w.Opens(x, floor)
    decreases w.LinesDepth(lines, floor), 1, |lines|
  {
    if lines != [] {
      Parted(w, lines, floor);
      LeavesOfLinesUnopened(w, lines[..|lines| - 1], floor);
      LeavesUnopened(w, lines[|lines| - 1].typeId, floor);
    }
  }

  /** One run of any schematic costs at most what its output is worth, when its inputs are taken down to just below
      the tier of the output. */
  ghost predicate OwnTierNeverCostsMore(w: World, weight: int -> real) {
    forall t :: t in w.byOutput && 0 < w.Tier(t) && w.LinesEnd(w.byOutput[t].inputs, w.Tier(t) - 1) ==>
                  ValueOfLines(w, w.byOutput[t].inputs, 1.0, w.Tier(t) - 1, weight)
                  <= w.byOutput[t].outputQuantity as real * weight(t)
  }

  lemma Unopened(w: World, t: TypeId, q: real, floor: nat, weight: int -> real)
    requires !w.Opens(t, floor)
    ensures w.EndsIn(t, floor, 0) && Value(w, t, q, floor, weight) == q * weight(t)
  {
    assert w.EndsIn(t, floor, 0);
  }

  /** A unit of a type that is left at the floor `low + 1` costs no more one floor further down. */
  lemma UnitStepDown(w: World, y: TypeId, low: nat, weight: int -> real)
    requires OwnTierNeverCostsMore(w, weight) && w.Ends(y, low) && !w.Opens(y, low + 1)
    ensures Value(w, y, 1.0, low, weight) <= weight(y)
  {
    hide Value, ValueOfLines;
    if w.Opens(y, low) {
      Opened(w, y, low);
      UnitOpened(w, y, low, weight);
      assert w.Tier(y) - 1 == low;
      DivideOut(w.byOutput[y].outputQuantity, Value(w, y, 1.0, low, weight), weight(y));
    } else {
      Unopened(w, y, 1.0, low, weight);
    }
  }

  lemma DivideOut(n: Count, a: real, b: real)
    requires n as real * a <= n as real * b
    ensures a <= b
  {
  }

  /** The cheaper of the two ways to get a unit of what is left, and the price of anything else. */
  ghost function StepWeight(w: World, low: nat, weight: int -> real): int -> real {
    y => if w.Opens(y, low + 1) then weight(y) else Deeper(w, low, weight)(y)
  }

  lemma StepDown(w: World, t: TypeId, q: real, low: nat, weight: int -> real)
    requires OwnTierNeverCostsMore(w, weight) && w.Ends(t, low) && 0.0 <= q
    ensures w.Ends(t, low + 1)
    ensures Value(w, t, q, low, weight) <= Value(w, t, q, low + 1, weight)
  {
    hide Value, OwnTierNeverCostsMore;
    var step := StepWeight(w, low, weight);
    ValueComposes(w, t, q, low + 1, low, weight);
    LeavesUnopened(w, t, low + 1);
    ValueSame(w, t, q, low + 1, Deeper(w, low, weight), step);
    forall y
      ensures step(y) <= weight(y)
    {
      if !w.Opens(y, low + 1) && w.Ends(y, low) {
        UnitStepDown(w, y, low, weight);
      }
    }
    ValueOrdered(w, t, q, low + 1, step, weight);
  }

  lemma {:induction false} StepsDown(w: World, t: TypeId, q: real, high: nat, low: nat, weight: int -> real)
    requires OwnTierNeverCostsMore(w, weight) && w.Ends(t, low) && 0.0 <= q && low <= high
    ensures w.Ends(t, high)
    ensures Value(w, t, q, low, weight) <= Value(w, t, q, high, weight)
    decreases high - low
  {
    hide Value, OwnTierNeverCostsMore;
    if low < high {
      StepDown(w, t, q, low, weight);
      StepsDown(w, t, q, high, low + 1, weight);
    }
  }

  /** Costs fall with the floor, for every type and amount, exactly when no schematic costs more than its output just
      below the tier of that output. */
  lemma CheaperDeeperExactlyWhen(w: World, weight: int -> real)
    ensures CheaperDeeper(w, weight) <==> OwnTierNeverCostsMore(w, weight)
  {
    hide Value, ValueOfLines;
    if OwnTierNeverCostsMore(w, weight) {
      forall t, q, high: nat, low: nat | w.Ends(t, low) && w.Ends(t, high) && 0.0 <= q && low <= high
        ensures Value(w, t, q, low, weight) <= Value(w, t, q, high, weight)
      {
        StepsDown(w, t, q, high, low, weight);
      }
    }
    if CheaperDeeper(w, weight) {
      forall t | t in w.byOutput && 0 < w.Tier(t) && w.LinesEnd(w.byOutput[t].inputs, w.Tier(t) - 1)
        ensures ValueOfLines(w, w.byOutput[t].inputs, 1.0, w.Tier(t) - 1, weight)
             <= w.byOutput[t].outputQuantity as real * weight(t)
      {
        var n, floor := w.byOutput[t].outputQuantity as real, w.Tier(t) - 1;
        OneOutput(w, t, floor, weight);
        Unopened(w, t, n, w.Tier(t), weight);
        EndsHigher(w, t, floor, w.Tier(t));
        assert Value(w, t, n, floor, weight) <= Value(w, t, n, w.Tier(t), weight);
      }
    }
  }

  /** Where every input sits below its output, that is when no schematic's direct inputs cost more than its output. */
  lemma GradedCheaperDeeperExactlyWhen(w: World, weight: int -> real)
    requires w.Graded()
    ensures CheaperDeeper(w, weight) <==> InputsNeverCostMore(w, weight)
  {
    hide ValueOfLines, DirectCost, CheaperDeeper;
    CheaperDeeperExactlyWhen(w, weight);
    forall t | t in w.byOutput && 0 < w.Tier(t)
      ensures w.LinesEnd(w.byOutput[t].inputs, w.Tier(t) - 1)
      ensures ValueOfLines(w, w.byOutput[t].inputs, 1.0, w.Tier(t) - 1, weight)
           == DirectCost(w.byOutput[t].inputs, weight)
    {
      GradedEnds(w, t, w.Tier(t) - 1);
      Opened(w, t, w.Tier(t) - 1);
      UnopenedLines(w, w.byOutput[t].inputs, 1.0, w.Tier(t) - 1, weight);
    }
  }

  // The page

  /** The tier of each commodity group. */
  const TIER_BY_GROUP: map<int, nat> := map[1042 := 1, 1034 := 2, 1040 := 3, 1041 := 4]

  /** The schematics by output; a later one for the same output wins. */
  function ByOutput(schematics: seq<Schematic>): map<TypeId, Schematic> {
    if schematics == [] then map[]
    else var last := schematics[|schematics| - 1];
      ByOutput(schematics[..|schematics| - 1])[last.outputType := last]
  }

  /** The tier of each output, from the group ids of the type documents. */
  function TierIndex(outputs: set<TypeId>, groups: map<TypeId, int>): map<TypeId, nat> {
    map t | t in outputs && t in groups && groups[t] in TIER_BY_GROUP :: TIER_BY_GROUP[groups[t]]
  }

  function PageWorld(schematics: seq<Schematic>, groups: map<TypeId, int>): World {
    var byOutput := ByOutput(schematics);
    World(byOutput, TierIndex(byOutput.Keys, groups))
  }

  /** A missing price is 0. */
  function PriceOf(prices: map<TypeId, real>): int -> real {
    t => if t in prices then prices[t] else 0.0
  }

  /** The last of the schematics with the output. */
  ghost predicate LastFor(schematics: seq<Schematic>, t: TypeId, s: Schematic) {
    exists i :: 0 <= i < |schematics| && schematics[i] == s && s.outputType == t &&
                forall j :: i < j < |schematics| ==> schematics[j].outputType != t
  }

  /** The tier of an output, 0 for one that has none. */
  ghost predicate IsTierOf(groups: map<TypeId, int>, t: TypeId, tier: nat) {
    tier == if t !in groups then 0
            else if groups[t] == 1042 then 1
            else if groups[t] == 1034 then 2
            else if groups[t] == 1040 then 3
            else if groups[t] == 1041 then 4
            else 0
  }

  /** The two dicts the page builds. */
  ghost predicate IsPageWorld(schematics: seq<Schematic>, groups: map<TypeId, int>, w: World) {
    && (forall i :: 0 <= i < |schematics| ==> schematics[i].outputType in w.byOutput)
    && (forall t :: t in w.byOutput ==> LastFor(schematics, t, w.byOutput[t]))
    && (forall t :: t in w.tiers ==> t in w.byOutput && 0 < w.tiers[t])
    && (forall t :: t in w.byOutput ==> IsTierOf(groups, t, if t in w.tiers then w.tiers[t] else 0))
  }

  lemma LastForItself(schematics: seq<Schematic>)
    requires schematics != []
    ensures var last := schematics[|schematics| - 1]; LastFor(schematics, last.outputType, last)
  {
    assert schematics[|schematics| - 1] == schematics[|schematics| - 1];
  }

  lemma LastForMore(schematics: seq<Schematic>, t: TypeId, s: Schematic)
    requires schematics != [] && schematics[|schematics| - 1].outputType != t
    requires LastFor(schematics[..|schematics| - 1], t, s)
    ensures LastFor(schematics, t, s)
  {
    var front := schematics[..|schematics| - 1];
    var i :| 0 <= i < |front| && front[i] == s && s.outputType == t &&
             forall j :: i < j < |front| ==> front[j].outputType != t;
    assert schematics[i] == s;
  }

  lemma {:induction false} LastOutputWins(schematics: seq<Schematic>)
    ensures forall i :: 0 <= i < |schematics| ==> schematics[i].outputType in ByOutput(schematics)
    ensures forall t :: t in ByOutput(schematics) ==> LastFor(schematics, t, ByOutput(schematics)[t])
  {
    hide LastFor;
    if schematics != [] {
      var front, last := schematics[..|schematics| - 1], schematics[|schematics| - 1];
      LastOutputWins(front);
      LastForItself(schematics);
      forall t | t in ByOutput(front) && t != last.outputType
        ensures LastFor(schematics, t, ByOutput(front)[t])
      {
        LastForMore(schematics, t, ByOutput(front)[t]);
      }
    }
  }

  lemma GroupTiers()
    ensures TIER_BY_GROUP.Keys == {1042, 1034, 1040, 1041}
    ensures TIER_BY_GROUP[1042] == 1 && TIER_BY_GROUP[1034] == 2
    ensures TIER_BY_GROUP[1040] == 3 && TIER_BY_GROUP[1041] == 4
  {
  }

  lemma TierOfOutput(outputs: set<TypeId>, groups: map<TypeId, int>, t: TypeId)
    ensures var tiers := TierIndex(outputs, groups);
      && (t in tiers ==> t in outputs && 0 < tiers[t])
      && (t in outputs ==> IsTierOf(groups, t, if t in tiers then tiers[t] else 0))
  {
    hide TIER_BY_GROUP;
    GroupTiers();
  }

  lemma PageWorldIs(schematics: seq<Schematic>, groups: map<TypeId, int>)
    ensures IsPageWorld(schematics, groups, PageWorld(schematics, groups))
  {
    hide ByOutput, LastFor, TierIndex, IsTierOf;
    LastOutputWins(schematics);
    forall t
      ensures var tiers := TierIndex(ByOutput(schematics).Keys, groups);
        && (t in tiers ==> t in ByOutput(schematics).Keys && 0 < tiers[t])
        && (t in ByOutput(schematics).Keys ==> IsTierOf(groups, t, if t in tiers then tiers[t] else 0))
    {
      TierOfOutput(ByOutput(schematics).Keys, groups, t);
    }
  }

  lemma OwnTier(schematics: seq<Schematic>, groups: map<TypeId, int>, i: nat)
    requires i < |schematics|
    ensures IsTierOf(groups, schematics[i].outputType, PageWorld(schematics, groups).Tier(schematics[i].outputType))
  {
    hide LastFor, IsTierOf, ByOutput, TierIndex;
    PageWorldIs(schematics, groups);
  }

  datatype FloorRow = FloorRow(materials: map<TypeId, real>, cost: real, profit: real, profitPerDay: real)

  datatype Page = NotFound | NoTierData | Floors(rows: seq<FloorRow>)

  /** Amount times price over the materials that have a price. */
  ghost function PricedSum(amounts: map<TypeId, real>, prices: map<TypeId, real>): real {
    RealSum(amounts.Keys, (t: int) => if t in amounts && t in prices then amounts[t] * prices[t] else 0.0)
  }

  lemma PricedLines(amounts: map<TypeId, real>, prices: map<TypeId, real>)
    ensures RealSum(amounts.Keys, LineWorth(amounts, PriceOf(prices))) == PricedSum(amounts, prices)
  {
    hide RealSum;
    RealSumSame(amounts.Keys, LineWorth(amounts, PriceOf(prices)),
                (t: int) => if t in amounts && t in prices then amounts[t] * prices[t] else 0.0);
  }

  /** What the materials of a floor cost together. */
  method CostOf(amounts: map<TypeId, real>, prices: map<TypeId, real>) returns (cost: real)
    ensures cost == RealSum(amounts.Keys, LineWorth(amounts, PriceOf(prices)))
    ensures cost == PricedSum(amounts, prices)
  {
    hide RealSum;
    PricedLines(amounts, prices);
    cost := 0.0;
    ghost var worth := LineWorth(amounts, PriceOf(prices));
    var remaining := amounts.Keys;
    while remaining != {}
      invariant remaining <= amounts.Keys
      invariant cost + RealSum(remaining, worth) == RealSum(amounts.Keys, worth)
      decreases remaining
    {
      HasElement(remaining);
      var t :| t in remaining;
      RealSumPick(remaining, worth, t);
      var line := amounts[t] * PriceOf(prices)(t);
      assert worth(t) == line;
      cost := cost + line;
      remaining := remaining - {t};
    }
    EmptyRealSum(worth);
  }

  lemma EmptyRealSum(f: int -> real)
    ensures RealSum({}, f) == 0.0
  {
  }

  /** The recursions from the inputs of the schematic that the page shows end, if the page expands any. */
  ghost predicate ShownEnds(schematics: seq<Schematic>, groups: map<TypeId, int>, id: int) {
    forall i :: 0 <= i < |schematics| && schematics[i].id == id &&
                (forall j :: 0 <= j < i ==> schematics[j].id != id) ==>
      var w, s := PageWorld(schematics, groups), schematics[i];
      0 < w.Tier(s.outputType) ==> w.LinesEnd(s.inputs, 0)
  }

  /** They do when every input sits below its output. */
  lemma GradedPageEnds(schematics: seq<Schematic>, groups: map<TypeId, int>, id: int)
    requires PageWorld(schematics, groups).Graded()
    ensures ShownEnds(schematics, groups, id)
  {
    var w := PageWorld(schematics, groups);
    forall lines: seq<Material>
      ensures w.LinesEnd(lines, 0)
    {
      forall line | line in lines
        ensures w.Ends(line.typeId, 0)
      {
        GradedEnds(w, line.typeId, 0);
      }
      EachEnds(w, lines, 0);
    }
  }

  ghost function ProfitPerDay(profit: real, cycle: Count): real {
    profit * 86400.0 / cycle as real
  }

  /** The row of one floor: the expanded inputs of one run, and their cost. */
  ghost predicate IsRow(w: World, s: Schematic, prices: map<TypeId, real>, floor: nat, row: FloorRow)
    requires w.LinesEnd(s.inputs, floor)
  {
    && row.materials == ExpansionOfLines(w, s.inputs, 1.0, floor)
    && row.cost == ValueOfLines(w, s.inputs, 1.0, floor, PriceOf(prices))
    && row.profit == s.outputQuantity as real * PriceOf(prices)(s.outputType) - row.cost
    && row.profitPerDay == ProfitPerDay(row.profit, s.cycleSeconds)
  }

  /** What a row says: the materials are an expansion of the inputs of one run, the cost is what those with a price
      cost, and the profit of a day is that of a run as often as runs fit into a day. */
  ghost predicate RowHolds(w: World, s: Schematic, prices: map<TypeId, real>, floor: nat, row: FloorRow) {
    && IsExpansionOfLines(w, floor, s.inputs, 1.0, row.materials)
    && row.cost == PricedSum(row.materials, prices)
    && row.profit == (if s.outputType in prices then s.outputQuantity as real * prices[s.outputType] else 0.0)
                     - row.cost
    && row.profitPerDay * s.cycleSeconds as real == row.profit * 86400.0
  }

  /** The first schematic with the id, or none. */
  method FindSchematic(schematics: seq<Schematic>, id: int) returns (i: nat)
    ensures i <= |schematics| && (i < |schematics| ==> schematics[i].id == id)
    ensures forall j :: 0 <= j < i ==> schematics[j].id != id
  {
    i := 0;
    while i < |schematics| && schematics[i].id != id
      invariant i <= |schematics| && forall j :: 0 <= j < i ==> schematics[j].id != id
    {
      i := i + 1;
    }
  }

  method SchematicDetail(schematics: seq<Schematic>, groups: map<TypeId, int>, prices: map<TypeId, real>, id: int)
    returns (page: Page, ghost shown: nat)
    requires ShownEnds(schematics, groups, id)
    ensures page == NotFound <==> forall s :: s in schematics ==> s.id != id
    ensures page != NotFound ==>
              && shown < |schematics| && schematics[shown].id == id
              && (forall j :: 0 <= j < shown ==> schematics[j].id != id)
    ensures page != NotFound ==>
              var w, s := PageWorld(schematics, groups), schematics[shown];
              && (page == NoTierData <==> w.Tier(s.outputType) == 0)
              && (page.Floors? ==>
                    && |page.rows| == w.Tier(s.outputType)
                    && forall floor :: 0 <= floor < |page.rows| ==>
                                         w.LinesEnd(s.inputs, floor) && IsRow(w, s, prices, floor, page.rows[floor]))
    ensures page != NotFound ==>
              var w, s := PageWorld(schematics, groups), schematics[shown];
              && IsPageWorld(schematics, groups, w)
              && IsTierOf(groups, s.outputType, if page.Floors? then |page.rows| else 0)
              && (page.Floors? ==>
                    && 0 < |page.rows|
                    && forall floor :: 0 <= floor < |page.rows| ==> RowHolds(w, s, prices, floor, page.rows[floor]))
  {
    hide RowHolds, IsRow, IsPageWorld, IsTierOf, PageWorld;
    var i := FindSchematic(schematics, id);
    shown := i;
    if i == |schematics| {
      return NotFound, shown;
    }
    var s := schematics[i];
    assert s in schematics;
    var w := PageWorld(schematics, groups);
    var ownTier := w.Tier(s.outputType);
    PageWorldIs(schematics, groups);
    OwnTier(schematics, groups, i);
    if ownTier < 1 {
      return NoTierData, shown;
    }
    var rows: seq<FloorRow> := [];
    while |rows| < ownTier
      invariant |rows| <= ownTier
      invariant forall floor :: 0 <= floor < |rows| ==>
                                  w.LinesEnd(s.inputs, floor) && IsRow(w, s, prices, floor, rows[floor])
      invariant forall floor :: 0 <= floor < |rows| ==> RowHolds(w, s, prices, floor, rows[floor])
    {
      LinesEndHigher(w, s.inputs, 0, |rows|);
      var row := BuildRow(w, s, prices, |rows|);
      rows := rows + [row];
    }
    page := Floors(rows);
  }

  method BuildRow(w: World, s: Schematic, prices: map<TypeId, real>, floor: nat) returns (row: FloorRow)
    requires w.LinesEnd(s.inputs, floor)
    ensures IsRow(w, s, prices, floor, row)
    ensures RowHolds(w, s, prices, floor, row)
  {
    hide ExpansionOfLines, ValueOfLines, RealSum, LineWorth, IsExpansionOfLines, PricedSum;
    var expanded := ExpandLines(w, s.inputs, 1.0, floor);
    var cost := CostOf(expanded, prices);
    ExpansionWorth(w, s.inputs, 1.0, floor, PriceOf(prices));
    var profit := s.outputQuantity as real * PriceOf(prices)(s.outputType) - cost;
    row := FloorRow(expanded, cost, profit, profit * 86400.0 / s.cycleSeconds as real);
    assert row.profitPerDay * s.cycleSeconds as real == row.profit * 86400.0;
  }

  // How the rows of a page compare

  /** Re-expanding the material list of a higher floor gives the list of the lower floor; if inputs
      never cost more than their output, the lower floor is no dearer; if they always cost the same,
      every floor costs the same. */
  lemma RowsCompare(w: World, s: Schematic, prices: map<TypeId, real>, high: nat, low: nat,
                    above: FloorRow, below: FloorRow)
    requires w.LinesEnd(s.inputs, low) && w.LinesEnd(s.inputs, high) && low <= high
    requires IsRow(w, s, prices, high, above) && IsRow(w, s, prices, low, below)
    ensures forall y :: y in above.materials.Keys ==> w.Ends(y, low)
    ensures Reexpanded(w, above.materials, low) == below.materials
    ensures InputsNeverCostMore(w, PriceOf(prices)) ==> below.cost <= above.cost && above.profit <= below.profit
    ensures InputsCostTheSame(w, PriceOf(prices)) ==> below.cost == above.cost == DirectCost(s.inputs, PriceOf(prices))
  {
    hide ValueOfLines;
    hide InputsNeverCostMore;
    hide InputsCostTheSame;
    hide ExpansionOfLines;
    hide Reexpanded;
    hide Deeper;
    hide DirectCost;
    var price := PriceOf(prices);
    ExpansionComposes(w, s.inputs, 1.0, high, low);
    ValueOfLinesComposes(w, s.inputs, 1.0, high, low, price);
    DeeperBelow(w, low, price);
    if InputsNeverCostMore(w, price) {
      ValueOfLinesOrdered(w, s.inputs, 1.0, high, Deeper(w, low, price), price);
    }
    ExpandedCostOfLines(w, s.inputs, 1.0, low, price);
    ExpandedCostOfLines(w, s.inputs, 1.0, high, price);
  }

  // The row just below the schematic's own tier

  /** Weighs exactly the types that are opened at the floor. */
  ghost function OpenWeight(w: World, floor: nat): int -> real {
    y => if w.Opens(y, floor) then 1.0 else 0.0
  }

  /** Nothing opened is left over, so an expansion weighs nothing; a direct input that opens does. */
  lemma OpenedLinesWeigh(w: World, lines: seq<Material>, floor: nat, weight: int -> real)
    requires w.LinesEnd(lines, floor)
    requires forall y :: !w.Opens(y, floor) ==> weight(y) == 0.0
    requires forall y :: 0.0 <= weight(y)
    ensures ValueOfLines(w, lines, 1.0, floor, weight) == 0.0
    ensures forall line :: line in lines && 0.0 < weight(line.typeId) ==> 0.0 < DirectCost(lines, weight)
  {
    var zero := (y: int) => 0.0;
    LeavesOfLinesUnopened(w, lines, floor);
    ValueOfLinesSame(w, lines, 1.0, floor, weight, zero);
    ZeroValueOfLines(w, lines, 1.0, floor, zero);
    DirectCostPositive(lines, weight);
  }

  lemma {:induction false} DirectCostPositive(lines: seq<Material>, weight: int -> real)
    requires forall y :: 0.0 <= weight(y)
    ensures 0.0 <= DirectCost(lines, weight)
    ensures forall line :: line in lines && 0.0 < weight(line.typeId) ==> 0.0 < DirectCost(lines, weight)
  {
    if lines != [] {
      var front, last := lines[..|lines| - 1], lines[|lines| - 1];
      DirectCostPositive(front, weight);
      ProductSign(last.quantity as real, weight(last.typeId));
      var rest, own := DirectCost(front, weight), last.quantity as real * weight(last.typeId);
      assert DirectCost(lines, weight) == rest + own;
      assert lines == front + [last];
      forall line | line in lines && 0.0 < weight(line.typeId)
        ensures 0.0 < DirectCost(lines, weight)
      {
        if line in front {
          assert 0.0 < rest;
        } else {
          assert line == last && 0.0 < own;
        }
      }
    }
  }

  lemma ProductSign(a: real, b: real)
    requires 0.0 < a && 0.0 <= b
    ensures 0.0 <= a * b && (0.0 < b ==> 0.0 < a * b)
  {
  }

  /** A floor buys the direct inputs, whatever things cost, exactly when it opens none of them. */
  lemma DirectExactlyWhen(w: World, lines: seq<Material>, floor: nat)
    requires w.LinesEnd(lines, floor)
    ensures (forall weight :: ValueOfLines(w, lines, 1.0, floor, weight) == DirectCost(lines, weight))
       <==> (forall line :: line in lines ==> !w.Opens(line.typeId, floor))
  {
    hide ValueOfLines, DirectCost;
    if forall line :: line in lines ==> !w.Opens(line.typeId, floor) {
      forall weight
        ensures ValueOfLines(w, lines, 1.0, floor, weight) == DirectCost(lines, weight)
      {
        UnopenedLines(w, lines, 1.0, floor, weight);
      }
    }
    if line :| line in lines && w.Opens(line.typeId, floor) {
      OpenedLinesWeigh(w, lines, floor, OpenWeight(w, floor));
      assert ValueOfLines(w, lines, 1.0, floor, OpenWeight(w, floor)) != DirectCost(lines, OpenWeight(w, floor));
    }
  }

  /** Prices under which only the direct inputs that open at the floor cost anything. */
  function OpenPrices(w: World, lines: seq<Material>, floor: nat): map<TypeId, real> {
    map t | t in LineTypes(lines) && w.Opens(t, floor) :: 1.0
  }

  /** The row just below the schematic's own tier costs the direct inputs. */
  ghost predicate TopRowIsDirect(w: World, s: Schematic)
    requires 0 < w.Tier(s.outputType) && w.LinesEnd(s.inputs, w.Tier(s.outputType) - 1)
  {
    forall prices, row :: IsRow(w, s, prices, w.Tier(s.outputType) - 1, row) ==>
                            row.cost == DirectCost(s.inputs, PriceOf(prices))
  }

  /** It does under all prices exactly when no direct input that has a schematic sits at or above the
      schematic's own tier. */
  lemma HighestFloorDirectExactlyWhen(w: World, s: Schematic)
    requires 0 < w.Tier(s.outputType) && w.LinesEnd(s.inputs, w.Tier(s.outputType) - 1)
    ensures TopRowIsDirect(w, s)
       <==> forall line :: line in s.inputs && line.typeId in w.byOutput ==> w.Tier(line.typeId) < w.Tier(s.outputType)
  {
    hide ValueOfLines, DirectCost, ExpansionOfLines;
    var floor := w.Tier(s.outputType) - 1;
    if forall line :: line in s.inputs ==> !w.Opens(line.typeId, floor) {
      forall prices, row | IsRow(w, s, prices, floor, row)
        ensures row.cost == DirectCost(s.inputs, PriceOf(prices))
      {
        UnopenedLines(w, s.inputs, 1.0, floor, PriceOf(prices));
      }
    }
    if line :| line in s.inputs && w.Opens(line.typeId, floor) {
      var prices := OpenPrices(w, s.inputs, floor);
      OpenedLinesWeigh(w, s.inputs, floor, PriceOf(prices));
      assert line.typeId in LineTypes(s.inputs);
      var row := RowOf(w, s, prices, floor);
      assert row.cost != DirectCost(s.inputs, PriceOf(prices));
    }
  }

  ghost function RowOf(w: World, s: Schematic, prices: map<TypeId, real>, floor: nat): (row: FloorRow)
    requires w.LinesEnd(s.inputs, floor)
    ensures IsRow(w, s, prices, floor, row)
  {
    var cost := ValueOfLines(w, s.inputs, 1.0, floor, PriceOf(prices));
    var profit := s.outputQuantity as real * PriceOf(prices)(s.outputType) - cost;
    FloorRow(ExpansionOfLines(w, s.inputs, 1.0, floor), cost, profit, ProfitPerDay(profit, s.cycleSeconds))
  }

  /** Where every input sits below its output, it always does for a schematic that no later one with the same output
      replaces. */
  lemma HighestFloorIsDirect(w: World, s: Schematic, prices: map<TypeId, real>, row: FloorRow)
    requires w.Graded()
    requires 0 < w.Tier(s.outputType) && w.LinesEnd(s.inputs, w.Tier(s.outputType) - 1)
    requires s.outputType in w.byOutput && w.byOutput[s.outputType] == s
    requires IsRow(w, s, prices, w.Tier(s.outputType) - 1, row)
    ensures row.cost == DirectCost(s.inputs, PriceOf(prices))
  {
    hide ValueOfLines, DirectCost, ExpansionOfLines;
    HighestFloorDirectExactlyWhen(w, s);
  }

  const FIRST: Schematic := Schematic(1, 10, 1, [Material(20, 1)], 1800)
  const LATER: Schematic := Schematic(2, 10, 1, [Material(30, 1)], 1800)
  const UPPER: Schematic := Schematic(3, 20, 1, [Material(10, 2)], 3600)
  const SHADOWED: World := PageWorld([FIRST, LATER, UPPER], map[10 := 1042, 20 := 1034])

  lemma ShadowedOutputs()
    ensures ByOutput([FIRST, LATER, UPPER]) == map[10 := LATER, 20 := UPPER]
  {
    var all := [FIRST, LATER, UPPER];
    assert all[..2] == [FIRST, LATER] && all[..2][..1] == [FIRST] && all[..2][..1][..0] == [];
    assert ByOutput([FIRST]) == map[10 := FIRST];
    assert ByOutput([FIRST, LATER]) == map[10 := LATER];
  }

  lemma ShadowedWorld()
    ensures SHADOWED.byOutput == map[10 := LATER, 20 := UPPER]
    ensures SHADOWED.Tier(10) == 1 && SHADOWED.Tier(20) == 2 && SHADOWED.Tier(30) == 0
    ensures SHADOWED.Graded() && SHADOWED.LinesEnd(FIRST.inputs, 0)
  {
    hide ByOutput, TIER_BY_GROUP;
    ShadowedOutputs();
    GroupTiers();
    var all := [FIRST, LATER, UPPER];
    GradedPageEnds(all, map[10 := 1042, 20 := 1034], FIRST.id);
    assert all[0] == FIRST;
  }

  /** The first of two schematics for one output takes its input from above its own tier: the row just
      below that tier costs nothing, the direct input something. */
  lemma ShadowedSchematicIsNotDirect()
    ensures SHADOWED.Graded() && SHADOWED.LinesEnd(FIRST.inputs, 0) && SHADOWED.Tier(FIRST.outputType) == 1
    ensures forall row :: IsRow(SHADOWED, FIRST, map[20 := 1.0], 0, row) ==> row.cost == 0.0
    ensures DirectCost(FIRST.inputs, PriceOf(map[20 := 1.0])) == 1.0
  {
    ShadowedWorld();
    var price := PriceOf(map[20 := 1.0]);
    OpenedLinesWeigh(SHADOWED, FIRST.inputs, 0, price);
    assert FIRST.inputs[..0] == [];
    assert DirectCost([], price) == 0.0;
  }
}
