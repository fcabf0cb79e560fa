/** The three asset pages: the overview by type, one item by location, one location by type. */
module AssetTotals {
  import opened Maps
  import opened Optional
  import opened Sums
  import opened Containers

  /** The assets by item id; a later one with the same id wins. */
  function ByItemId(assets: seq<Asset>): Assets {
    if assets == [] then map[]
    else var last := assets[|assets| - 1];
      ByItemId(assets[..|assets| - 1])[last.itemId := last]
  }

  predicate UniqueIds(assets: seq<Asset>) {
    forall i, j :: 0 <= i < j < |assets| ==> assets[i].itemId != assets[j].itemId
  }

  // Sums over the selected assets

  ghost function SumWhere(assets: seq<Asset>, sel: Asset -> bool): int {
    if assets == [] then 0
    else var last := assets[|assets| - 1];
      SumWhere(assets[..|assets| - 1], sel) + if sel(last) then last.quantity else 0
  }

  ghost function Where(assets: seq<Asset>, sel: Asset -> bool): seq<Asset> {
    if assets == [] then []
    else var last := assets[|assets| - 1];
      Where(assets[..|assets| - 1], sel) + if sel(last) then [last] else []
  }

  /** One more asset. */
  lemma SumWhereNext(assets: seq<Asset>, i: nat, sel: Asset -> bool)
    requires i < |assets|
    ensures SumWhere(assets[..i + 1], sel) ==
            SumWhere(assets[..i], sel) + if sel(assets[i]) then assets[i].quantity else 0
  {
    assert assets[..i + 1][..i] == assets[..i];
  }

  ghost function KeysOf(assets: seq<Asset>, sel: Asset -> bool, key: Asset -> int): set<int> {
    set a | a in assets && sel(a) :: key(a)
  }

  lemma KeysNext(assets: seq<Asset>, i: nat, sel: Asset -> bool, key: Asset -> int)
    requires i < |assets|
    ensures KeysOf(assets[..i + 1], sel, key) ==
            KeysOf(assets[..i], sel, key) + if sel(assets[i]) then {key(assets[i])} else {}
  {
    assert assets[..i + 1] == assets[..i] + [assets[i]];
    var more := KeysOf(assets[..i], sel, key) + if sel(assets[i]) then {key(assets[i])} else {};
    assert forall k :: k in KeysOf(assets[..i + 1], sel, key) <==> k in more;
  }

  function OfType(t: int): Asset -> bool {
    (a: Asset) => a.typeId == t
  }

  ghost function At(byId: Assets, loc: int): Asset -> bool {
    (a: Asset) => Resolved(byId, a.locationId) == loc
  }

  ghost function OfTypeAt(byId: Assets, t: int, loc: int): Asset -> bool {
    (a: Asset) => a.typeId == t && Resolved(byId, a.locationId) == loc
  }

  function Everything(): Asset -> bool {
    (a: Asset) => true
  }

  lemma {:induction false} SumWhereSame(assets: seq<Asset>, f: Asset -> bool, g: Asset -> bool)
    requires forall a :: a in assets ==> f(a) == g(a)
    ensures SumWhere(assets, f) == SumWhere(assets, g)
  {
    if assets != [] {
      assert assets[|assets| - 1] in assets;
      SumWhereSame(assets[..|assets| - 1], f, g);
    }
  }

  lemma SumWhereOneMore(front: seq<Asset>, last: Asset, sel: Asset -> bool)
    ensures SumWhere(front + [last], sel) == SumWhere(front, sel) + if sel(last) then last.quantity else 0
  {
    assert (front + [last])[..|front|] == front;
  }

  /** Filtering first and summing then is summing over both conditions. */
  lemma {:induction false} SumOfWhere(assets: seq<Asset>, f: Asset -> bool, g: Asset -> bool, both: Asset -> bool)
    requires forall a :: both(a) == (f(a) && g(a))
    ensures SumWhere(Where(assets, f), g) == SumWhere(assets, both)
    ensures forall a :: a in Where(assets, f) <==> a in assets && f(a)
  {
    if assets != [] {
      var front, last := assets[..|assets| - 1], assets[|assets| - 1];
      SumOfWhere(front, f, g, both);
      assert assets == front + [last];
      if f(last) {
        SumWhereOneMore(Where(front, f), last, g);
      } else {
        assert Where(front, f) + [] == Where(front, f);
      }
    }
  }

  /** What the assets with `key(a) == k` among the selected ones amount to. */
  ghost function Group(assets: seq<Asset>, sel: Asset -> bool, key: Asset -> int): int -> int {
    k => SumWhere(assets, InGroup(sel, key, k))
  }

  function InGroup(sel: Asset -> bool, key: Asset -> int, k: int): Asset -> bool {
    (a: Asset) => sel(a) && key(a) == k
  }

  /** Grouping loses and repeats nothing: the groups add up to the whole. */
  lemma {:induction false} GroupsAddUp(assets: seq<Asset>, sel: Asset -> bool, key: Asset -> int, keys: set<int>)
    requires forall a :: a in assets && sel(a) ==> key(a) in keys
    ensures SumOver(keys, Group(assets, sel, key)) == SumWhere(assets, sel)
  {
    if assets == [] {
      SumSupport({}, keys, Group(assets, sel, key));
    } else {
      var front, last := assets[..|assets| - 1], assets[|assets| - 1];
      assert forall a :: a in front ==> a in assets;
      assert last in assets;
      GroupsAddUp(front, sel, key, keys);
      SumAdd(keys, Group(front, sel, key), OnlyAt(sel, key, last), Group(assets, sel, key));
      OnlyOneGroup(sel, key, last, keys);
    }
  }

  function OnlyAt(sel: Asset -> bool, key: Asset -> int, a: Asset): int -> int {
    k => if sel(a) && key(a) == k then a.quantity else 0
  }

  lemma OnlyOneGroup(sel: Asset -> bool, key: Asset -> int, a: Asset, keys: set<int>)
    requires sel(a) ==> key(a) in keys
    ensures SumOver(keys, OnlyAt(sel, key, a)) == if sel(a) then a.quantity else 0
  {
    var f := OnlyAt(sel, key, a);
    if sel(a) {
      SumPick(keys, f, key(a));
      SumSupport({}, keys - {key(a)}, f);
    } else {
      SumSupport({}, keys, f);
    }
  }

  // What each page shows

  function TypeKey(): Asset -> int {
    (a: Asset) => a.typeId
  }

  ghost function LocationKey(byId: Assets): Asset -> int {
    (a: Asset) => Resolved(byId, a.locationId)
  }

  ghost function LocationsOf(assets: seq<Asset>, t: int): set<int> {
    KeysOf(assets, OfType(t), LocationKey(ByItemId(assets)))
  }

  ghost function TypesAt(assets: seq<Asset>, loc: int): set<int> {
    KeysOf(assets, At(ByItemId(assets), loc), TypeKey())
  }

  ghost function AllLocations(assets: seq<Asset>): set<int> {
    KeysOf(assets, Everything(), LocationKey(ByItemId(assets)))
  }

  ghost function AllTypes(assets: seq<Asset>): set<int> {
    KeysOf(assets, Everything(), TypeKey())
  }

  /** The item page: this type's quantity at each location. */
  ghost function ItemQuantities(assets: seq<Asset>, t: int): map<int, int> {
    map loc | loc in LocationsOf(assets, t) :: SumWhere(assets, OfTypeAt(ByItemId(assets), t, loc))
  }

  /** The location page: each type's quantity at this location. */
  ghost function LocationQuantities(assets: seq<Asset>, loc: int): map<int, int> {
    map t | t in TypesAt(assets, loc) :: SumWhere(assets, OfTypeAt(ByItemId(assets), t, loc))
  }

  ghost function ValueOf(quantities: map<int, int>): int -> int {
    k => if k in quantities then quantities[k] else 0
  }

  ghost function Sum(quantities: map<int, int>): int {
    SumOver(quantities.Keys, ValueOf(quantities))
  }

  /** The item page adds up to everything owned of the type. */
  lemma ItemPageTotal(assets: seq<Asset>, t: int)
    ensures Sum(ItemQuantities(assets, t)) == SumWhere(assets, OfType(t))
  {
    hide SumWhere;
    var byId, page := ByItemId(assets), ItemQuantities(assets, t);
    var keys := LocationsOf(assets, t);
    GroupsAddUp(assets, OfType(t), LocationKey(byId), keys);
    forall loc | loc in keys
      ensures ValueOf(page)(loc) == Group(assets, OfType(t), LocationKey(byId))(loc)
    {
      SumWhereSame(assets, OfTypeAt(byId, t, loc), InGroup(OfType(t), LocationKey(byId), loc));
    }
    SumSame(keys, ValueOf(page), Group(assets, OfType(t), LocationKey(byId)));
    assert page.Keys == keys;
  }

  /** The location page adds up to everything kept there. */
  lemma LocationPageTotal(assets: seq<Asset>, loc: int)
    ensures Sum(LocationQuantities(assets, loc)) == SumWhere(assets, At(ByItemId(assets), loc))
  {
    hide SumWhere;
    var byId, page := ByItemId(assets), LocationQuantities(assets, loc);
    var keys := TypesAt(assets, loc);
    GroupsAddUp(assets, At(byId, loc), TypeKey(), keys);
    forall t | t in keys
      ensures ValueOf(page)(t) == Group(assets, At(byId, loc), TypeKey())(t)
    {
      SumWhereSame(assets, OfTypeAt(byId, t, loc), InGroup(At(byId, loc), TypeKey(), t));
    }
    SumSame(keys, ValueOf(page), Group(assets, At(byId, loc), TypeKey()));
    assert page.Keys == keys;
  }

  ghost function ItemTotals(assets: seq<Asset>): int -> int {
    t => Sum(ItemQuantities(assets, t))
  }

  ghost function LocationTotals(assets: seq<Asset>): int -> int {
    loc => Sum(LocationQuantities(assets, loc))
  }

  lemma ItemPagesAddUp(assets: seq<Asset>)
    ensures SumOver(AllTypes(assets), ItemTotals(assets)) == SumWhere(assets, Everything())
  {
    hide SumWhere, Sum, Resolved;
    GroupsAddUp(assets, Everything(), TypeKey(), AllTypes(assets));
    forall t | t in AllTypes(assets)
      ensures ItemTotals(assets)(t) == Group(assets, Everything(), TypeKey())(t)
    {
      ItemPageTotal(assets, t);
      SumWhereSame(assets, OfType(t), InGroup(Everything(), TypeKey(), t));
    }
    SumSame(AllTypes(assets), ItemTotals(assets), Group(assets, Everything(), TypeKey()));
  }

  lemma LocationPagesAddUp(assets: seq<Asset>)
    ensures SumOver(AllLocations(assets), LocationTotals(assets)) == SumWhere(assets, Everything())
  {
    hide SumWhere, Sum, Resolved;
    var key := LocationKey(ByItemId(assets));
    GroupsAddUp(assets, Everything(), key, AllLocations(assets));
    forall loc | loc in AllLocations(assets)
      ensures LocationTotals(assets)(loc) == Group(assets, Everything(), key)(loc)
    {
      LocationPageTotal(assets, loc);
      SumWhereSame(assets, At(ByItemId(assets), loc), InGroup(Everything(), key, loc));
    }
    SumSame(AllLocations(assets), LocationTotals(assets), Group(assets, Everything(), key));
  }

  /** Every asset is under exactly one location and one type: the item pages together, and the
      location pages together, both add up to the overview's grand total. */
  lemma PagesAddUp(assets: seq<Asset>)
    ensures SumOver(AllTypes(assets), ItemTotals(assets)) == SumWhere(assets, Everything())
    ensures SumOver(AllLocations(assets), LocationTotals(assets)) == SumWhere(assets, Everything())
  {
    hide *;
    ItemPagesAddUp(assets);
    LocationPagesAddUp(assets);
  }

  // What the pages show, asset by asset

  ghost predicate LastWithId(assets: seq<Asset>, id: int, a: Asset) {
    exists i :: 0 <= i < |assets| && assets[i] == a && a.itemId == id &&
                forall j :: i < j < |assets| ==> assets[j].itemId != id
  }

  /** Every id with the last asset that has it. */
  ghost predicate IsLastCopies(assets: seq<Asset>, byId: Assets) {
    && (forall i :: 0 <= i < |assets| ==> assets[i].itemId in byId)
    && forall id :: id in byId ==> LastWithId(assets, id, byId[id])
  }

  ghost predicate KeptAt(byId: Assets, a: Asset, loc: int) {
    ComesOutAt(byId, a.locationId, loc)
  }

  ghost predicate SomeKeptAt(assets: seq<Asset>, byId: Assets, t: int, loc: int) {
    exists i :: 0 <= i < |assets| && assets[i].typeId == t && KeptAt(byId, assets[i], loc)
  }

  ghost function QuantityAt(assets: seq<Asset>): int -> int {
    i => if 0 <= i < |assets| then assets[i].quantity else 0
  }

  /** The quantities of the assets that count, position by position. */
  ghost function TotalOf(assets: seq<Asset>, counts: Asset -> bool): int {
    SumOver((set i | 0 <= i < |assets| && counts(assets[i])), QuantityAt(assets))
  }

  ghost predicate ItemPageHolds(assets: seq<Asset>, byId: Assets, t: int, page: map<int, int>) {
    && (forall loc :: loc in page <==> SomeKeptAt(assets, byId, t, loc))
    && forall loc :: loc in page ==>
         page[loc] == TotalOf(assets, (a: Asset) => a.typeId == t && KeptAt(byId, a, loc))
  }

  ghost predicate LocationPageHolds(assets: seq<Asset>, byId: Assets, loc: int, page: map<int, int>) {
    && (forall t :: t in page <==> SomeKeptAt(assets, byId, t, loc))
    && forall t :: t in page ==>
         page[t] == TotalOf(assets, (a: Asset) => a.typeId == t && KeptAt(byId, a, loc))
  }

  /** A category of the overview counts each asset where the last one with its id is. */
  ghost predicate CategoryHolds(assets: seq<Asset>, byId: Assets, wanted: int -> bool,
                                quantities: map<int, int>, locations: map<int, set<int>>) {
    && (forall t :: t in quantities <==> wanted(t) && exists i :: 0 <= i < |assets| && assets[i].typeId == t)
    && (forall t :: t in quantities ==> quantities[t] == TotalOf(assets, (a: Asset) => a.typeId == t))
    && locations.Keys == quantities.Keys
    && forall t, loc :: t in locations ==>
         (loc in locations[t] <==>
          exists i :: 0 <= i < |assets| && assets[i].typeId == t && assets[i].itemId in byId &&
                      KeptAt(byId, byId[assets[i].itemId], loc))
  }

  lemma {:induction false} ByItemIdIsLast(assets: seq<Asset>)
    ensures IsLastCopies(assets, ByItemId(assets))
  {
    hide LastWithId;
    if assets != [] {
      var front, last := assets[..|assets| - 1], assets[|assets| - 1];
      ByItemIdIsLast(front);
      assert ByItemId(assets) == ByItemId(front)[last.itemId := last];
      LastIsLast(assets);
      forall id | id in ByItemId(front) && id != last.itemId
        ensures LastWithId(assets, id, ByItemId(front)[id])
      {
        StillLast(assets, id, ByItemId(front)[id]);
      }
    }
  }

  lemma LastIsLast(assets: seq<Asset>)
    requires assets != []
    ensures LastWithId(assets, assets[|assets| - 1].itemId, assets[|assets| - 1])
  {
    assert assets[|assets| - 1] == assets[|assets| - 1];
  }

  lemma StillLast(assets: seq<Asset>, id: int, a: Asset)
    requires assets != [] && assets[|assets| - 1].itemId != id && LastWithId(assets[..|assets| - 1], id, a)
    ensures LastWithId(assets, id, a)
  {
    var front := assets[..|assets| - 1];
    var i :| 0 <= i < |front| && front[i] == a && a.itemId == id &&
             forall j :: i < j < |front| ==> front[j].itemId != id;
    assert assets[i] == a;
  }

  lemma TotalNext(assets: seq<Asset>, counts: Asset -> bool)
    requires assets != []
    ensures var n := |assets| - 1;
      TotalOf(assets, counts) == TotalOf(assets[..n], counts) + if counts(assets[n]) then assets[n].quantity else 0
  {
    hide SumOver;
    var n := |assets| - 1;
    var front := assets[..n];
    var before, all := (set i | 0 <= i < n && counts(front[i])), (set i | 0 <= i < |assets| && counts(assets[i]));
    SumSame(before, QuantityAt(front), QuantityAt(assets));
    forall i
      ensures i in all <==> i in before || (i == n && counts(assets[n]))
    {
    }
    if counts(assets[n]) {
      SumPick(all, QuantityAt(assets), n);
      assert all - {n} == before;
    } else {
      assert all == before;
    }
  }

  lemma {:induction false} TotalIsSum(assets: seq<Asset>, sel: Asset -> bool, counts: Asset -> bool)
    requires forall a :: sel(a) == counts(a)
    ensures SumWhere(assets, sel) == TotalOf(assets, counts)
  {
    if assets != [] {
      hide TotalOf;
      TotalNext(assets, counts);
      TotalIsSum(assets[..|assets| - 1], sel, counts);
    }
  }

  lemma KeptAtResolved(byId: Assets, a: Asset, loc: int)
    ensures KeptAt(byId, a, loc) <==> Resolved(byId, a.locationId) == loc
  {
    ComesOutOnce(byId, a.locationId, loc);
  }

  lemma SomeKeptAtResolved(assets: seq<Asset>, byId: Assets, t: int, loc: int)
    ensures SomeKeptAt(assets, byId, t, loc)
       <==> exists a :: a in assets && a.typeId == t && Resolved(byId, a.locationId) == loc
  {
    hide KeptAt, Resolved;
    forall a
      ensures KeptAt(byId, a, loc) <==> Resolved(byId, a.locationId) == loc
    {
      KeptAtResolved(byId, a, loc);
    }
    if a :| a in assets && a.typeId == t && Resolved(byId, a.locationId) == loc {
      var i :| 0 <= i < |assets| && assets[i] == a;
      assert KeptAt(byId, assets[i], loc);
    }
    if SomeKeptAt(assets, byId, t, loc) {
      var i :| 0 <= i < |assets| && assets[i].typeId == t && KeptAt(byId, assets[i], loc);
      assert assets[i] in assets;
    }
  }

  lemma TotalKeptAt(assets: seq<Asset>, byId: Assets, t: int, loc: int)
    ensures SumWhere(assets, OfTypeAt(byId, t, loc))
         == TotalOf(assets, (a: Asset) => a.typeId == t && KeptAt(byId, a, loc))
  {
    hide KeptAt, Resolved, SumWhere, TotalOf;
    forall a
      ensures KeptAt(byId, a, loc) <==> Resolved(byId, a.locationId) == loc
    {
      KeptAtResolved(byId, a, loc);
    }
    TotalIsSum(assets, OfTypeAt(byId, t, loc), (a: Asset) => a.typeId == t && KeptAt(byId, a, loc));
  }

  lemma TotalAt(assets: seq<Asset>, byId: Assets, loc: int)
    ensures SumWhere(assets, At(byId, loc)) == TotalOf(assets, (a: Asset) => KeptAt(byId, a, loc))
  {
    hide KeptAt, Resolved, SumWhere, TotalOf;
    forall a
      ensures KeptAt(byId, a, loc) <==> Resolved(byId, a.locationId) == loc
    {
      KeptAtResolved(byId, a, loc);
    }
    TotalIsSum(assets, At(byId, loc), (a: Asset) => KeptAt(byId, a, loc));
  }

  /** What the item page holds, said in terms of walks and positions. */
  lemma ItemPageIs(assets: seq<Asset>, t: int)
    ensures ItemPageHolds(assets, ByItemId(assets), t, ItemQuantities(assets, t))
  {
    hide Resolved, SumWhere, TotalOf, SomeKeptAt, ByItemId, KeptAt;
    var byId, page := ByItemId(assets), ItemQuantities(assets, t);
    forall loc
      ensures loc in page <==> SomeKeptAt(assets, byId, t, loc)
      ensures SumWhere(assets, OfTypeAt(byId, t, loc))
           == TotalOf(assets, (a: Asset) => a.typeId == t && KeptAt(byId, a, loc))
    {
      SomeKeptAtResolved(assets, byId, t, loc);
      TotalKeptAt(assets, byId, t, loc);
    }
  }

  lemma LocationPageIs(assets: seq<Asset>, loc: int)
    ensures LocationPageHolds(assets, ByItemId(assets), loc, LocationQuantities(assets, loc))
  {
    hide Resolved, SumWhere, TotalOf, SomeKeptAt, ByItemId, KeptAt;
    var byId, page := ByItemId(assets), LocationQuantities(assets, loc);
    forall t
      ensures t in page <==> SomeKeptAt(assets, byId, t, loc)
      ensures SumWhere(assets, OfTypeAt(byId, t, loc))
           == TotalOf(assets, (a: Asset) => a.typeId == t && KeptAt(byId, a, loc))
    {
      SomeKeptAtResolved(assets, byId, t, loc);
      TotalKeptAt(assets, byId, t, loc);
    }
  }

  // The loops

  method QuantityByLocation(matching: seq<Asset>, byId: Assets) returns (quantities: map<int, int>)
    ensures quantities.Keys == KeysOf(matching, Everything(), LocationKey(byId))
    ensures forall loc :: loc in quantities ==> quantities[loc] == SumWhere(matching, At(byId, loc))
  {
    hide SumWhere, KeysOf, Resolved, Root, LeavesAt, Endless, CycleEntry;
    quantities := map[];
    var i := 0;
    NothingYet(matching, LocationKey(byId));
    while i < |matching|
      invariant 0 <= i <= |matching|
      invariant quantities.Keys == KeysOf(matching[..i], Everything(), LocationKey(byId))
      invariant forall loc :: (if loc in quantities then quantities[loc] else 0)
                           == SumWhere(matching[..i], At(byId, loc))
    {
      var asset := matching[i];
      var loc := ResolveContainerChain(asset.locationId, byId);
      KeysNext(matching, i, Everything(), LocationKey(byId));
      forall k { SumWhereNext(matching, i, At(byId, k)); }
      quantities := quantities[loc := (if loc in quantities then quantities[loc] else 0) + asset.quantity];
      i := i + 1;
    }
    assert matching[..i] == matching;
  }

  method QuantityByType(matching: seq<Asset>) returns (quantities: map<int, int>)
    ensures quantities.Keys == KeysOf(matching, Everything(), TypeKey())
    ensures forall t :: t in quantities ==> quantities[t] == SumWhere(matching, OfType(t))
  {
    hide SumWhere, KeysOf;
    quantities := map[];
    var i := 0;
    NothingYet(matching, TypeKey());
    while i < |matching|
      invariant 0 <= i <= |matching|
      invariant quantities.Keys == KeysOf(matching[..i], Everything(), TypeKey())
      invariant forall t :: (if t in quantities then quantities[t] else 0) == SumWhere(matching[..i], OfType(t))
    {
      var asset := matching[i];
      KeysNext(matching, i, Everything(), TypeKey());
      forall k { SumWhereNext(matching, i, OfType(k)); }
      quantities := quantities[asset.typeId :=
        (if asset.typeId in quantities then quantities[asset.typeId] else 0) + asset.quantity];
      i := i + 1;
    }
    assert matching[..i] == matching;
  }

  lemma NothingYet(assets: seq<Asset>, key: Asset -> int)
    ensures forall sel :: KeysOf(assets[..0], sel, key) == {}
    ensures forall sel :: SumWhere(assets[..0], sel) == 0
  {
  }

  method AssetsOfType(assets: seq<Asset>, t: int) returns (matching: seq<Asset>)
    ensures matching == Where(assets, OfType(t))
  {
    matching := [];
    var i := 0;
    while i < |assets|
      invariant 0 <= i <= |assets|
      invariant matching == Where(assets[..i], OfType(t))
    {
      assert assets[..i + 1][..i] == assets[..i];
      if assets[i].typeId == t {
        matching := matching + [assets[i]];
      }
      i := i + 1;
    }
    assert assets[..i] == assets;
  }

  method AssetsAt(assets: seq<Asset>, byId: Assets, loc: int) returns (matching: seq<Asset>)
    ensures matching == Where(assets, At(byId, loc))
  {
    matching := [];
    var i := 0;
    while i < |assets|
      invariant 0 <= i <= |assets|
      invariant matching == Where(assets[..i], At(byId, loc))
    {
      assert assets[..i + 1][..i] == assets[..i];
      var place := ResolveContainerChain(assets[i].locationId, byId);
      if place == loc {
        matching := matching + [assets[i]];
      }
      i := i + 1;
    }
    assert assets[..i] == assets;
  }

  /** None is the page's 404. The total shown is what is owned of the type. */
  method ItemDetail(assets: seq<Asset>, t: int) returns (page: Option<map<int, int>>, total: int)
    ensures page == if t in AllTypes(assets) then Some(ItemQuantities(assets, t)) else None
    ensures page.Some? ==> total == SumWhere(assets, OfType(t))
    ensures page.None? <==> forall i :: 0 <= i < |assets| ==> assets[i].typeId != t
    ensures IsLastCopies(assets, ByItemId(assets))
    ensures page.Some? ==>
              && ItemPageHolds(assets, ByItemId(assets), t, page.value)
              && total == TotalOf(assets, (a: Asset) => a.typeId == t)
  {
    hide IsLastCopies, ItemPageHolds, TotalOf, SumWhere, Resolved;
    ByItemIdIsLast(assets);
    ItemPageIs(assets, t);
    TotalIsSum(assets, OfType(t), (a: Asset) => a.typeId == t);
    var byId := ByItemId(assets);
    var matching := AssetsOfType(assets, t);
    MatchingOfType(assets, t);
    if matching == [] {
      return None, 0;
    }
    assert matching[0] in matching;
    var quantities := QuantityByLocation(matching, byId);
    forall loc | loc in quantities
      ensures quantities[loc] == SumWhere(assets, OfTypeAt(byId, t, loc))
    {
      SumOfWhere(assets, OfType(t), At(byId, loc), OfTypeAt(byId, t, loc));
    }
    SameMap(quantities, ItemQuantities(assets, t));
    total := AddUp(quantities);
    ItemPageTotal(assets, t);
    page := Some(quantities);
  }

  lemma MatchingOfType(assets: seq<Asset>, t: int)
    ensures forall a :: a in Where(assets, OfType(t)) <==> a in assets && a.typeId == t
    ensures Where(assets, OfType(t)) == [] ==> t !in AllTypes(assets)
  {
    SumOfWhere(assets, OfType(t), OfType(t), OfType(t));
    forall a | a in assets && a.typeId == t
      ensures a in Where(assets, OfType(t))
    {
    }
  }

  /** The total shown is what is kept at the location. */
  method LocationDetail(assets: seq<Asset>, loc: int) returns (page: Option<map<int, int>>, total: int)
    ensures page == if loc in AllLocations(assets) then Some(LocationQuantities(assets, loc)) else None
    ensures page.Some? ==> total == SumWhere(assets, At(ByItemId(assets), loc))
    ensures IsLastCopies(assets, ByItemId(assets))
    ensures page.None? <==> forall i :: 0 <= i < |assets| ==> !KeptAt(ByItemId(assets), assets[i], loc)
    ensures page.Some? ==>
              && LocationPageHolds(assets, ByItemId(assets), loc, page.value)
              && total == TotalOf(assets, (a: Asset) => KeptAt(ByItemId(assets), a, loc))
  {
    hide IsLastCopies, LocationPageHolds, TotalOf, SumWhere, Resolved, KeptAt;
    ByItemIdIsLast(assets);
    LocationPageIs(assets, loc);
    TotalAt(assets, ByItemId(assets), loc);
    forall a
      ensures KeptAt(ByItemId(assets), a, loc) <==> Resolved(ByItemId(assets), a.locationId) == loc
    {
      KeptAtResolved(ByItemId(assets), a, loc);
    }
    var byId := ByItemId(assets);
    var matching := AssetsAt(assets, byId, loc);
    MatchingAt(assets, byId, loc);
    if matching == [] {
      return None, 0;
    }
    assert matching[0] in matching;
    var quantities := QuantityByType(matching);
    forall t | t in quantities
      ensures quantities[t] == SumWhere(assets, OfTypeAt(byId, t, loc))
    {
      SumOfWhere(assets, At(byId, loc), OfType(t), OfTypeAt(byId, t, loc));
    }
    SameMap(quantities, LocationQuantities(assets, loc));
    total := AddUp(quantities);
    LocationPageTotal(assets, loc);
    page := Some(quantities);
  }

  lemma MatchingAt(assets: seq<Asset>, byId: Assets, loc: int)
    ensures forall a :: a in Where(assets, At(byId, loc)) <==> a in assets && Resolved(byId, a.locationId) == loc
    ensures Where(assets, At(byId, loc)) == [] ==> forall a :: a in assets ==> Resolved(byId, a.locationId) != loc
  {
    SumOfWhere(assets, At(byId, loc), At(byId, loc), At(byId, loc));
    forall a | a in assets && Resolved(byId, a.locationId) == loc
      ensures a in Where(assets, At(byId, loc))
    {
    }
  }

  /** The running total over the entries of a dict, in any order. */
  method AddUp(quantities: map<int, int>) returns (total: int)
    ensures total == Sum(quantities)
  {
    total := 0;
    var remaining := quantities.Keys;
    while remaining != {}
      invariant remaining <= quantities.Keys
      invariant total + SumOver(remaining, ValueOf(quantities)) == Sum(quantities)
      decreases remaining
    {
      HasElement(remaining);
      var k :| k in remaining;
      SumPick(remaining, ValueOf(quantities), k);
      total := total + quantities[k];
      remaining := remaining - {k};
    }
  }

  // The overview

  function WantedType(wanted: int -> bool): Asset -> bool {
    (a: Asset) => wanted(a.typeId)
  }

  function InDict(resolved: map<int, int>): Asset -> int {
    (a: Asset) => if a.itemId in resolved then resolved[a.itemId] else 0
  }

  /** Where the last asset with this asset's id is. */
  ghost function LastKey(byId: Assets): Asset -> int {
    (a: Asset) => if a.itemId in byId then Resolved(byId, byId[a.itemId].locationId) else 0
  }

  /** The locations the overview counts for a type. */
  ghost function OverviewLocations(assets: seq<Asset>, t: int): set<int> {
    KeysOf(assets, OfType(t), LastKey(ByItemId(assets)))
  }

  lemma {:induction false} IdsOf(assets: seq<Asset>)
    ensures forall id :: id in ByItemId(assets) <==> exists i :: 0 <= i < |assets| && assets[i].itemId == id
    ensures forall id :: id in ByItemId(assets) ==> ByItemId(assets)[id] in assets && ByItemId(assets)[id].itemId == id
  {
    if assets != [] {
      IdsOf(assets[..|assets| - 1]);
    }
  }

  lemma LastCopy(assets: seq<Asset>, a: Asset)
    requires a in assets
    ensures var byId := ByItemId(assets);
      && a.itemId in byId && byId[a.itemId] in assets && byId[a.itemId].itemId == a.itemId
      && LastKey(byId)(a) == LocationKey(byId)(byId[a.itemId])
      && LastKey(byId)(byId[a.itemId]) == LastKey(byId)(a)
  {
    IdsOf(assets);
  }

  /** The resolved location of each item id; a later asset with the same id wins here too. */
  method ResolveAll(assets: seq<Asset>, byId: Assets) returns (resolved: map<int, int>)
    ensures resolved.Keys == ByItemId(assets).Keys
    ensures forall id :: id in resolved ==> resolved[id] == Resolved(byId, ByItemId(assets)[id].locationId)
  {
    hide Resolved, Root, LeavesAt, Endless, CycleEntry;
    resolved := map[];
    var i := 0;
    while i < |assets|
      invariant 0 <= i <= |assets|
      invariant resolved.Keys == ByItemId(assets[..i]).Keys
      invariant forall id :: id in resolved ==> resolved[id] == Resolved(byId, ByItemId(assets[..i])[id].locationId)
    {
      var loc := ResolveContainerChain(assets[i].locationId, byId);
      assert assets[..i + 1][..i] == assets[..i];
      resolved := resolved[assets[i].itemId := loc];
      i := i + 1;
    }
    assert assets[..i] == assets;
  }

  ghost function WantedTypes(assets: seq<Asset>, wanted: int -> bool): set<int> {
    KeysOf(assets, WantedType(wanted), TypeKey())
  }

  ghost function WantedQuantities(assets: seq<Asset>, wanted: int -> bool): map<int, int> {
    map t | t in WantedTypes(assets, wanted) :: SumWhere(assets, OfType(t))
  }

  ghost function WantedLocations(assets: seq<Asset>, wanted: int -> bool, resolved: map<int, int>): map<int, set<int>> {
    map t | t in WantedTypes(assets, wanted) :: KeysOf(assets, OfType(t), InDict(resolved))
  }

  lemma {:induction false} NoneOfType(assets: seq<Asset>, wanted: int -> bool, t: int, key: Asset -> int)
    requires wanted(t) && t !in WantedTypes(assets, wanted)
    ensures SumWhere(assets, OfType(t)) == 0
    ensures KeysOf(assets, OfType(t), key) == {}
  {
    if assets != [] {
      var front, last := assets[..|assets| - 1], assets[|assets| - 1];
      assert last in assets && (WantedType(wanted)(last) ==> TypeKey()(last) in WantedTypes(assets, wanted));
      NoneOfType(front, wanted, t, key);
      KeysNext(assets, |assets| - 1, OfType(t), key);
      assert assets[..|assets|] == assets;
    }
  }

  lemma QuantitiesNext(assets: seq<Asset>, i: nat, wanted: int -> bool)
    requires i < |assets|
    ensures var a, before := assets[i], WantedQuantities(assets[..i], wanted);
      WantedQuantities(assets[..i + 1], wanted) ==
      if wanted(a.typeId) then before[a.typeId := ValueOf(before)(a.typeId) + a.quantity] else before
  {
    hide SumWhere, KeysOf;
    KeysNext(assets, i, WantedType(wanted), TypeKey());
    forall t { SumWhereNext(assets, i, OfType(t)); }
    var t := assets[i].typeId;
    if wanted(t) && t !in WantedTypes(assets[..i], wanted) {
      NoneOfType(assets[..i], wanted, t, TypeKey());
    }
    WantedOnly(assets[..i], wanted);
    var a, before := assets[i], WantedQuantities(assets[..i], wanted);
    SameMap(WantedQuantities(assets[..i + 1], wanted),
             if wanted(t) then before[t := ValueOf(before)(t) + a.quantity] else before);
  }

  lemma WantedOnly(assets: seq<Asset>, wanted: int -> bool)
    ensures forall t :: t in WantedTypes(assets, wanted) ==> wanted(t)
  {
  }

  lemma LocationsNext(assets: seq<Asset>, i: nat, wanted: int -> bool, resolved: map<int, int>)
    requires i < |assets| && assets[i].itemId in resolved
    ensures var a, before := assets[i], WantedLocations(assets[..i], wanted, resolved);
      WantedLocations(assets[..i + 1], wanted, resolved) ==
      if wanted(a.typeId)
      then before[a.typeId := (if a.typeId in before then before[a.typeId] else {}) + {resolved[a.itemId]}] else before
  {
    hide SumWhere, KeysOf;
    KeysNext(assets, i, WantedType(wanted), TypeKey());
    var t := assets[i].typeId;
    if wanted(t) && t !in WantedTypes(assets[..i], wanted) {
      NoneOfType(assets[..i], wanted, t, InDict(resolved));
    }
    WantedOnly(assets[..i], wanted);
    var a, before := assets[i], WantedLocations(assets[..i], wanted, resolved);
    var grown := (if t in before then before[t] else {}) + {resolved[a.itemId]};
    var after := if wanted(t) then before[t := grown] else before;
    forall k | k in WantedTypes(assets[..i + 1], wanted)
      ensures KeysOf(assets[..i + 1], OfType(k), InDict(resolved)) == after[k]
    {
      KeysNext(assets, i, OfType(k), InDict(resolved));
      if k != t {
        assert before[k] + {} == before[k];
      }
    }
    SameMap(WantedLocations(assets[..i + 1], wanted, resolved), after);
  }

  /** Quantities and location sets of the types a category wants. */
  method CategoryRows(assets: seq<Asset>, resolved: map<int, int>, wanted: int -> bool)
    returns (quantities: map<int, int>, locations: map<int, set<int>>)
    requires forall a :: a in assets ==> a.itemId in resolved
    ensures quantities == WantedQuantities(assets, wanted)
    ensures locations == WantedLocations(assets, wanted, resolved)
  {
    hide WantedQuantities, WantedLocations;
    quantities, locations := map[], map[];
    var i := 0;
    NothingWanted(assets, wanted, resolved);
    while i < |assets|
      invariant 0 <= i <= |assets|
      invariant quantities == WantedQuantities(assets[..i], wanted)
      invariant locations == WantedLocations(assets[..i], wanted, resolved)
    {
      var asset := assets[i];
      QuantitiesNext(assets, i, wanted);
      LocationsNext(assets, i, wanted, resolved);
      if wanted(asset.typeId) {
        quantities := quantities[asset.typeId :=
          (if asset.typeId in quantities then quantities[asset.typeId] else 0) + asset.quantity];
        locations := locations[asset.typeId :=
          (if asset.typeId in locations then locations[asset.typeId] else {}) + {resolved[asset.itemId]}];
      }
      i := i + 1;
    }
    assert assets[..i] == assets;
  }

  lemma NothingWanted(assets: seq<Asset>, wanted: int -> bool, resolved: map<int, int>)
    ensures WantedQuantities(assets[..0], wanted) == map[] && WantedLocations(assets[..0], wanted, resolved) == map[]
  {
  }

  lemma {:induction false} KeysSame(assets: seq<Asset>, sel: Asset -> bool, f: Asset -> int, g: Asset -> int)
    requires forall a :: a in assets ==> f(a) == g(a)
    ensures KeysOf(assets, sel, f) == KeysOf(assets, sel, g)
  {
    assert forall k :: k in KeysOf(assets, sel, f) <==> k in KeysOf(assets, sel, g);
  }

  /** The copies of one item id are all at one place. */
  ghost predicate OnePlacePerId(assets: seq<Asset>) {
    forall a, b :: a in assets && b in assets && a.itemId == b.itemId ==>
                     LocationKey(ByItemId(assets))(a) == LocationKey(ByItemId(assets))(b)
  }

  lemma UniqueIdsOnePlace(assets: seq<Asset>)
    requires UniqueIds(assets)
    ensures OnePlacePerId(assets)
  {
  }

  /** The overview counts every asset at its own place exactly when no item id occurs at two places. */
  lemma OwnPlaceExactlyWhen(assets: seq<Asset>)
    ensures (forall a :: a in assets ==> LastKey(ByItemId(assets))(a) == LocationKey(ByItemId(assets))(a))
       <==> OnePlacePerId(assets)
  {
    hide Resolved, ByItemId, LastKey, LocationKey;
    forall a | a in assets
      ensures a.itemId in ByItemId(assets) && ByItemId(assets)[a.itemId] in assets
      ensures ByItemId(assets)[a.itemId].itemId == a.itemId
      ensures LastKey(ByItemId(assets))(a) == LocationKey(ByItemId(assets))(ByItemId(assets)[a.itemId])
    {
      LastCopy(assets, a);
    }
  }

  /** Then the overview counts for each type exactly the locations its page lists. */
  lemma OnePlacePerIdAgrees(assets: seq<Asset>, t: int)
    requires OnePlacePerId(assets)
    ensures OverviewLocations(assets, t) == ItemQuantities(assets, t).Keys
  {
    hide KeysOf, Resolved, SumWhere, LastKey, LocationKey;
    OwnPlaceExactlyWhen(assets);
    KeysSame(assets, OfType(t), LastKey(ByItemId(assets)), LocationKey(ByItemId(assets)));
    assert ItemQuantities(assets, t).Keys == LocationsOf(assets, t);
  }

  /** The copy of its item id that the overview goes by. */
  ghost predicate Current(assets: seq<Asset>, b: Asset) {
    b in assets && b.itemId in ByItemId(assets) && ByItemId(assets)[b.itemId] == b
  }

  ghost predicate CurrentAt(assets: seq<Asset>, sel: Asset -> bool, loc: int) {
    exists b :: Current(assets, b) && sel(b) && LocationKey(ByItemId(assets))(b) == loc
  }

  /** Every selected asset shares its place with a selected current copy. */
  ghost predicate PlacesAreCurrent(assets: seq<Asset>, sel: Asset -> bool) {
    forall a :: a in assets && sel(a) ==> CurrentAt(assets, sel, LocationKey(ByItemId(assets))(a))
  }

  ghost predicate CopiesAlike(assets: seq<Asset>, sel: Asset -> bool) {
    forall a, b :: a in assets && b in assets && a.itemId == b.itemId ==> sel(a) == sel(b)
  }

  lemma CurrentCopy(assets: seq<Asset>, sel: Asset -> bool, a: Asset) returns (b: Asset)
    requires CopiesAlike(assets, sel) && a in assets
    ensures Current(assets, b) && sel(b) == sel(a)
    ensures LastKey(ByItemId(assets))(a) == LocationKey(ByItemId(assets))(b)
    ensures Current(assets, a) ==> b == a
  {
    hide Resolved, LastKey, LocationKey;
    LastCopy(assets, a);
    b := ByItemId(assets)[a.itemId];
  }

  lemma LastPlaceIsCurrent(assets: seq<Asset>, sel: Asset -> bool, k: int)
    requires CopiesAlike(assets, sel)
    ensures k in KeysOf(assets, sel, LastKey(ByItemId(assets))) <==> CurrentAt(assets, sel, k)
    ensures CurrentAt(assets, sel, k) ==> k in KeysOf(assets, sel, LocationKey(ByItemId(assets)))
  {
    hide Resolved, LastKey, LocationKey, CopiesAlike;
    if k in KeysOf(assets, sel, LastKey(ByItemId(assets))) {
      var a :| a in assets && sel(a) && LastKey(ByItemId(assets))(a) == k;
      var b := CurrentCopy(assets, sel, a);
    }
    if CurrentAt(assets, sel, k) {
      var b :| Current(assets, b) && sel(b) && LocationKey(ByItemId(assets))(b) == k;
      var c := CurrentCopy(assets, sel, b);
    }
  }

  lemma CurrentAtOwnPlaces(assets: seq<Asset>, sel: Asset -> bool)
    ensures PlacesAreCurrent(assets, sel) <==>
            forall k :: k in KeysOf(assets, sel, LocationKey(ByItemId(assets))) ==> CurrentAt(assets, sel, k)
  {
    hide Resolved, ByItemId, LocationKey, CurrentAt;
    forall a | a in assets && sel(a)
      ensures LocationKey(ByItemId(assets))(a) in KeysOf(assets, sel, LocationKey(ByItemId(assets)))
    {
    }
  }

  /** Counting by current copies misses exactly the places where only superseded copies are. */
  lemma CurrentPlacesExactlyWhen(assets: seq<Asset>, sel: Asset -> bool)
    requires CopiesAlike(assets, sel)
    ensures var byId := ByItemId(assets);
      && KeysOf(assets, sel, LastKey(byId)) <= KeysOf(assets, sel, LocationKey(byId))
      && (KeysOf(assets, sel, LastKey(byId)) == KeysOf(assets, sel, LocationKey(byId))
          <==> PlacesAreCurrent(assets, sel))
  {
    hide KeysOf, ByItemId, LastKey, LocationKey, CopiesAlike, CurrentAt, PlacesAreCurrent;
    var byId := ByItemId(assets);
    var last, own := KeysOf(assets, sel, LastKey(byId)), KeysOf(assets, sel, LocationKey(byId));
    forall k
      ensures k in last <==> CurrentAt(assets, sel, k)
    {
      LastPlaceIsCurrent(assets, sel, k);
    }
    forall k | k in last
      ensures k in own
    {
      LastPlaceIsCurrent(assets, sel, k);
    }
    CurrentAtOwnPlaces(assets, sel);
    SameWhenCovered(last, own);
  }

  lemma SameWhenCovered(small: set<int>, large: set<int>)
    requires forall k :: k in small ==> k in large
    ensures small <= large && (small == large <==> forall k :: k in large ==> k in small)
  {
    NothingMissing(small, large);
    if forall k :: k in large ==> k in small {
      NothingMissing(large, small);
    }
  }

  lemma NothingMissing(a: set<int>, b: set<int>)
    requires forall k :: k in a ==> k in b
    ensures a <= b
  {
    if a - b != {} {
      Sums.HasElement(a - b);
    }
    assert a == a * b + (a - b);
  }

  /** While copies of an item id are of one type, the overview never counts a location that the item
      page does not list, and counts them all exactly when each listed one holds a current copy. */
  lemma PageAgreesExactlyWhen(assets: seq<Asset>, t: int)
    requires CopiesAlike(assets, OfType(t))
    ensures OverviewLocations(assets, t) <= ItemQuantities(assets, t).Keys
    ensures OverviewLocations(assets, t) == ItemQuantities(assets, t).Keys <==> PlacesAreCurrent(assets, OfType(t))
  {
    hide Resolved, SumWhere, KeysOf, PlacesAreCurrent;
    CurrentPlacesExactlyWhen(assets, OfType(t));
    assert ItemQuantities(assets, t).Keys == LocationsOf(assets, t);
  }

  /** One item id at two places outside any container: the item page lists both, the overview counts
      one. */
  lemma DuplicateIdsDisagree(a: Asset, b: Asset)
    requires a.itemId == b.itemId && a.typeId == b.typeId
    requires a.locationId != b.locationId && a.itemId != a.locationId && a.itemId != b.locationId
    ensures ItemQuantities([a, b], a.typeId).Keys == {a.locationId, b.locationId}
    ensures OverviewLocations([a, b], a.typeId) == {b.locationId}
  {
    var assets := [a, b];
    var byId := ByItemId(assets);
    assert assets[..1] == [a] && [a][..0] == [];
    assert ByItemId([a]) == map[][a.itemId := a];
    assert byId == map[][a.itemId := a][b.itemId := b];
    NotInContainer(byId, a.locationId);
    NotInContainer(byId, b.locationId);
    assert a in assets && b in assets;
    var listed := LocationsOf(assets, a.typeId);
    assert LocationKey(byId)(a) in listed && LocationKey(byId)(b) in listed;
    assert ItemQuantities(assets, a.typeId).Keys == listed;
  }

  lemma NotInContainer(assets: Assets, l: int)
    requires l !in assets
    ensures Resolved(assets, l) == l
  {
    assert LeavesAt(assets, l, 0);
    ResolvedWhenLeaving(assets, l, 0);
  }

  /** The distinct places in a dict of resolved locations. */
  function Places(resolved: map<int, int>): set<int> {
    set id | id in resolved :: resolved[id]
  }

  /** The resolved dict holds the places of the current copies. */
  lemma ResolvedPlaces(assets: seq<Asset>, resolved: map<int, int>)
    requires resolved.Keys == ByItemId(assets).Keys
    requires forall id :: id in resolved ==> resolved[id] == Resolved(ByItemId(assets), ByItemId(assets)[id].locationId)
    ensures Places(resolved) == KeysOf(assets, Everything(), LastKey(ByItemId(assets)))
  {
    hide Resolved;
    var byId := ByItemId(assets);
    IdsOf(assets);
    forall loc | loc in Places(resolved)
      ensures loc in KeysOf(assets, Everything(), LastKey(byId))
    {
      var id :| id in resolved && resolved[id] == loc;
      assert byId[id] in assets && LastKey(byId)(byId[id]) == loc && Everything()(byId[id]);
    }
    forall loc | loc in KeysOf(assets, Everything(), LastKey(byId))
      ensures loc in Places(resolved)
    {
      var a :| a in assets && LastKey(byId)(a) == loc;
      LastCopy(assets, a);
      assert a.itemId in resolved && resolved[a.itemId] == loc;
    }
    assert forall loc :: loc in Places(resolved) <==> loc in KeysOf(assets, Everything(), LastKey(byId));
  }

  lemma {:induction false} ProperlyFewer(a: set<int>, b: set<int>)
    requires a <= b
    ensures |a| <= |b| && (|a| == |b| <==> a == b)
    decreases |b|
  {
    if a != {} {
      Sums.HasElement(a);
      var x :| x in a;
      ProperlyFewer(a - {x}, b - {x});
      if a - {x} == b - {x} {
        assert a == a - {x} + {x} && b == b - {x} + {x};
      }
    } else if b != {} {
      Sums.HasElement(b);
    }
  }

  lemma OnePlaceIsCurrent(assets: seq<Asset>)
    requires OnePlacePerId(assets)
    ensures PlacesAreCurrent(assets, Everything())
  {
    hide Resolved;
    forall a | a in assets
      ensures CurrentAt(assets, Everything(), LocationKey(ByItemId(assets))(a))
    {
      LastCopy(assets, a);
      assert Current(assets, ByItemId(assets)[a.itemId]);
    }
  }

  /** The places of the last copies. */
  ghost predicate ArePlacesOf(byId: Assets, places: set<int>) {
    forall loc :: loc in places <==> exists id :: id in byId && KeptAt(byId, byId[id], loc)
  }

  lemma PlacesAreOf(byId: Assets, resolved: map<int, int>)
    requires resolved.Keys == byId.Keys
    requires forall id :: id in resolved ==> resolved[id] == Resolved(byId, byId[id].locationId)
    ensures ArePlacesOf(byId, Places(resolved))
  {
    hide KeptAt, Resolved;
    forall loc, id | id in byId
      ensures KeptAt(byId, byId[id], loc) <==> resolved[id] == loc
    {
      KeptAtResolved(byId, byId[id], loc);
    }
  }

  /** The overview's headline: everything owned, and in how many places. The count is never too high,
      and right exactly when every place holds a current copy. */
  method OverviewTotals(assets: seq<Asset>)
    returns (totalQuantity: int, totalLocations: nat, ghost places: set<int>)
    ensures totalQuantity == SumWhere(assets, Everything()) == SumOver(AllTypes(assets), ItemTotals(assets))
    ensures totalLocations <= |AllLocations(assets)|
    ensures totalLocations == |AllLocations(assets)| <==> PlacesAreCurrent(assets, Everything())
    ensures OnePlacePerId(assets) ==> totalLocations == |AllLocations(assets)|
    ensures totalQuantity == TotalOf(assets, (a: Asset) => true)
    ensures IsLastCopies(assets, ByItemId(assets))
    ensures ArePlacesOf(ByItemId(assets), places) && totalLocations == |places|
  {
    hide Resolved, KeysOf, Sum, PlacesAreCurrent, OnePlacePerId, TotalOf, IsLastCopies, ArePlacesOf;
    ByItemIdIsLast(assets);
    TotalIsSum(assets, Everything(), (a: Asset) => true);
    var resolved := ResolveAll(assets, ByItemId(assets));
    totalQuantity := 0;
    var i := 0;
    while i < |assets|
      invariant 0 <= i <= |assets|
      invariant totalQuantity == SumWhere(assets[..i], Everything())
    {
      SumWhereNext(assets, i, Everything());
      totalQuantity := totalQuantity + assets[i].quantity;
      i := i + 1;
    }
    assert assets[..i] == assets;
    PagesAddUp(assets);
    totalLocations := |Places(resolved)|;
    places := Places(resolved);
    PlacesAreOf(ByItemId(assets), resolved);
    ResolvedPlaces(assets, resolved);
    CurrentPlacesExactlyWhen(assets, Everything());
    ProperlyFewer(Places(resolved), AllLocations(assets));
    if OnePlacePerId(assets) {
      OnePlaceIsCurrent(assets);
    }
  }

  lemma InOverview(assets: seq<Asset>, t: int, loc: int)
    ensures loc in OverviewLocations(assets, t) <==>
            exists i :: 0 <= i < |assets| && assets[i].typeId == t && assets[i].itemId in ByItemId(assets) &&
                        KeptAt(ByItemId(assets), ByItemId(assets)[assets[i].itemId], loc)
  {
    hide KeptAt, Resolved, ByItemId;
    var byId := ByItemId(assets);
    IdsOf(assets);
    forall i | 0 <= i < |assets|
      ensures assets[i].itemId in byId
      ensures KeptAt(byId, byId[assets[i].itemId], loc) <==> LastKey(byId)(assets[i]) == loc
    {
      KeptAtResolved(byId, byId[assets[i].itemId], loc);
    }
    if loc in OverviewLocations(assets, t) {
      var a :| a in assets && OfType(t)(a) && LastKey(byId)(a) == loc;
      var i :| 0 <= i < |assets| && assets[i] == a;
      assert assets[i].typeId == t;
    }
    if i :| 0 <= i < |assets| && assets[i].typeId == t && assets[i].itemId in byId &&
            KeptAt(byId, byId[assets[i].itemId], loc) {
      assert assets[i] in assets && OfType(t)(assets[i]);
    }
  }

  lemma CategoryIs(assets: seq<Asset>, wanted: int -> bool, quantities: map<int, int>, locations: map<int, set<int>>)
    requires quantities == WantedQuantities(assets, wanted) && locations.Keys == quantities.Keys
    requires forall t :: t in locations ==> locations[t] == OverviewLocations(assets, t)
    ensures CategoryHolds(assets, ByItemId(assets), wanted, quantities, locations)
  {
    hide KeptAt, ByItemId, OverviewLocations, SumWhere, TotalOf;
    forall t
      ensures t in quantities <==> wanted(t) && exists i :: 0 <= i < |assets| && assets[i].typeId == t
      ensures SumWhere(assets, OfType(t)) == TotalOf(assets, (a: Asset) => a.typeId == t)
    {
      TotalIsSum(assets, OfType(t), (a: Asset) => a.typeId == t);
      if i :| 0 <= i < |assets| && assets[i].typeId == t && wanted(t) {
        assert assets[i] in assets && WantedType(wanted)(assets[i]) && TypeKey()(assets[i]) == t;
      }
      if t in quantities {
        var a :| a in assets && WantedType(wanted)(a) && TypeKey()(a) == t;
        var i :| 0 <= i < |assets| && assets[i] == a;
        assert assets[i].typeId == t;
      }
    }
    forall t, loc | t in locations
      ensures loc in locations[t] <==>
              exists i :: 0 <= i < |assets| && assets[i].typeId == t && assets[i].itemId in ByItemId(assets) &&
                          KeptAt(ByItemId(assets), ByItemId(assets)[assets[i].itemId], loc)
    {
      InOverview(assets, t, loc);
    }
  }

  /** One category of the overview: each type's quantity is what its item page adds up to. */
  method OverviewCategory(assets: seq<Asset>, wanted: int -> bool)
    returns (quantities: map<int, int>, locations: map<int, set<int>>)
    ensures quantities.Keys == locations.Keys == WantedTypes(assets, wanted)
    ensures forall t :: t in quantities ==> quantities[t] == Sum(ItemQuantities(assets, t))
    ensures forall t :: t in locations ==> locations[t] == OverviewLocations(assets, t)
    ensures IsLastCopies(assets, ByItemId(assets))
    ensures CategoryHolds(assets, ByItemId(assets), wanted, quantities, locations)
  {
    hide KeysOf, Resolved, SumWhere, Sum, ItemQuantities, IsLastCopies, CategoryHolds;
    ByItemIdIsLast(assets);
    var byId := ByItemId(assets);
    var resolved := ResolveAll(assets, byId);
    IdsOf(assets);
    quantities, locations := CategoryRows(assets, resolved, wanted);
    forall t | t in quantities
      ensures quantities[t] == Sum(ItemQuantities(assets, t))
      ensures locations[t] == OverviewLocations(assets, t)
    {
      ItemPageTotal(assets, t);
      KeysSame(assets, OfType(t), InDict(resolved), LastKey(byId));
    }
    CategoryIs(assets, wanted, quantities, locations);
  }
}
