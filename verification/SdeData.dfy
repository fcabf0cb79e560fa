/** The raw SDE tables and the lookup documents that migrations 0002 and 0008 join from them. */
module SdeData {
  import opened Optional

  /** One row of any raw table; a table fills the columns it has. */
  datatype RawRow = RawRow(typeID: int, activityID: int, materialTypeID: int, productTypeID: int,
                           quantity: int, time: int, typeName: string, groupID: int, published: int,
                           techLevel: Option<int>)

  datatype Table = Activity | Materials | Products | Types

  /** The required dump files in the order of their names. */
  const TABLES: seq<Table> := [Activity, Materials, Products, Types]

  datatype Tables = Tables(activity: seq<RawRow>, materials: seq<RawRow>, products: seq<RawRow>,
                           types: seq<RawRow>) {
    function Rows(t: Table): seq<RawRow> {
      match t
      case Activity => activity
      case Materials => materials
      case Products => products
      case Types => types
    }

    function With(t: Table, rows: seq<RawRow>): (r: Tables)
      ensures r.Rows(t) == rows && forall u :: u != t ==> r.Rows(u) == Rows(u)
    {
      match t
      case Activity => this.(activity := rows)
      case Materials => this.(materials := rows)
      case Products => this.(products := rows)
      case Types => this.(types := rows)
    }
  }

  datatype MaterialDoc = MaterialDoc(typeId: int, quantity: int)

  datatype Doc =
    | TypeDoc(id: int, name: string, groupId: int, published: bool, techLevel: Option<int>)
    | BlueprintDoc(id: int, productTypeId: int, productQuantity: int, time: Option<int>,
                   materials: seq<MaterialDoc>, activityId: Option<int>)

  const MANUFACTURING: int := 1
  const REACTIONS: int := 11

  // What the joined documents say, row by row

  /** The last time row of the blueprint wins. */
  function TimeOf(rows: seq<RawRow>, activity: int, id: int): Option<int> {
    if rows == [] then None
    else var last := rows[|rows| - 1];
      if last.activityID == activity && last.typeID == id then Some(last.time)
      else TimeOf(rows[..|rows| - 1], activity, id)
  }

  /** Its material rows, in table order. */
  function MaterialsOf(rows: seq<RawRow>, activity: int, id: int): seq<MaterialDoc> {
    if rows == [] then []
    else var last := rows[|rows| - 1];
      MaterialsOf(rows[..|rows| - 1], activity, id) +
      if last.activityID == activity && last.typeID == id
      then [MaterialDoc(last.materialTypeID, last.quantity)] else []
  }

  function JoinedDoc(tables: Tables, activity: int, tag: Option<int>, row: RawRow): Doc {
    BlueprintDoc(row.typeID, row.productTypeID, row.quantity, TimeOf(tables.activity, activity, row.typeID),
                 MaterialsOf(tables.materials, activity, row.typeID), tag)
  }

  /** One document per product row of the activity. */
  function JoinedDocs(tables: Tables, products: seq<RawRow>, activity: int, tag: Option<int>): seq<Doc> {
    if products == [] then []
    else var last := products[|products| - 1];
      JoinedDocs(tables, products[..|products| - 1], activity, tag) +
      if last.activityID == activity then [JoinedDoc(tables, activity, tag, last)] else []
  }

  function TypeDocOf(row: RawRow): Doc {
    TypeDoc(row.typeID, row.typeName, row.groupID, row.published != 0, row.techLevel)
  }

  function TypeDocs(rows: seq<RawRow>): seq<Doc> {
    seq(|rows|, i requires 0 <= i < |rows| => TypeDocOf(rows[i]))
  }

  function ManufacturingDocs(tables: Tables): seq<Doc> {
    JoinedDocs(tables, tables.products, MANUFACTURING, None)
  }

  function ReactionDocs(tables: Tables): seq<Doc> {
    JoinedDocs(tables, tables.products, REACTIONS, Some(REACTIONS))
  }

  // The same, as conditions on the rows

  /** `picked` are, in increasing order, the positions of the rows of the activity; of the blueprint only, if one is
      given. */
  ghost predicate Positions(rows: seq<RawRow>, activity: int, id: Option<int>, picked: seq<nat>) {
    && (forall k, l :: 0 <= k < l < |picked| ==> picked[k] < picked[l])
    && forall i: nat :: i in picked <==>
                          i < |rows| && rows[i].activityID == activity && (id.Some? ==> rows[i].typeID == id.value)
  }

  /** The blueprint's material rows of the activity, each once, in table order. */
  ghost predicate ListsMaterials(rows: seq<RawRow>, activity: int, id: int, materials: seq<MaterialDoc>) {
    exists picked :: Positions(rows, activity, Some(id), picked) && MaterialsAt(rows, picked, materials)
  }

  ghost predicate MaterialsAt(rows: seq<RawRow>, picked: seq<nat>, materials: seq<MaterialDoc>) {
    && |picked| == |materials|
    && forall k :: 0 <= k < |picked| ==>
         && picked[k] < |rows|
         && materials[k].typeId == rows[picked[k]].materialTypeID
         && materials[k].quantity == rows[picked[k]].quantity
  }

  predicate IsRowOf(row: RawRow, activity: int, id: int) {
    row.activityID == activity && row.typeID == id
  }

  /** The time of the blueprint's last row of the activity, None when it has none. */
  ghost predicate LastTime(rows: seq<RawRow>, activity: int, id: int, time: Option<int>) {
    if time.None? then forall i :: 0 <= i < |rows| ==> !IsRowOf(rows[i], activity, id)
    else exists i ::
      && 0 <= i < |rows| && IsRowOf(rows[i], activity, id) && rows[i].time == time.value
      && forall j :: i < j < |rows| ==> !IsRowOf(rows[j], activity, id)
  }

  /** The document that a product row stands for. */
  ghost predicate DocFor(tables: Tables, activity: int, tag: Option<int>, row: RawRow, doc: Doc) {
    && doc.BlueprintDoc? && doc.id == row.typeID
    && doc.productTypeId == row.productTypeID && doc.productQuantity == row.quantity && doc.activityId == tag
    && LastTime(tables.activity, activity, row.typeID, doc.time)
    && ListsMaterials(tables.materials, activity, row.typeID, doc.materials)
  }

  ghost predicate DocsAt(tables: Tables, activity: int, tag: Option<int>, picked: seq<nat>, docs: seq<Doc>) {
    && |picked| == |docs|
    && forall k :: 0 <= k < |picked| ==>
         picked[k] < |tables.products| && DocFor(tables, activity, tag, tables.products[picked[k]], docs[k])
  }

  /** One document per product row of the activity, in table order. */
  ghost predicate DocsFor(tables: Tables, activity: int, tag: Option<int>, docs: seq<Doc>) {
    exists picked :: Positions(tables.products, activity, None, picked) && DocsAt(tables, activity, tag, picked, docs)
  }

  lemma {:induction false} TimeOfIsLast(rows: seq<RawRow>, activity: int, id: int)
    ensures LastTime(rows, activity, id, TimeOf(rows, activity, id))
  {
    if rows != [] {
      var n := |rows| - 1;
      if !IsRowOf(rows[n], activity, id) {
        TimeOfIsLast(rows[..n], activity, id);
        var time := TimeOf(rows[..n], activity, id);
        assert forall i :: 0 <= i < n ==> rows[..n][i] == rows[i];
        if time.Some? {
          var i :| 0 <= i < n && IsRowOf(rows[..n][i], activity, id) && rows[..n][i].time == time.value &&
                   forall j :: i < j < n ==> !IsRowOf(rows[..n][j], activity, id);
          assert IsRowOf(rows[i], activity, id);
        }
      }
    }
  }

  /** One more row: its position is picked when it is wanted. */
  lemma PositionsNext(rows: seq<RawRow>, activity: int, id: Option<int>, picked: seq<nat>)
    requires rows != [] && Positions(rows[..|rows| - 1], activity, id, picked)
    ensures var n := |rows| - 1;
      Positions(rows, activity, id,
                if rows[n].activityID == activity && (id.Some? ==> rows[n].typeID == id.value)
                then picked + [n] else picked)
  {
    var n := |rows| - 1;
    assert forall i :: 0 <= i < n ==> rows[..n][i] == rows[i];
    assert forall k :: 0 <= k < |picked| ==> picked[k] in picked;
    assert forall i: nat :: i in picked + [n] <==> i in picked || i == n;
  }

  lemma MaterialsNext(rows: seq<RawRow>, picked: seq<nat>, materials: seq<MaterialDoc>)
    requires rows != [] && MaterialsAt(rows[..|rows| - 1], picked, materials)
    ensures MaterialsAt(rows, picked, materials)
    ensures var n := |rows| - 1;
      MaterialsAt(rows, picked + [n], materials + [MaterialDoc(rows[n].materialTypeID, rows[n].quantity)])
  {
  }

  lemma NoneYet(tables: Tables, activity: int, id: Option<int>, tag: Option<int>)
    ensures Positions([], activity, id, []) && MaterialsAt([], [], []) && DocsAt(tables, activity, tag, [], [])
  {
  }

  lemma {:induction false} MaterialsOfPicked(rows: seq<RawRow>, activity: int, id: int) returns (picked: seq<nat>)
    ensures Positions(rows, activity, Some(id), picked) && MaterialsAt(rows, picked, MaterialsOf(rows, activity, id))
  {
    hide Positions, MaterialsAt;
    if rows == [] {
      picked := [];
      NoneYet(Tables([], [], [], []), activity, Some(id), None);
    } else {
      var n := |rows| - 1;
      picked := MaterialsOfPicked(rows[..n], activity, id);
      PositionsNext(rows, activity, Some(id), picked);
      MaterialsNext(rows, picked, MaterialsOf(rows[..n], activity, id));
      if rows[n].activityID == activity && rows[n].typeID == id {
        picked := picked + [n];
      } else {
        assert MaterialsOf(rows[..n], activity, id) + [] == MaterialsOf(rows[..n], activity, id);
      }
    }
  }

  /** The materials of a blueprint are its rows of the activity. */
  lemma MaterialsListed(rows: seq<RawRow>, activity: int, id: int)
    ensures ListsMaterials(rows, activity, id, MaterialsOf(rows, activity, id))
  {
    hide Positions, MaterialsAt;
    var picked := MaterialsOfPicked(rows, activity, id);
  }

  lemma JoinedDocIsFor(tables: Tables, activity: int, tag: Option<int>, row: RawRow)
    ensures DocFor(tables, activity, tag, row, JoinedDoc(tables, activity, tag, row))
  {
    hide LastTime, ListsMaterials;
    TimeOfIsLast(tables.activity, activity, row.typeID);
    MaterialsListed(tables.materials, activity, row.typeID);
  }

  lemma DocsNext(tables: Tables, activity: int, tag: Option<int>, picked: seq<nat>, docs: seq<Doc>, n: nat, doc: Doc)
    requires DocsAt(tables, activity, tag, picked, docs)
    requires n < |tables.products| && DocFor(tables, activity, tag, tables.products[n], doc)
    ensures DocsAt(tables, activity, tag, picked + [n], docs + [doc])
  {
    hide DocFor;
  }

  lemma {:induction false} JoinedDocsPicked(tables: Tables, products: seq<RawRow>, activity: int, tag: Option<int>)
    returns (picked: seq<nat>)
    requires products <= tables.products
    ensures Positions(products, activity, None, picked)
    ensures DocsAt(tables, activity, tag, picked, JoinedDocs(tables, products, activity, tag))
  {
    hide DocFor, JoinedDoc, Positions, DocsAt;
    if products == [] {
      picked := [];
      NoneYet(tables, activity, None, tag);
    } else {
      var n := |products| - 1;
      var docs := JoinedDocs(tables, products[..n], activity, tag);
      picked := JoinedDocsPicked(tables, products[..n], activity, tag);
      PositionsNext(products, activity, None, picked);
      if products[n].activityID == activity {
        JoinedDocIsFor(tables, activity, tag, products[n]);
        DocsNext(tables, activity, tag, picked, docs, n, JoinedDoc(tables, activity, tag, products[n]));
        picked := picked + [n];
      } else {
        assert docs + [] == docs;
      }
    }
  }

  // The loops that build them through dicts

  method ReadTimes(rows: seq<RawRow>, activity: int) returns (times: map<int, int>)
    ensures forall id :: TimeOf(rows, activity, id) == if id in times then Some(times[id]) else None
    ensures forall id :: LastTime(rows, activity, id, if id in times then Some(times[id]) else None)
  {
    hide LastTime;
    times := map[];
    var i := 0;
    while i < |rows|
      invariant 0 <= i <= |rows|
      invariant forall id :: TimeOf(rows[..i], activity, id) == if id in times then Some(times[id]) else None
    {
      assert rows[..i + 1][..i] == rows[..i];
      if rows[i].activityID == activity {
        times := times[rows[i].typeID := rows[i].time];
      }
      i := i + 1;
    }
    assert rows[..i] == rows;
    forall id
      ensures LastTime(rows, activity, id, TimeOf(rows, activity, id))
    {
      TimeOfIsLast(rows, activity, id);
    }
  }

  function MaterialsIn(materials: map<int, seq<MaterialDoc>>, id: int): seq<MaterialDoc> {
    if id in materials then materials[id] else []
  }

  lemma NoMaterials(activity: int)
    ensures forall id :: MaterialsOf([], activity, id) == []
  {
  }

  lemma OneMoreMaterial(rows: seq<RawRow>, i: nat, activity: int, id: int)
    requires i < |rows|
    ensures MaterialsOf(rows[..i + 1], activity, id) ==
            MaterialsOf(rows[..i], activity, id) +
            if rows[i].activityID == activity && rows[i].typeID == id
            then [MaterialDoc(rows[i].materialTypeID, rows[i].quantity)] else []
  {
    assert rows[..i + 1][..i] == rows[..i];
  }

  /** The material rows collected per blueprint. */
  method ReadMaterials(rows: seq<RawRow>, activity: int) returns (materials: map<int, seq<MaterialDoc>>)
    ensures forall id :: MaterialsIn(materials, id) == MaterialsOf(rows, activity, id)
    ensures forall id :: ListsMaterials(rows, activity, id, if id in materials then materials[id] else [])
  {
    hide ListsMaterials, MaterialsOf;
    NoMaterials(activity);
    materials := map[];
    var i := 0;
    while i < |rows|
      invariant 0 <= i <= |rows|
      invariant forall id :: MaterialsIn(materials, id) == MaterialsOf(rows[..i], activity, id)
    {
      ghost var before := materials;
      if rows[i].activityID == activity {
        var entry := MaterialDoc(rows[i].materialTypeID, rows[i].quantity);
        materials := materials[rows[i].typeID := MaterialsIn(materials, rows[i].typeID) + [entry]];
      }
      forall id
        ensures MaterialsIn(materials, id) == MaterialsOf(rows[..i + 1], activity, id)
      {
        OneMoreMaterial(rows, i, activity, id);
        assert MaterialsIn(before, id) == MaterialsOf(rows[..i], activity, id);
        assert MaterialsIn(before, id) + [] == MaterialsIn(before, id);
      }
      i := i + 1;
    }
    assert rows[..i] == rows;
    forall id
      ensures ListsMaterials(rows, activity, id, if id in materials then materials[id] else [])
    {
      MaterialsListed(rows, activity, id);
      assert MaterialsIn(materials, id) == MaterialsOf(rows, activity, id);
    }
  }

  method ReadBlueprints(tables: Tables, activity: int, tag: Option<int>) returns (docs: seq<Doc>)
    ensures docs == JoinedDocs(tables, tables.products, activity, tag)
    ensures DocsFor(tables, activity, tag, docs)
  {
    hide Positions, MaterialsAt, DocsAt, LastTime, ListsMaterials;
    var times := ReadTimes(tables.activity, activity);
    var materials := ReadMaterials(tables.materials, activity);
    docs := [];
    var i := 0;
    while i < |tables.products|
      invariant 0 <= i <= |tables.products|
      invariant docs == JoinedDocs(tables, tables.products[..i], activity, tag)
    {
      var row := tables.products[i];
      assert tables.products[..i + 1][..i] == tables.products[..i];
      if row.activityID == activity {
        var time := if row.typeID in times then Some(times[row.typeID]) else None;
        docs := docs + [BlueprintDoc(row.typeID, row.productTypeID, row.quantity, time,
                                     MaterialsIn(materials, row.typeID), tag)];
      }
      i := i + 1;
    }
    assert tables.products[..i] == tables.products;
    ghost var picked := JoinedDocsPicked(tables, tables.products, activity, tag);
  }

  /** The document of a type row. */
  predicate IsTypeDoc(row: RawRow, doc: Doc) {
    && doc.TypeDoc? && doc.id == row.typeID && doc.name == row.typeName && doc.groupId == row.groupID
    && (doc.published <==> row.published != 0) && doc.techLevel == row.techLevel
  }

  method ReadTypes(rows: seq<RawRow>) returns (docs: seq<Doc>)
    ensures docs == TypeDocs(rows)
    ensures |docs| == |rows| && forall i :: 0 <= i < |rows| ==> IsTypeDoc(rows[i], docs[i])
  {
    docs := [];
    var i := 0;
    while i < |rows|
      invariant 0 <= i <= |rows|
      invariant docs == TypeDocs(rows[..i])
    {
      docs := docs + [TypeDocOf(rows[i])];
      i := i + 1;
    }
    assert rows[..i] == rows;
  }
}
