/** What the migrations put into the lookup collections, in terms of the rows of the dump. */
module MigrationContents {
  import opened Optional
  import opened SdeData
  import opened MigrationState
  import opened ReactionOrder
  import opened MigrationConvergence

  // What the collections should hold

  /** One document per type row. */
  ghost predicate HoldsTypes(rows: seq<RawRow>, m: map<int, Doc>) {
    && (forall i :: 0 <= i < |rows| ==> rows[i].typeID in m)
    && forall id :: id in m ==> exists i :: 0 <= i < |rows| && rows[i].typeID == id && IsTypeDoc(rows[i], m[id])
  }

  /** The document of a product row of the activity for the blueprint. */
  ghost predicate HoldsProduct(tables: Tables, activity: int, tag: Option<int>, id: int, doc: Doc) {
    exists i ::
      && 0 <= i < |tables.products| && IsRowOf(tables.products[i], activity, id)
      && DocFor(tables, activity, tag, tables.products[i], doc)
  }

  /** 0002: the blueprints with a manufacturing product. */
  ghost predicate HoldsManufacturing(tables: Tables, m: map<int, Doc>) {
    && (forall id :: id in m <==> HasProduct(tables.products, 1, id))
    && forall id :: id in m ==> HoldsProduct(tables, 1, None, id, m[id])
  }

  /** The document of a reaction: that of one of its rows in the last 500 of the reaction rows that list it. */
  ghost predicate ReactionAt(tables: Tables, id: int, doc: Doc, picked: seq<nat>, k: nat) {
    && Positions(tables.products, 11, None, picked)
    && k < |picked| && picked[k] < |tables.products| && tables.products[picked[k]].typeID == id
    && DocFor(tables, 11, Some(11), tables.products[picked[k]], doc)
    && forall l :: k < l < |picked| && picked[l] < |tables.products| && tables.products[picked[l]].typeID == id ==>
                     l / 500 == k / 500
  }

  ghost predicate HoldsReaction(tables: Tables, id: int, doc: Doc) {
    exists picked, k :: ReactionAt(tables, id, doc, picked, k)
  }

  /** A blueprint without an activity gets the manufacturing one. */
  predicate Defaulted(before: Doc, after: Doc) {
    after == if before.BlueprintDoc? && before.activityId.None? then before.(activityId := Some(1)) else before
  }

  /** 0008: the reactions are replaced, other blueprints get the default activity. */
  ghost predicate ReactionsAdded(tables: Tables, before: map<int, Doc>, after: map<int, Doc>) {
    forall id :: ReactionsAddedAt(tables, before, after, id)
  }

  ghost predicate ReactionsAddedAt(tables: Tables, before: map<int, Doc>, after: map<int, Doc>, id: int) {
    if HasProduct(tables.products, 11, id) then id in after && HoldsReaction(tables, id, after[id])
    else (id in after <==> id in before) && (id in before ==> Defaulted(before[id], after[id]))
  }

  /** After all migrations: reactions, and manufacturing for every blueprint that is none. */
  ghost predicate HoldsBlueprints(tables: Tables, m: map<int, Doc>) {
    forall id :: HoldsBlueprintAt(tables, m, id)
  }

  ghost predicate HoldsBlueprintAt(tables: Tables, m: map<int, Doc>, id: int) {
    if HasProduct(tables.products, 11, id) then id in m && HoldsReaction(tables, id, m[id])
    else (id in m <==> HasProduct(tables.products, 1, id)) && (id in m ==> HoldsProduct(tables, 1, Some(1), id, m[id]))
  }

  /** The raw tables are the files, a missing one empty. */
  predicate HoldsFiles(files: Files, tables: Tables) {
    && tables.activity == (if Activity in files then files[Activity] else [])
    && tables.materials == (if Materials in files then files[Materials] else [])
    && tables.products == (if Products in files then files[Products] else [])
    && tables.types == (if Types in files then files[Types] else [])
  }

  /** The dump lists no type twice, and no blueprint twice among the manufacturing products. */
  predicate NothingTwice(files: Files) {
    && (Types in files ==>
          forall i, j :: 0 <= i < j < |files[Types]| ==> files[Types][i].typeID != files[Types][j].typeID)
    && (Products in files ==>
          forall i, j :: 0 <= i < j < |files[Products]| && files[Products][i].activityID == 1
                         && files[Products][j].activityID == 1 ==>
                           files[Products][i].typeID != files[Products][j].typeID)
  }

  lemma ImportableMeansNothingTwice(files: Files)
    ensures Importable(files) <==> NothingTwice(files)
  {
  }

  // 0002

  lemma {:induction false} AddedAt(m: map<int, Doc>, docs: seq<Doc>, k: nat)
    requires Added(m, docs).Some? && k < |docs|
    ensures docs[k].id in Added(m, docs).value && Added(m, docs).value[docs[k].id] == docs[k]
  {
    if k < |docs| - 1 {
      AddedAt(m, docs[..|docs| - 1], k);
    }
  }

  lemma TypesAdded(rows: seq<RawRow>)
    requires Added(map[], TypeDocs(rows)).Some?
    ensures HoldsTypes(rows, Added(map[], TypeDocs(rows)).value)
  {
    hide Added, DistinctIds;
    var docs := TypeDocs(rows);
    var m := Added(map[], docs).value;
    AddedExactlyWhen(map[], docs);
    forall i | 0 <= i < |rows|
      ensures rows[i].typeID in m && IsTypeDoc(rows[i], m[rows[i].typeID])
    {
      AddedAt(map[], docs, i);
      assert docs[i].id == rows[i].typeID;
    }
    forall id | id in m
      ensures exists i :: 0 <= i < |rows| && rows[i].typeID == id && IsTypeDoc(rows[i], m[id])
    {
      var i :| 0 <= i < |docs| && docs[i].id == id;
      assert rows[i].typeID == id;
    }
  }

  /** The documents of an activity, and the rows they come from. */
  lemma DocsPicked(tables: Tables, activity: int, tag: Option<int>) returns (picked: seq<nat>)
    ensures Positions(tables.products, activity, None, picked)
    ensures DocsAt(tables, activity, tag, picked, JoinedDocs(tables, tables.products, activity, tag))
  {
    picked := JoinedDocsPicked(tables, tables.products, activity, tag);
  }

  lemma DocHasRow(tables: Tables, activity: int, tag: Option<int>, picked: seq<nat>, docs: seq<Doc>, k: nat)
    requires Positions(tables.products, activity, None, picked) && DocsAt(tables, activity, tag, picked, docs)
    requires k < |docs|
    ensures k < |picked| && picked[k] < |tables.products| && IsRowOf(tables.products[picked[k]], activity, docs[k].id)
    ensures DocFor(tables, activity, tag, tables.products[picked[k]], docs[k])
  {
    hide LastTime, ListsMaterials;
    assert picked[k] in picked;
  }

  lemma PositionIsPicked(rows: seq<RawRow>, activity: int, picked: seq<nat>, i: nat)
    requires Positions(rows, activity, None, picked) && i < |rows| && rows[i].activityID == activity
    ensures i in picked
  {
    var wanted: Option<int> := None;
    assert wanted.None?;
  }

  /** Every product row of the activity has its document. */
  lemma RowHasDoc(tables: Tables, activity: int, tag: Option<int>, picked: seq<nat>, docs: seq<Doc>, id: int)
    returns (k: nat)
    requires Positions(tables.products, activity, None, picked) && DocsAt(tables, activity, tag, picked, docs)
    requires HasProduct(tables.products, activity, id)
    ensures k < |docs| && docs[k].id == id
  {
    hide LastTime, ListsMaterials;
    var i: nat :| i < |tables.products| && tables.products[i].activityID == activity && tables.products[i].typeID == id;
    PositionIsPicked(tables.products, activity, picked, i);
    k :| 0 <= k < |picked| && picked[k] == i;
  }

  lemma ManufacturingAt(tables: Tables, picked: seq<nat>, id: int)
    requires Positions(tables.products, 1, None, picked) && DocsAt(tables, 1, None, picked, ManufacturingDocs(tables))
    requires Added(map[], ManufacturingDocs(tables)).Some?
    ensures var m := Added(map[], ManufacturingDocs(tables)).value;
      && (id in m <==> HasProduct(tables.products, 1, id))
      && (id in m ==> HoldsProduct(tables, 1, None, id, m[id]))
  {
    hide Added, DistinctIds, Positions, DocsAt, DocFor, HasProduct, ManufacturingDocs;
    var docs := ManufacturingDocs(tables);
    var m := Added(map[], docs).value;
    AddedIds(docs, id);
    if HasProduct(tables.products, 1, id) {
      var k := RowHasDoc(tables, 1, None, picked, docs, id);
    }
    if id in m {
      var k: nat :| k < |docs| && docs[k].id == id;
      DocHasRow(tables, 1, None, picked, docs, k);
      AddedAt(map[], docs, k);
      IsAProduct(tables.products, 1, id, picked[k]);
    }
  }

  lemma AddedIds(docs: seq<Doc>, id: int)
    requires Added(map[], docs).Some?
    ensures id in Added(map[], docs).value <==> exists i :: 0 <= i < |docs| && docs[i].id == id
  {
    AddedExactlyWhen(map[], docs);
  }

  lemma ManufacturingAdded(tables: Tables)
    requires Added(map[], ManufacturingDocs(tables)).Some?
    ensures HoldsManufacturing(tables, Added(map[], ManufacturingDocs(tables)).value)
  {
    hide Added, Positions, DocsAt, HasProduct, HoldsProduct;
    var picked := DocsPicked(tables, 1, None);
    forall id
      ensures var m := Added(map[], ManufacturingDocs(tables)).value;
        && (id in m <==> HasProduct(tables.products, 1, id))
        && (id in m ==> HoldsProduct(tables, 1, None, id, m[id]))
    {
      ManufacturingAt(tables, picked, id);
    }
  }

  lemma IsAProduct(rows: seq<RawRow>, activity: int, id: int, i: nat)
    requires i < |rows| && IsRowOf(rows[i], activity, id)
    ensures HasProduct(rows, activity, id)
  {
  }

  // 0008

  /** The last update of an id is one of the last 500 documents that list it. */
  lemma {:induction false} LastInBatch(finish: Finish, docs: seq<Doc>, n: nat, id: int) returns (k: nat)
    requires InSomeOrder(finish) && Lists(docs, id)
    ensures k < |docs| && docs[k].id == id && LastWith(Finished(finish, docs, n), id) == Some(docs[k])
    ensures forall l :: k < l < |docs| && docs[l].id == id ==> l / 500 == k / 500
    decreases |docs|
  {
    hide InSomeOrder, LastWith, Lists;
    var size := BatchSize(docs);
    var batch, rest := docs[..size], docs[size..];
    ListedInPart(docs, size, id);
    LastWithInParts(finish(n, batch), Finished(finish, rest, n + 1), id);
    if Lists(rest, id) {
      var j := LastInBatch(finish, rest, n + 1, id);
      assert size == 500;
      k := j + 500;
      LaterPart(docs, j, id);
    } else {
      NotInRest(finish, rest, n + 1, id);
      LastOfBatch(finish, batch, n, id);
      var last := LastWith(finish(n, batch), id).value;
      k :| 0 <= k < |batch| && batch[k] == last;
      forall l | k < l < |docs| && docs[l].id == id
        ensures l / 500 == k / 500
      {
        if size <= l {
          ListedLater(docs, size, l);
        }
      }
    }
  }

  lemma ListedInPart(docs: seq<Doc>, size: nat, id: int)
    requires size <= |docs| && Lists(docs, id)
    ensures docs != [] && (Lists(docs[..size], id) || Lists(docs[size..], id))
  {
    assert docs == docs[..size] + docs[size..];
  }

  lemma LaterPart(docs: seq<Doc>, j: nat, id: int)
    requires 500 <= |docs| && j < |docs| - 500
    requires forall l :: j < l < |docs[500..]| && docs[500..][l].id == id ==> l / 500 == j / 500
    ensures docs[j + 500] == docs[500..][j]
    ensures forall l :: j + 500 < l < |docs| && docs[l].id == id ==> l / 500 == (j + 500) / 500
  {
    forall l | j + 500 < l < |docs| && docs[l].id == id
      ensures l / 500 == (j + 500) / 500
    {
      assert docs[500..][l - 500] == docs[l];
    }
  }

  lemma ListedLater(docs: seq<Doc>, size: nat, l: nat)
    requires size <= l < |docs|
    ensures Lists(docs[size..], docs[l].id)
  {
    assert docs[size..][l - size] == docs[l];
  }

  lemma FillIsDefault(doc: Doc)
    ensures Defaulted(doc, FillDoc(doc))
  {
  }

  lemma ReactionsAddedHere(tables: Tables, finish: Finish, before: map<int, Doc>, id: int)
    requires InSomeOrder(finish)
    ensures ReactionsAddedAt(tables, before, Filled(Upserted(before, Finished(finish, ReactionDocs(tables), 0))), id)
  {
    hide InSomeOrder, LastWith, Upserted, Finished, Positions, DocsAt, DocFor, HasProduct, JoinedDocs, FillDoc;
    var docs := ReactionDocs(tables);
    var order := Finished(finish, docs, 0);
    var picked := DocsPicked(tables, 11, Some(11));
    FinishedIsAll(finish, docs, 0);
    Reordered(order, docs);
    LastWithIsOne(order, id);
    UpsertedAt(before, order, id);
    if HasProduct(tables.products, 11, id) {
      var j := RowHasDoc(tables, 11, Some(11), picked, docs, id);
      assert docs[j] in docs;
      var k := LastInBatch(finish, docs, 0, id);
      ReactionIsAt(tables, docs, picked, k, id);
      ReactionsTagged(tables, tables.products, docs[k]);
      assert ReactionAt(tables, id, docs[k], picked, k);
    } else {
      if Lists(docs, id) {
        var doc :| doc in docs && doc.id == id;
        var k: nat :| k < |docs| && docs[k] == doc;
        DocHasRow(tables, 11, Some(11), picked, docs, k);
        IsAProduct(tables.products, 11, id, picked[k]);
      }
      if id in before {
        FillIsDefault(before[id]);
      }
    }
  }

  lemma ReactionIsAt(tables: Tables, docs: seq<Doc>, picked: seq<nat>, k: nat, id: int)
    requires Positions(tables.products, 11, None, picked) && DocsAt(tables, 11, Some(11), picked, docs)
    requires k < |docs| && docs[k].id == id
    requires forall l :: k < l < |docs| && docs[l].id == id ==> l / 500 == k / 500
    ensures ReactionAt(tables, id, docs[k], picked, k)
  {
    hide LastTime, ListsMaterials;
    DocHasRow(tables, 11, Some(11), picked, docs, k);
    forall l | k < l < |picked| && picked[l] < |tables.products| && tables.products[picked[l]].typeID == id
      ensures l / 500 == k / 500
    {
      DocHasRow(tables, 11, Some(11), picked, docs, l);
    }
  }

  /** 0008 does what it should, in whatever order its updates finish. */
  lemma ReactionsAreAdded(tables: Tables, finish: Finish, before: map<int, Doc>)
    requires InSomeOrder(finish)
    ensures ReactionsAdded(tables, before, Filled(Upserted(before, Finished(finish, ReactionDocs(tables), 0))))
  {
    hide InSomeOrder, Filled, Upserted, Finished, ReactionDocs, ReactionsAddedAt;
    forall id
      ensures ReactionsAddedAt(tables, before, Filled(Upserted(before, Finished(finish, ReactionDocs(tables), 0))), id)
    {
      ReactionsAddedHere(tables, finish, before, id);
    }
  }

  // The whole

  lemma DefaultedIsTagged(tables: Tables, id: int, before: Doc, after: Doc)
    requires HoldsProduct(tables, 1, None, id, before) && Defaulted(before, after)
    ensures HoldsProduct(tables, 1, Some(1), id, after)
  {
    hide LastTime, ListsMaterials;
    var i :| 0 <= i < |tables.products| && IsRowOf(tables.products[i], 1, id) &&
             DocFor(tables, 1, None, tables.products[i], before);
    assert DocFor(tables, 1, Some(1), tables.products[i], after);
  }

  lemma BothActivities(tables: Tables, base: map<int, Doc>, m: map<int, Doc>)
    requires HoldsManufacturing(tables, base) && ReactionsAdded(tables, base, m)
    ensures HoldsBlueprints(tables, m)
  {
    hide HasProduct, HoldsProduct, HoldsReaction, Defaulted;
    forall id
      ensures HoldsBlueprintAt(tables, m, id)
    {
      assert ReactionsAddedAt(tables, base, m, id);
      if !HasProduct(tables.products, 11, id) && id in m {
        DefaultedIsTagged(tables, id, base[id], m[id]);
      }
    }
  }

  /** After any history, whatever a complete run ends in holds the files in the raw tables, one document per type
      row, and for each blueprint its reaction or else its manufacturing product, with the time and the materials of
      that activity; and the records of all migrations and imported tables. */
  lemma CompletedContents(files: Files, states: seq<Db>, db: Db)
    requires History(files, states) && MayEnd(files, states[|states| - 1], Some(db))
    ensures NothingTwice(files)
    ensures HoldsFiles(files, db.tables)
    ensures HoldsTypes(db.tables.types, db.sdeTypes)
    ensures HoldsBlueprints(db.tables, db.sdeBlueprints)
    ensures forall id :: id in db.records <==> id.Whole? || (id.Step? && id.table in files)
  {
    hide MayEnd, InSomeOrder, WithReactions, HoldsTypes, HoldsBlueprints, ReactionsAdded, HoldsManufacturing, Added;
    ImportableMeansNothingTwice(files);
    CrashConvergence(files, states, Some(db));
    CrashConvergence(files, [EMPTY], Some(db));
    assert MayEnd(files, EMPTY, Some(db));
    var finish :| InSomeOrder(finish) && db == Final(files, finish);
    FinalContents(files, finish);
  }

  /** A run that raises does so over a dump with duplicates. */
  lemma RaisesOverDuplicates(files: Files, states: seq<Db>)
    requires History(files, states) && MayEnd(files, states[|states| - 1], None)
    ensures !NothingTwice(files)
  {
    hide MayEnd;
    ImportableMeansNothingTwice(files);
    CrashConvergence(files, states, None);
  }

  lemma FinalContents(files: Files, finish: Finish)
    requires Importable(files) && InSomeOrder(finish)
    ensures var db := Final(files, finish);
      && HoldsFiles(files, db.tables)
      && HoldsTypes(db.tables.types, db.sdeTypes)
      && HoldsBlueprints(db.tables, db.sdeBlueprints)
      && forall id :: id in db.records <==> id.Whole? || (id.Step? && id.table in files)
  {
    hide InSomeOrder, HoldsTypes, HoldsBlueprints, ReactionsAdded, HoldsManufacturing, Added, DistinctTypes;
    hide DistinctProducts, Filled, Upserted, Finished, ManufacturingDocs, ReactionDocs, TypeDocs;
    var tables := SourceTables(files);
    var base := BlueprintsResult(files).value;
    assert TypesResult(files) == Added(map[], TypeDocs(tables.types));
    assert BlueprintsResult(files) == Added(map[], ManufacturingDocs(tables));
    TypesAdded(tables.types);
    ManufacturingAdded(tables);
    ReactionsAreAdded(tables, finish, base);
    BothActivities(tables, base, WithReactions(files, finish, base));
    forall id
      ensures id in AllRecords(files) <==> id.Whole? || (id.Step? && id.table in files)
    {
      match id
      case Whole(m) =>
        match m {
          case ImportRawTables =>
          case BuildLookups =>
          case AddReactions =>
        }
      case Step(t) =>
    }
  }
}
