/** The three modelled migrations absorb their partial effects, so the runner's general result applies
    to them; here without the records of the migrations themselves, which the runner keeps. */
module MigrationListInstance {
  import opened Optional
  import opened SdeData
  import opened MigrationState
  import opened MigrationConvergence
  import L = MigrationList

  ghost predicate MayEndAs(files: Files, m: Migration, db: Db, end: Option<Db>) {
    exists finish :: InSomeOrder(finish) && ExecAll(db, Script(files, finish, db, m)) == end
  }

  ghost predicate MayDieAs(files: Files, m: Migration, db: Db, db': Db) {
    exists finish :: InSomeOrder(finish) && Crashed(db, Script(files, finish, db, m), db')
  }

  ghost function ScriptOf(files: Files, m: Migration): L.Script<Db> {
    L.Script((db: Db, end: Option<Db>) => MayEndAs(files, m, db, end), (db: Db, db': Db) => MayDieAs(files, m, db, db'))
  }

  ghost function Modelled(files: Files): seq<L.Script<Db>> {
    [ScriptOf(files, ImportRawTables), ScriptOf(files, BuildLookups), ScriptOf(files, AddReactions)]
  }

  ghost predicate AllImported(files: Files, db: Db) {
    Early(files, db) && forall t :: t in files ==> Step(t) in db.records
  }

  ghost predicate LookupsBuilt(files: Files, db: Db) {
    && AllImported(files, db) && Importable(files)
    && db.sdeTypes == TypesResult(files).value
    && BuiltFrom(files, db.sdeBlueprints)
  }

  ghost function Stages(files: Files): (nat, Db) -> bool {
    (k: nat, db: Db) =>
      if k == 0 then Early(files, db)
      else if k == 1 then AllImported(files, db)
      else LookupsBuilt(files, db)
  }

  lemma StagesAt(files: Files, db: Db)
    ensures Stages(files)(0, db) == Early(files, db)
    ensures Stages(files)(1, db) == AllImported(files, db)
    ensures Stages(files)(2, db) == LookupsBuilt(files, db) == Stages(files)(3, db)
  {
    hide Early, AllImported, LookupsBuilt;
  }

  ghost predicate SameOutcomes(files: Files, m: Migration, a: Db, b: Db) {
    forall end :: MayEndAs(files, m, a, end) <==> MayEndAs(files, m, b, end)
  }

  lemma Wrapped(files: Files, m: Migration, k: nat, db: Db)
    requires forall db' :: MayDieAs(files, m, db, db') || MayEndAs(files, m, db, Some(db')) ==>
                             Stages(files)(k, db') && SameOutcomes(files, m, db', db)
    requires forall db' :: MayEndAs(files, m, db, Some(db')) ==> Stages(files)(k + 1, db')
    requires exists end :: MayEndAs(files, m, db, end)
    ensures L.AbsorbsAt(ScriptOf(files, m), Stages(files), k, db)
  {
    hide MayEndAs, MayDieAs, Stages;
    var script := ScriptOf(files, m);
    assert forall a, end :: script.ends(a, end) <==> MayEndAs(files, m, a, end);
    assert forall a, b :: script.dies(a, b) <==> MayDieAs(files, m, a, b);
    var end :| MayEndAs(files, m, db, end);
    assert script.ends(db, end);
  }

  lemma AllImportedIsSource(files: Files, db: Db)
    requires AllImported(files, db)
    ensures db.tables == SourceTables(files)
    ensures db.records == set t | t in files :: Step(t)
  {
    var a, b := db.tables, SourceTables(files);
    assert a.Rows(Activity) == b.Rows(Activity) && a.Rows(Materials) == b.Rows(Materials);
    assert a.Rows(Products) == b.Rows(Products) && a.Rows(Types) == b.Rows(Types);
    var steps := set t | t in files :: Step(t);
    forall id
      ensures id in db.records <==> id in steps
    {
      match id
      case Whole(m) =>
      case Step(t) => assert id in steps <==> t in files;
    }
  }

  lemma StaysImported(files: Files, db: Db, db': Db)
    requires AllImported(files, db) && db'.tables == db.tables && db'.records == db.records
    ensures AllImported(files, db')
  {
  }

  predicate TableWrite(w: Write) {
    w.DeleteRows? || w.InsertRows? || w.RecordDone?
  }

  /** Writes to the raw tables and the records leave the lookup collections alone. */
  lemma {:induction false} TablesOnly(db: Db, script: seq<Write>, db': Db)
    requires forall w :: w in script ==> TableWrite(w)
    requires Crashed(db, script, db')
    ensures db'.sdeTypes == db.sdeTypes && db'.sdeBlueprints == db.sdeBlueprints
    decreases |script|
  {
    if script != [] {
      assert script[0] in script;
      TableWriteOnly(db, script[0], db');
    }
    if script != [] && db' != db && !Partly(db, script[0], db') {
      TablesOnly(Exec(db, script[0]).value, script[1..], db');
    }
  }

  lemma TableWriteOnly(db: Db, w: Write, db': Db)
    requires TableWrite(w)
    ensures Partly(db, w, db') ==> db'.sdeTypes == db.sdeTypes && db'.sdeBlueprints == db.sdeBlueprints
    ensures Exec(db, w).Some? ==>
              Exec(db, w).value.sdeTypes == db.sdeTypes && Exec(db, w).value.sdeBlueprints == db.sdeBlueprints
  {
  }

  lemma {:induction false} ImportWritesTables(files: Files, records: set<RecordId>, tables: seq<Table>)
    ensures forall w :: w in ImportScript(files, records, tables) ==> TableWrite(w)
  {
    if tables != [] {
      ImportWritesTables(files, records, tables[1..]);
    }
  }

  /** Wherever an import starts, it ends with the tables of the dump. */
  lemma ImportEnds(files: Files, finish: Finish, db: Db)
    requires Early(files, db)
    ensures ExecAll(db, Script(files, finish, db, ImportRawTables)) == Some(ImportedDump(files, db))
    ensures AllImported(files, ImportedDump(files, db))
  {
    hide ExecAll, Crashed, Early;
    ImportTables(files, db, db.records, TABLES, db);
    AllTablesListed();
    AllImportedIsSource(files, ExecAll(db, Script(files, finish, db, ImportRawTables)).value);
  }

  function ImportedDump(files: Files, db: Db): Db {
    Db(SourceTables(files), db.sdeTypes, db.sdeBlueprints, set t | t in files :: Step(t))
  }

  lemma ImportOutcome(files: Files, db: Db, end: Option<Db>)
    requires Early(files, db)
    ensures MayEndAs(files, ImportRawTables, db, end) <==> end == Some(ImportedDump(files, db))
  {
    hide ExecAll, Early, AllImported, Script, InSomeOrder, ImportedDump;
    OrdersExist();
    ImportEnds(files, AsIssued(), db);
    if MayEndAs(files, ImportRawTables, db, end) {
      var finish :| InSomeOrder(finish) && ExecAll(db, Script(files, finish, db, ImportRawTables)) == end;
      ImportEnds(files, finish, db);
    }
  }

  lemma ImportDies(files: Files, db: Db, db': Db)
    requires Early(files, db) && MayDieAs(files, ImportRawTables, db, db')
    ensures Early(files, db') && ImportedDump(files, db') == ImportedDump(files, db)
  {
    hide ExecAll, Crashed, Early, ImportScript, InSomeOrder;
    ImportTables(files, db, db.records, TABLES, db');
    ImportWritesTables(files, db.records, TABLES);
    TablesOnly(db, ImportScript(files, db.records, TABLES), db');
  }

  lemma ImportAbsorbs(files: Files, db: Db)
    requires Early(files, db)
    ensures L.AbsorbsAt(ScriptOf(files, ImportRawTables), Stages(files), 0, db)
  {
    hide MayEndAs, MayDieAs, Early, AllImported, LookupsBuilt, Stages;
    var imported := ImportedDump(files, db);
    ImportEnds(files, AsIssued(), db);
    EarlyWhenImported(files, imported);
    StagesAt(files, imported);
    ImportOutcome(files, db, Some(imported));
    forall db' | MayDieAs(files, ImportRawTables, db, db') || MayEndAs(files, ImportRawTables, db, Some(db'))
      ensures Stages(files)(0, db') && SameOutcomes(files, ImportRawTables, db', db)
    {
      ImportOutcome(files, db, Some(db'));
      if MayDieAs(files, ImportRawTables, db, db') {
        ImportDies(files, db, db');
      }
      StagesAt(files, db');
      forall end
        ensures MayEndAs(files, ImportRawTables, db', end) <==> MayEndAs(files, ImportRawTables, db, end)
      {
        ImportOutcome(files, db, end);
        ImportOutcome(files, db', end);
      }
    }
    forall db' | MayEndAs(files, ImportRawTables, db, Some(db'))
      ensures Stages(files)(1, db')
    {
      ImportOutcome(files, db, Some(db'));
    }
    Wrapped(files, ImportRawTables, 0, db);
  }

  lemma EarlyWhenImported(files: Files, db: Db)
    requires AllImported(files, db)
    ensures Early(files, db)
  {
  }

  function LookupsOf(files: Files, db: Db): Option<Db> {
    if Importable(files)
    then Some(db.(sdeTypes := TypesResult(files).value, sdeBlueprints := BlueprintsResult(files).value))
    else None
  }

  lemma LookupsOutcome(files: Files, db: Db, end: Option<Db>)
    requires AllImported(files, db)
    ensures MayEndAs(files, BuildLookups, db, end) <==> end == LookupsOf(files, db)
  {
    hide ExecAll, AllImported, Script, InSomeOrder, LookupsOf;
    OrdersExist();
    AllImportedIsSource(files, db);
    LookupsReached(files, AsIssued(), db);
    if MayEndAs(files, BuildLookups, db, end) {
      var finish :| InSomeOrder(finish) && ExecAll(db, Script(files, finish, db, BuildLookups)) == end;
      LookupsReached(files, finish, db);
    }
  }

  lemma LookupsReached(files: Files, finish: Finish, db: Db)
    requires db.tables == SourceTables(files)
    ensures ExecAll(db, Script(files, finish, db, BuildLookups)) == LookupsOf(files, db)
  {
    hide ExecAll, Script, SourceTables, DistinctTypes, DistinctProducts;
    LookupResult(files, finish, db);
  }

  lemma LookupsDie(files: Files, db: Db, db': Db)
    requires MayDieAs(files, BuildLookups, db, db')
    ensures db' == db.(sdeTypes := db'.sdeTypes, sdeBlueprints := db'.sdeBlueprints)
  {
    hide Crashed, InSomeOrder;
    DocsOnly(db, LookupScript(db.tables), db');
  }

  lemma LookupsAbsorb(files: Files, db: Db)
    requires AllImported(files, db)
    ensures L.AbsorbsAt(ScriptOf(files, BuildLookups), Stages(files), 1, db)
  {
    hide MayEndAs, MayDieAs, AllImported, Stages, DistinctTypes, DistinctProducts, SourceTables, ReactionDocs;
    LookupsOutcome(files, db, LookupsOf(files, db));
    forall db' | MayDieAs(files, BuildLookups, db, db') || MayEndAs(files, BuildLookups, db, Some(db'))
      ensures Stages(files)(1, db') && SameOutcomes(files, BuildLookups, db', db)
    {
      LookupsOutcome(files, db, Some(db'));
      if MayDieAs(files, BuildLookups, db, db') {
        LookupsDie(files, db, db');
      }
      StaysImported(files, db, db');
      StagesAt(files, db');
      forall end
        ensures MayEndAs(files, BuildLookups, db', end) <==> MayEndAs(files, BuildLookups, db, end)
      {
        LookupsOutcome(files, db, end);
        LookupsOutcome(files, db', end);
      }
    }
    forall db' | MayEndAs(files, BuildLookups, db, Some(db'))
      ensures Stages(files)(2, db')
    {
      LookupsOutcome(files, db, Some(db'));
      StaysImported(files, db, db');
      SameAsItself(ReactionDocs(SourceTables(files)), db'.sdeBlueprints);
      StagesAt(files, db');
    }
    Wrapped(files, BuildLookups, 1, db);
  }

  /** The ends of 0008: one for each order of its updates. */
  ghost predicate ReactionsOf(files: Files, db: Db, end: Option<Db>) {
    exists finish :: InSomeOrder(finish) &&
                     end == Some(db.(sdeBlueprints := WithReactions(files, finish, db.sdeBlueprints)))
  }

  lemma ReactionsOutcome(files: Files, db: Db, end: Option<Db>)
    requires AllImported(files, db)
    ensures MayEndAs(files, AddReactions, db, end) <==> ReactionsOf(files, db, end)
  {
    hide ExecAll, AllImported, Script, InSomeOrder, WithReactions;
    AllImportedIsSource(files, db);
    if MayEndAs(files, AddReactions, db, end) {
      var finish :| InSomeOrder(finish) && ExecAll(db, Script(files, finish, db, AddReactions)) == end;
      ReactionWrites(files, finish, db);
    }
    if ReactionsOf(files, db, end) {
      var finish :| InSomeOrder(finish) &&
                    end == Some(db.(sdeBlueprints := WithReactions(files, finish, db.sdeBlueprints)));
      ReactionWrites(files, finish, db);
    }
  }

  lemma ReactionsLeave(files: Files, db: Db, db': Db)
    requires LookupsBuilt(files, db)
    requires MayDieAs(files, AddReactions, db, db') || MayEndAs(files, AddReactions, db, Some(db'))
    ensures db' == db.(sdeBlueprints := db'.sdeBlueprints)
    ensures SameBeyond(ReactionDocs(SourceTables(files)), db'.sdeBlueprints, db.sdeBlueprints)
    ensures LookupsBuilt(files, db')
  {
    hide ExecAll, Crashed, Script, InSomeOrder, WithReactions, ReactionDocs, SourceTables, SameBeyond, AllImported;
    hide DistinctTypes, DistinctProducts;
    AllImportedIsSource(files, db);
    var finish :| InSomeOrder(finish) && (|| Crashed(db, Script(files, finish, db, AddReactions), db')
                                          || ExecAll(db, Script(files, finish, db, AddReactions)) == Some(db'));
    ReactionsAbsorb(files, finish, db, db', finish);
    StillBuilt(files, db, db'.sdeBlueprints);
    StaysImported(files, db, db');
  }

  lemma SameReactionEnds(files: Files, db: Db, db': Db, end: Option<Db>)
    requires db' == db.(sdeBlueprints := db'.sdeBlueprints)
    requires SameBeyond(ReactionDocs(SourceTables(files)), db'.sdeBlueprints, db.sdeBlueprints)
    ensures ReactionsOf(files, db', end) <==> ReactionsOf(files, db, end)
  {
    hide SameBeyond, InSomeOrder, WithReactions, ReactionDocs, SourceTables;
    forall finish | InSomeOrder(finish)
      ensures WithReactions(files, finish, db'.sdeBlueprints) == WithReactions(files, finish, db.sdeBlueprints)
    {
      SameReactions(files, finish, db'.sdeBlueprints, db.sdeBlueprints);
    }
  }

  lemma ReactionsAbsorbAt(files: Files, db: Db)
    requires LookupsBuilt(files, db)
    ensures L.AbsorbsAt(ScriptOf(files, AddReactions), Stages(files), 2, db)
  {
    hide MayEndAs, MayDieAs, AllImported, Stages, ReactionsOf, SameBeyond, BuiltFrom, ReactionDocs, SourceTables;
    forall db' | MayDieAs(files, AddReactions, db, db') || MayEndAs(files, AddReactions, db, Some(db'))
      ensures Stages(files)(2, db') && Stages(files)(3, db') && SameOutcomes(files, AddReactions, db', db)
    {
      ReactionsLeave(files, db, db');
      StagesAt(files, db');
      forall end
        ensures MayEndAs(files, AddReactions, db', end) <==> MayEndAs(files, AddReactions, db, end)
      {
        ReactionsOutcome(files, db, end);
        ReactionsOutcome(files, db', end);
        SameReactionEnds(files, db, db', end);
      }
    }
    ReactionsEnd(files, db);
    Wrapped(files, AddReactions, 2, db);
  }

  lemma ReactionsEnd(files: Files, db: Db)
    requires AllImported(files, db)
    ensures exists end :: MayEndAs(files, AddReactions, db, end)
  {
    hide ExecAll, InSomeOrder, Script;
    OrdersExist();
    assert MayEndAs(files, AddReactions, db, ExecAll(db, Script(files, AsIssued(), db, AddReactions)));
  }

  lemma EmptyIsEarly(files: Files)
    ensures Early(files, EMPTY)
  {
  }

  lemma ImportHasOneEnd(files: Files)
    ensures L.OneEndAt(ScriptOf(files, ImportRawTables), Stages(files), 0)
  {
    hide MayEndAs, MayDieAs, Early, AllImported, LookupsBuilt, Stages, ImportedDump;
    forall db, a, b | Stages(files)(0, db) && MayEndAs(files, ImportRawTables, db, a) &&
                      MayEndAs(files, ImportRawTables, db, b)
      ensures a == b
    {
      StagesAt(files, db);
      ImportOutcome(files, db, a);
      ImportOutcome(files, db, b);
    }
  }

  lemma LookupsHaveOneEnd(files: Files)
    ensures L.OneEndAt(ScriptOf(files, BuildLookups), Stages(files), 1)
  {
    hide MayEndAs, MayDieAs, Early, AllImported, LookupsBuilt, Stages, LookupsOf;
    forall db, a, b | Stages(files)(1, db) && MayEndAs(files, BuildLookups, db, a) &&
                      MayEndAs(files, BuildLookups, db, b)
      ensures a == b
    {
      StagesAt(files, db);
      LookupsOutcome(files, db, a);
      LookupsOutcome(files, db, b);
    }
  }

  /** The general result applies to the modelled migrations, from an empty database on; all but the last have one
      end only. */
  lemma ModelledMigrationsAbsorb(files: Files)
    ensures L.Absorbing(Modelled(files), Stages(files)) && Stages(files)(0, EMPTY)
    ensures forall k: nat :: k < 2 ==> L.OneEndAt(Modelled(files)[k], Stages(files), k)
  {
    hide L.AbsorbsAt, L.OneEndAt, ScriptOf, Stages, Early;
    StagesAt(files, EMPTY);
    EmptyIsEarly(files);
    ImportHasOneEnd(files);
    LookupsHaveOneEnd(files);
    forall k: nat, db | k < 3 && Stages(files)(k, db)
      ensures L.AbsorbsAt(Modelled(files)[k], Stages(files), k, db)
    {
      StagesAt(files, db);
      if k == 0 {
        ImportAbsorbs(files, db);
      } else if k == 1 {
        LookupsAbsorb(files, db);
      } else {
        ReactionsAbsorbAt(files, db);
      }
    }
  }
}
