/** Crash convergence: however often the runner dies, the next complete run has the ends that one
    uninterrupted run on an empty database may have. */
module MigrationConvergence {
  import opened Optional
  import opened SdeData
  import opened MigrationState
  import opened ReactionOrder

  // Scripts in two parts

  lemma {:induction false} CrashedInParts(db: Db, a: seq<Write>, b: seq<Write>, db': Db)
    requires Crashed(db, a + b, db')
    ensures Crashed(db, a, db') || (ExecAll(db, a).Some? && Crashed(ExecAll(db, a).value, b, db'))
    decreases |a|
  {
    hide Exec;
    hide Partly;
    if a == [] {
      assert a + b == b;
    } else {
      assert (a + b)[1..] == a[1..] + b;
      var next := Exec(db, a[0]);
      if next.Some? && Crashed(next.value, a[1..] + b, db') {
        CrashedInParts(next.value, a[1..], b, db');
      }
    }
  }

  lemma {:induction false} ExecAllInParts(db: Db, a: seq<Write>, b: seq<Write>)
    ensures ExecAll(db, a + b) == if ExecAll(db, a).None? then None else ExecAll(ExecAll(db, a).value, b)
    decreases |a|
  {
    hide Exec;
    if a == [] {
      assert a + b == b;
    } else {
      assert (a + b)[1..] == a[1..] + b;
      if Exec(db, a[0]).Some? {
        ExecAllInParts(Exec(db, a[0]).value, a[1..], b);
      }
    }
  }

  /** Recording is the last write: a crash either precedes it or follows it. */
  lemma CrashedBeforeRecord(db: Db, script: seq<Write>, id: RecordId, db': Db)
    requires Crashed(db, script + [RecordDone(id)], db')
    ensures || Crashed(db, script, db')
            || (ExecAll(db, script).Some? && db' == ExecAll(db, script).value)
            || (ExecAll(db, script).Some? &&
                db' == ExecAll(db, script).value.(records := ExecAll(db, script).value.records + {id}))
  {
    CrashedInParts(db, script, [RecordDone(id)], db');
    if ExecAll(db, script).Some? {
      CrashedRecord(ExecAll(db, script).value, id, db');
    }
  }

  lemma CrashedRecord(db: Db, id: RecordId, db': Db)
    ensures Crashed(db, [RecordDone(id)], db') ==> db' == db || db' == db.(records := db.records + {id})
    ensures ExecAll(db, [RecordDone(id)]) == Some(db.(records := db.records + {id}))
  {
    assert [RecordDone(id)] + [] == [RecordDone(id)];
    CrashedHead(db, RecordDone(id), [], db');
  }

  lemma CrashedHead(db: Db, w: Write, rest: seq<Write>, db': Db)
    ensures Crashed(db, [w] + rest, db') ==>
              db' == db || Partly(db, w, db') || (Exec(db, w).Some? && Crashed(Exec(db, w).value, rest, db'))
    ensures ExecAll(db, [w] + rest) == if Exec(db, w).None? then None else ExecAll(Exec(db, w).value, rest)
  {
    assert ([w] + rest)[1..] == rest;
  }

  // 0001: importing the tables

  /** No migration is recorded yet. */
  ghost predicate Early(files: Files, db: Db) {
    ImportInv(files, db) && forall m :: Whole(m) !in db.records
  }

  lemma UnrecordedTableIsFree(files: Files, db: Db, t: Table, rows: seq<RawRow>)
    requires Early(files, db) && t in files && Step(t) !in db.records
    ensures Early(files, db.(tables := db.tables.With(t, rows)))
  {
  }

  function Imported(db: Db, t: Table, rows: seq<RawRow>): Db {
    db.(tables := db.tables.With(t, rows), records := db.records + {Step(t)})
  }

  lemma TableWrites(db: Db, t: Table, rows: seq<RawRow>)
    ensures Exec(db, DeleteRows(t)) == Some(db.(tables := db.tables.With(t, [])))
    ensures Exec(db.(tables := db.tables.With(t, [])), InsertRows(t, rows))
         == Some(db.(tables := db.tables.With(t, rows)))
  {
    assert [] + rows == rows;
  }

  lemma RecordedTable(files: Files, db: Db, t: Table)
    requires Early(files, db) && t in files && db.tables.Rows(t) == files[t]
    ensures Early(files, db.(records := db.records + {Step(t)}))
  {
  }

  /** The three writes of one table, complete and crashed. */
  lemma OneTable(files: Files, db: Db, t: Table, rest: seq<Write>, db': Db)
    requires Early(files, db) && t in files && Step(t) !in db.records
    ensures Early(files, Imported(db, t, files[t]))
    ensures ExecAll(db, TableScript(t, files[t]) + rest) == ExecAll(Imported(db, t, files[t]), rest)
    ensures Crashed(db, TableScript(t, files[t]) + rest, db') ==>
              Early(files, db') || Crashed(Imported(db, t, files[t]), rest, db')
  {
    hide Early;
    hide Partly;
    hide Crashed;
    hide ExecAll;
    var first, second, third := DeleteRows(t), InsertRows(t, files[t]), RecordDone(Step(t));
    var emptied := db.(tables := db.tables.With(t, []));
    var filled := db.(tables := db.tables.With(t, files[t]));
    TableWrites(db, t, files[t]);
    assert TableScript(t, files[t]) + rest == [first] + ([second] + ([third] + rest));
    CrashedHead(db, first, [second] + ([third] + rest), db');
    CrashedHead(emptied, second, [third] + rest, db');
    CrashedHead(filled, third, rest, db');
    UnrecordedTableIsFree(files, db, t, []);
    UnrecordedTableIsFree(files, db, t, files[t]);
    UnrecordedTableIsFree(files, db, t, db'.tables.Rows(t));
    RecordedTable(files, filled, t);
    PartlyTable(db, t, files[t], db');
    PartlyTable(emptied, t, files[t], db');
    SetTwice(db, t, [], db'.tables.Rows(t));
    PartlyRecord(filled, Step(t), db');
  }

  lemma PartlyRecord(db: Db, id: RecordId, db': Db)
    ensures Partly(db, RecordDone(id), db') ==> db' == db
  {
  }

  lemma PartlyTable(db: Db, t: Table, rows: seq<RawRow>, db': Db)
    ensures Partly(db, DeleteRows(t), db') || Partly(db, InsertRows(t, rows), db') ==>
              db' == db.(tables := db.tables.With(t, db'.tables.Rows(t)))
  {
  }

  lemma SetTwice(db: Db, t: Table, first: seq<RawRow>, rows: seq<RawRow>)
    ensures db.tables.With(t, first).With(t, rows) == db.tables.With(t, rows)
  {
  }

  ghost predicate Distinct(tables: seq<Table>) {
    forall i, j :: 0 <= i < j < |tables| ==> tables[i] != tables[j]
  }

  /** The tables still to import were not recorded when the script was computed, nor since. */
  ghost predicate StillPending(files: Files, db: Db, records: set<RecordId>, tables: seq<Table>) {
    && Distinct(tables)
    && forall t :: t in tables && t in files ==> (Step(t) in db.records <==> Step(t) in records)
  }

  lemma {:induction false} ImportTables(files: Files, db: Db, records: set<RecordId>, tables: seq<Table>, db': Db)
    requires Early(files, db) && StillPending(files, db, records, tables)
    ensures Crashed(db, ImportScript(files, records, tables), db') ==> Early(files, db')
    ensures var end := ExecAll(db, ImportScript(files, records, tables));
      && end.Some? && Early(files, end.value)
      && end.value.records >= db.records
      && (forall t :: t in tables && t in files ==> Step(t) in end.value.records)
      && end.value.sdeTypes == db.sdeTypes && end.value.sdeBlueprints == db.sdeBlueprints
    decreases |tables|
  {
    hide Early;
    hide TableScript;
    if tables != [] {
      var t, rest := tables[0], tables[1..];
      assert forall u :: u in rest ==> u in tables && u != t;
      if t in files && Step(t) !in records {
        var next := Imported(db, t, files[t]);
        OneTable(files, db, t, ImportScript(files, records, rest), db');
        ImportTables(files, next, records, rest, db');
      } else {
        ImportTables(files, db, records, rest, db');
      }
    }
  }

  lemma ImportMigration(files: Files, finish: Finish, db: Db, db': Db)
    requires Early(files, db)
    ensures Crashed(db, FullScript(files, finish, db, ImportRawTables), db') ==> Inv(files, db')
    ensures var end := ExecAll(db, FullScript(files, finish, db, ImportRawTables));
      && end.Some? && Inv(files, end.value)
      && end.value.records >= db.records
      && forall m :: Whole(m) in end.value.records <==> m == ImportRawTables
  {
    hide ExecAll;
    hide Crashed;
    var script := ImportScript(files, db.records, TABLES);
    ImportTables(files, db, db.records, TABLES, db');
    ExecAllInParts(db, script, [RecordDone(Whole(ImportRawTables))]);
    var end := ExecAll(db, script).value;
    CrashedRecord(end, Whole(ImportRawTables), db');
    AllTablesListed();
    if Crashed(db, FullScript(files, finish, db, ImportRawTables), db') {
      CrashedBeforeRecord(db, script, Whole(ImportRawTables), db');
    }
  }

  lemma AllTablesListed()
    ensures forall t :: t in TABLES
  {
    forall t
      ensures t in TABLES
    {
      match t
      case Activity => assert TABLES[0] == t;
      case Materials => assert TABLES[1] == t;
      case Products => assert TABLES[2] == t;
      case Types => assert TABLES[3] == t;
    }
  }

  // 0002: the lookup collections

  lemma ImportedIsSource(files: Files, db: Db)
    requires ImportInv(files, db) && Whole(ImportRawTables) in db.records
    ensures db.tables == SourceTables(files)
  {
    var a, b := db.tables, SourceTables(files);
    assert a.Rows(Activity) == b.Rows(Activity) && a.Rows(Materials) == b.Rows(Materials);
    assert a.Rows(Products) == b.Rows(Products) && a.Rows(Types) == b.Rows(Types);
  }

  predicate DocsWrite(w: Write) {
    w.DeleteDocs? || w.InsertDocs? || w.UpsertDocs? || w.FillActivity?
  }

  /** Writes to the lookup collections leave the raw tables and the records alone. */
  lemma {:induction false} DocsOnly(db: Db, script: seq<Write>, db': Db)
    requires forall w :: w in script ==> DocsWrite(w)
    requires Crashed(db, script, db')
    ensures db'.tables == db.tables && db'.records == db.records
    decreases |script|
  {
    if script != [] {
      assert script[0] in script;
      DocsWriteOnly(db, script[0], db');
    }
    if script != [] && db' != db && !Partly(db, script[0], db') {
      DocsOnly(Exec(db, script[0]).value, script[1..], db');
    }
  }

  lemma DocsWriteOnly(db: Db, w: Write, db': Db)
    requires DocsWrite(w)
    ensures Partly(db, w, db') ==> db'.tables == db.tables && db'.records == db.records
    ensures Exec(db, w).Some? ==> Exec(db, w).value.tables == db.tables && Exec(db, w).value.records == db.records
  {
  }

  lemma LookupResult(files: Files, finish: Finish, db: Db)
    requires db.tables == SourceTables(files)
    ensures ExecAll(db, Script(files, finish, db, BuildLookups)) ==
            if Importable(files)
            then Some(db.(sdeTypes := TypesResult(files).value, sdeBlueprints := BlueprintsResult(files).value))
            else None
  {
    hide Added, ManufacturingDocs, TypeDocs, ExecAll, Crashed, Partly, DistinctTypes, DistinctProducts;
    assert TypesResult(files) == Added(map[], TypeDocs(db.tables.types));
    assert BlueprintsResult(files) == Added(map[], ManufacturingDocs(db.tables));
    var types, blueprints := TypeDocs(db.tables.types), ManufacturingDocs(db.tables);
    var a, b := DeleteDocs(SdeTypes), InsertDocs(SdeTypes, types);
    var c, d := DeleteDocs(SdeBlueprints), InsertDocs(SdeBlueprints, blueprints);
    var db1 := db.(sdeTypes := map[]);
    assert Script(files, finish, db, BuildLookups) == [a] + ([b] + ([c] + ([d] + [])));
    CrashedHead(db, a, [b] + ([c] + ([d] + [])), db);
    CrashedHead(db1, b, [c] + ([d] + []), db);
    if Added(map[], types).Some? {
      var db2 := db1.(sdeTypes := Added(map[], types).value);
      var db3 := db2.(sdeBlueprints := map[]);
      CrashedHead(db2, c, [d] + [], db);
      CrashedHead(db3, d, [], db);
      if Added(map[], blueprints).Some? {
        NothingLeft(db3.(sdeBlueprints := Added(map[], blueprints).value));
      }
    }
  }

  lemma NothingLeft(db: Db)
    ensures ExecAll(db, []) == Some(db)
  {
  }

  lemma LookupMigration(files: Files, finish: Finish, db: Db, db': Db)
    requires Inv(files, db) && Whole(ImportRawTables) in db.records && Whole(BuildLookups) !in db.records
    ensures Crashed(db, FullScript(files, finish, db, BuildLookups), db') ==> Inv(files, db')
    ensures var end := ExecAll(db, FullScript(files, finish, db, BuildLookups));
      && (end.Some? <==> Importable(files))
      && (end.Some? ==> Inv(files, end.value) &&
                        end.value.records == db.records + {Whole(BuildLookups)})
  {
    hide ExecAll;
    hide Crashed;
    hide WithReactions;
    hide Importable;
    hide Script;
    hide Exec;
    hide Partly;
    var script := Script(files, finish, db, BuildLookups);
    ImportedIsSource(files, db);
    LookupResult(files, finish, db);
    ExecAllInParts(db, script, [RecordDone(Whole(BuildLookups))]);
    if ExecAll(db, script).Some? {
      CrashedRecord(ExecAll(db, script).value, Whole(BuildLookups), db');
    }
    if Crashed(db, FullScript(files, finish, db, BuildLookups), db') {
      CrashedBeforeRecord(db, script, Whole(BuildLookups), db');
      if Crashed(db, script, db') {
        LookupCrash(files, finish, db, db');
      }
    }
  }

  lemma LookupCrash(files: Files, finish: Finish, db: Db, db': Db)
    requires Inv(files, db) && Whole(BuildLookups) !in db.records
    requires Crashed(db, Script(files, finish, db, BuildLookups), db')
    ensures Inv(files, db') && db'.records == db.records
  {
    hide Crashed;
    hide WithReactions;
    hide Importable;
    DocsOnly(db, Script(files, finish, db, BuildLookups), db');
  }

  // 0008: the reactions

  /** The writes of 0008: upserts of reaction documents, and the default activity. */
  ghost predicate ReactionWrite(docs: seq<Doc>, w: Write) {
    w.FillActivity? || (w.UpsertDocs? && forall doc :: doc in w.docs ==> doc in docs)
  }

  lemma {:induction false} BatchesWrite(finish: Finish, docs: seq<Doc>, k: nat, all: seq<Doc>)
    requires InSomeOrder(finish) && forall doc :: doc in docs ==> doc in all
    ensures forall w :: w in BatchWrites(finish, docs, k) ==> ReactionWrite(all, w)
    decreases |docs|
  {
    hide InSomeOrder;
    if docs != [] {
      var n := BatchSize(docs);
      BatchReordered(finish, docs[..n], k);
      assert forall doc :: doc in docs[..n] ==> doc in docs;
      assert forall doc :: doc in docs[n..] ==> doc in docs;
      BatchesWrite(finish, docs[n..], k + 1, all);
    }
  }

  lemma BatchReordered(finish: Finish, batch: seq<Doc>, k: nat)
    requires InSomeOrder(finish)
    ensures forall doc :: doc in finish(k, batch) <==> doc in batch
  {
    assert multiset(finish(k, batch)) == multiset(batch);
    Reordered(finish(k, batch), batch);
  }

  /** One write of 0008, done in any part, changes nothing that the whole of 0008 would not change again. */
  lemma ReactionWriteKeeps(docs: seq<Doc>, db: Db, w: Write, db': Db)
    requires ReactionWrite(docs, w)
    ensures Exec(db, w).Some?
    ensures Partly(db, w, db') || Exec(db, w) == Some(db') ==>
              db' == db.(sdeBlueprints := db'.sdeBlueprints) &&
              SameBeyond(docs, db'.sdeBlueprints, db.sdeBlueprints)
  {
    hide SameBeyond, Upserted, Filled, PartlyUpserted, PartlyFilled;
    var m, m' := db.sdeBlueprints, db'.sdeBlueprints;
    match w
    case UpsertDocs(batch) => SameBeyondUpserts(docs, m, batch, m');
    case FillActivity => SameBeyondFill(docs, m, m');
  }

  lemma {:induction false} ReactionScriptKeeps(docs: seq<Doc>, db: Db, script: seq<Write>, db': Db)
    requires forall w :: w in script ==> ReactionWrite(docs, w)
    requires Crashed(db, script, db')
    ensures db' == db.(sdeBlueprints := db'.sdeBlueprints)
    ensures SameBeyond(docs, db'.sdeBlueprints, db.sdeBlueprints)
    decreases |script|
  {
    hide Exec, Partly, SameBeyond, ReactionWrite;
    SameAsItself(docs, db.sdeBlueprints);
    if script != [] {
      ReactionWriteKeeps(docs, db, script[0], db');
      var next := Exec(db, script[0]).value;
      ReactionWriteKeeps(docs, db, script[0], next);
      if Crashed(next, script[1..], db') {
        ReactionScriptKeeps(docs, next, script[1..], db');
        SameBeyondChain(docs, db'.sdeBlueprints, next.sdeBlueprints, db.sdeBlueprints);
      }
    }
  }

  lemma SameAsItself(docs: seq<Doc>, m: map<int, Doc>)
    ensures SameBeyond(docs, m, m)
  {
  }

  lemma ReactionScriptWrites(files: Files, finish: Finish, db: Db)
    requires InSomeOrder(finish)
    ensures forall w :: w in Script(files, finish, db, AddReactions) ==> ReactionWrite(ReactionDocs(db.tables), w)
  {
    hide BatchWrites, ReactionDocs, InSomeOrder;
    var docs := ReactionDocs(db.tables);
    BatchesWrite(finish, docs, 0, docs);
  }

  lemma {:induction false} BatchesDone(db: Db, finish: Finish, docs: seq<Doc>, k: nat)
    ensures ExecAll(db, BatchWrites(finish, docs, k))
         == Some(db.(sdeBlueprints := Upserted(db.sdeBlueprints, Finished(finish, docs, k))))
    decreases |docs|
  {
    hide Upserted, Partly, Crashed;
    if docs == [] {
      NothingUpserted(db.sdeBlueprints);
    } else {
      var n := BatchSize(docs);
      var order, rest := finish(k, docs[..n]), BatchWrites(finish, docs[n..], k + 1);
      CrashedHead(db, UpsertDocs(order), rest, db);
      UpsertedInParts(db.sdeBlueprints, order, Finished(finish, docs[n..], k + 1));
      BatchesDone(db.(sdeBlueprints := Upserted(db.sdeBlueprints, order)), finish, docs[n..], k + 1);
    }
  }

  lemma NothingUpserted(m: map<int, Doc>)
    ensures Upserted(m, []) == m
  {
  }

  /** All of 0008: the reaction documents in the order in which their updates finish, then the default activity. */
  lemma ReactionsDone(db: Db, finish: Finish)
    ensures ExecAll(db, ReactionScript(finish, db.tables))
         == Some(db.(sdeBlueprints := Filled(Upserted(db.sdeBlueprints,
                                                      Finished(finish, ReactionDocs(db.tables), 0)))))
  {
    hide Upserted, Filled, Finished, BatchWrites, ReactionDocs, ExecAll, Crashed, Partly;
    var docs := ReactionDocs(db.tables);
    var db1 := db.(sdeBlueprints := Upserted(db.sdeBlueprints, Finished(finish, docs, 0)));
    BatchesDone(db, finish, docs, 0);
    ExecAllInParts(db, BatchWrites(finish, docs, 0), [FillActivity]);
    assert [FillActivity] == [FillActivity] + [];
    CrashedHead(db1, FillActivity, [], db);
    NothingLeft(db1.(sdeBlueprints := Filled(db1.sdeBlueprints)));
  }

  lemma ReactionWrites(files: Files, finish: Finish, db: Db)
    requires db.tables == SourceTables(files)
    ensures ExecAll(db, Script(files, finish, db, AddReactions))
         == Some(db.(sdeBlueprints := WithReactions(files, finish, db.sdeBlueprints)))
  {
    hide ExecAll, ReactionDocs, Upserted, Filled, Finished, ReactionScript;
    ReactionsDone(db, finish);
  }

  /** Wherever 0008 dies or completes, and in whatever order its updates finished until then, running it again
      in any order has the effect that order would have had the first time. */
  lemma ReactionsAbsorb(files: Files, finish: Finish, db: Db, db': Db, again: Finish)
    requires db.tables == SourceTables(files) && InSomeOrder(finish) && InSomeOrder(again)
    requires || Crashed(db, Script(files, finish, db, AddReactions), db')
             || ExecAll(db, Script(files, finish, db, AddReactions)) == Some(db')
    ensures db' == db.(sdeBlueprints := db'.sdeBlueprints)
    ensures SameBeyond(ReactionDocs(SourceTables(files)), db'.sdeBlueprints, db.sdeBlueprints)
    ensures WithReactions(files, again, db'.sdeBlueprints) == WithReactions(files, again, db.sdeBlueprints)
  {
    hide ExecAll, Crashed, Script, ReactionDocs, InSomeOrder, SameBeyond, WithReactions;
    var script := Script(files, finish, db, AddReactions);
    ReactionScriptWrites(files, finish, db);
    if ExecAll(db, script) == Some(db') {
      CompletedIsCrashed(db, script);
    }
    ReactionScriptKeeps(ReactionDocs(db.tables), db, script, db');
    SameReactions(files, again, db'.sdeBlueprints, db.sdeBlueprints);
  }

  /** Dying right after the last write leaves what completing leaves. */
  lemma {:induction false} CompletedIsCrashed(db: Db, script: seq<Write>)
    requires ExecAll(db, script).Some?
    ensures Crashed(db, script, ExecAll(db, script).value)
    decreases |script|
  {
    hide Exec, Partly;
    if script != [] {
      CompletedIsCrashed(Exec(db, script[0]).value, script[1..]);
    }
  }

  lemma SameReactions(files: Files, finish: Finish, a: map<int, Doc>, b: map<int, Doc>)
    requires InSomeOrder(finish) && SameBeyond(ReactionDocs(SourceTables(files)), a, b)
    ensures WithReactions(files, finish, a) == WithReactions(files, finish, b)
  {
    hide InSomeOrder, SameBeyond, Finished, ReactionDocs, SourceTables, Filled, Upserted;
    var docs := ReactionDocs(SourceTables(files));
    FinishedIsAll(finish, docs, 0);
    SameBeyondAbsorbed(docs, a, b, Finished(finish, docs, 0));
  }

  lemma ReactionsMigration(files: Files, finish: Finish, db: Db, db': Db)
    requires InSomeOrder(finish)
    requires Inv(files, db) && Whole(BuildLookups) in db.records && Whole(AddReactions) !in db.records
    ensures Crashed(db, FullScript(files, finish, db, AddReactions), db') ==> Inv(files, db')
    ensures ExecAll(db, FullScript(files, finish, db, AddReactions)) == Some(Final(files, finish))
    ensures Inv(files, Final(files, finish))
  {
    hide ExecAll, Crashed, WithReactions, Script, InSomeOrder, SameBeyond, ReactionDocs, SourceTables;
    hide DistinctTypes, DistinctProducts;
    var script := Script(files, finish, db, AddReactions);
    ImportedIsSource(files, db);
    ReactionWrites(files, finish, db);
    ExecAllInParts(db, script, [RecordDone(Whole(AddReactions))]);
    var end := ExecAll(db, script).value;
    CrashedRecord(end, Whole(AddReactions), db');
    ReactionsAbsorb(files, finish, db, end, finish);
    StillBuilt(files, db, end.sdeBlueprints);
    SameReactions(files, finish, db.sdeBlueprints, BlueprintsResult(files).value);
    var recorded := end.(records := end.records + {Whole(AddReactions)});
    assert Reacted(files, end.sdeBlueprints);
    AllRecordedIsFinal(files, finish, recorded);
    if Crashed(db, FullScript(files, finish, db, AddReactions), db') {
      CrashedBeforeRecord(db, script, Whole(AddReactions), db');
      if Crashed(db, script, db') {
        ReactionsAbsorb(files, finish, db, db', finish);
        StillBuilt(files, db, db'.sdeBlueprints);
      }
    }
  }

  lemma StillBuilt(files: Files, db: Db, m: map<int, Doc>)
    requires Importable(files) && BuiltFrom(files, db.sdeBlueprints)
    requires SameBeyond(ReactionDocs(SourceTables(files)), m, db.sdeBlueprints)
    ensures BuiltFrom(files, m)
  {
    hide SameBeyond, DistinctTypes, DistinctProducts, ReactionDocs, SourceTables;
    SameBeyondChain(ReactionDocs(SourceTables(files)), m, db.sdeBlueprints, BlueprintsResult(files).value);
  }

  lemma AllRecordedIsFinal(files: Files, finish: Finish, db: Db)
    requires Inv(files, db) && RecordedUpTo(db, |MIGRATIONS|)
    requires Importable(files) && db.sdeBlueprints == WithReactions(files, finish, BlueprintsResult(files).value)
    ensures db == Final(files, finish)
  {
    hide WithReactions, BuiltFrom, Reacted;
    assert Whole(MIGRATIONS[0]) in db.records && Whole(MIGRATIONS[1]) in db.records;
    assert Whole(MIGRATIONS[2]) in db.records;
    ImportedIsSource(files, db);
    forall id
      ensures id in db.records <==> id in AllRecords(files)
    {
      match id
      case Whole(m) =>
        match m {
          case ImportRawTables =>
          case BuildLookups =>
          case AddReactions =>
        }
      case Step(t) =>
    }
    SameRecords(db.records, AllRecords(files));
  }

  lemma SameRecords(a: set<RecordId>, b: set<RecordId>)
    requires forall id :: id in a <==> id in b
    ensures a == b
  {
  }

  /** Everything before position `k` of the sorted list is recorded. */
  ghost predicate RecordedUpTo(db: Db, k: nat)
    requires k <= |MIGRATIONS|
  {
    forall i :: 0 <= i < k ==> Whole(MIGRATIONS[i]) in db.records
  }

  // Whole runs

  lemma OneMigration(files: Files, finish: Finish, db: Db, k: nat, db': Db)
    requires InSomeOrder(finish)
    requires Inv(files, db) && k < |MIGRATIONS| && RecordedUpTo(db, k) && Whole(MIGRATIONS[k]) !in db.records
    ensures Crashed(db, FullScript(files, finish, db, MIGRATIONS[k]), db') ==> Inv(files, db')
    ensures var end := ExecAll(db, FullScript(files, finish, db, MIGRATIONS[k]));
      && (end.None? ==> k == 1 && !Importable(files))
      && (end.Some? ==> Inv(files, end.value) && RecordedUpTo(end.value, k + 1))
      && (end.Some? && k < 2 ==> Whole(AddReactions) !in end.value.records)
      && (end.Some? && k >= 1 ==> Importable(files))
      && (end.Some? && k == 2 ==> end.value == Final(files, finish))
  {
    hide ExecAll, Crashed, WithReactions, Importable, FullScript, InSomeOrder, BuiltFrom, Reacted;
    if k == 0 {
      NothingRecordedYet(files, db);
      ImportMigration(files, finish, db, db');
    } else if k == 1 {
      assert Whole(MIGRATIONS[0]) in db.records;
      LookupMigration(files, finish, db, db');
    } else {
      assert Whole(MIGRATIONS[1]) in db.records;
      ReactionsMigration(files, finish, db, db');
    }
  }

  lemma NothingRecordedYet(files: Files, db: Db)
    requires Inv(files, db) && Whole(ImportRawTables) !in db.records
    ensures Early(files, db)
  {
    forall m
      ensures Whole(m) !in db.records
    {
      match m
      case ImportRawTables =>
      case BuildLookups =>
      case AddReactions =>
    }
  }

  lemma {:induction false} CrashedRunFrom(files: Files, finish: Finish, db: Db, k: nat, db': Db)
    requires Inv(files, db) && k <= |MIGRATIONS| && RecordedUpTo(db, k)
    requires InSomeOrder(finish) && CrashedRun(files, finish, db, MIGRATIONS[k..], db')
    ensures Inv(files, db')
    decreases |MIGRATIONS| - k
  {
    hide Inv, ExecAll, Crashed, FullScript, InSomeOrder;
    if k < |MIGRATIONS| {
      assert MIGRATIONS[k..][0] == MIGRATIONS[k] && MIGRATIONS[k..][1..] == MIGRATIONS[k + 1..];
      if Whole(MIGRATIONS[k]) in db.records {
        CrashedRunFrom(files, finish, db, k + 1, db');
      } else {
        OneMigration(files, finish, db, k, db');
        var next := ExecAll(db, FullScript(files, finish, db, MIGRATIONS[k]));
        if next.Some? && CrashedRun(files, finish, next.value, MIGRATIONS[k + 1..], db') {
          CrashedRunFrom(files, finish, next.value, k + 1, db');
        }
      }
    }
  }

  /** Until 0008 is recorded, a complete run ends in the closed form for the order its updates take. */
  lemma {:induction false} CompleteRunFrom(files: Files, finish: Finish, db: Db, k: nat)
    requires Inv(files, db) && k <= 2 && RecordedUpTo(db, k) && Whole(AddReactions) !in db.records
    requires InSomeOrder(finish)
    ensures CompleteRun(files, finish, db, MIGRATIONS[k..])
         == if Importable(files) then Some(Final(files, finish)) else None
    decreases 2 - k
  {
    hide Inv, ExecAll, FullScript, Importable, Final, InSomeOrder;
    assert MIGRATIONS[k..][0] == MIGRATIONS[k] && MIGRATIONS[k..][1..] == MIGRATIONS[k + 1..];
    RecordedMeansImportable(files, db);
    if Whole(MIGRATIONS[k]) in db.records {
      assert RecordedUpTo(db, k + 1);
      CompleteRunFrom(files, finish, db, k + 1);
    } else {
      OneMigration(files, finish, db, k, db);
      var next := ExecAll(db, FullScript(files, finish, db, MIGRATIONS[k]));
      if next.Some? && k < 2 {
        CompleteRunFrom(files, finish, next.value, k + 1);
      }
    }
  }

  lemma RecordedMeansImportable(files: Files, db: Db)
    requires Inv(files, db)
    ensures Whole(BuildLookups) in db.records ==> Importable(files)
    ensures MIGRATIONS[1] == BuildLookups && MIGRATIONS[2] == AddReactions
  {
  }

  /** Once 0008 is recorded, nothing is left to do. */
  lemma AllRecorded(files: Files, finish: Finish, db: Db)
    requires Inv(files, db) && Whole(AddReactions) in db.records
    ensures RecordedUpTo(db, |MIGRATIONS|)
    ensures CompleteRun(files, finish, db, MIGRATIONS) == Some(db)
    ensures forall db' :: CrashedRun(files, finish, db, MIGRATIONS, db') ==> db' == db
  {
    hide ExecAll, FullScript, Crashed, Importable, BuiltFrom, Reacted;
    assert MIGRATIONS == [ImportRawTables] + ([BuildLookups] + ([AddReactions] + []));
    SkipsRecorded(files, finish, db, ImportRawTables, [BuildLookups] + ([AddReactions] + []));
    SkipsRecorded(files, finish, db, BuildLookups, [AddReactions] + []);
    SkipsRecorded(files, finish, db, AddReactions, []);
  }

  lemma SkipsRecorded(files: Files, finish: Finish, db: Db, m: Migration, rest: seq<Migration>)
    requires Whole(m) in db.records
    ensures CompleteRun(files, finish, db, [m] + rest) == CompleteRun(files, finish, db, rest)
    ensures forall db' :: CrashedRun(files, finish, db, [m] + rest, db') <==> CrashedRun(files, finish, db, rest, db')
  {
    assert ([m] + rest)[1..] == rest;
  }

  /** The database after any number of runs that each died somewhere (or finished). */
  ghost predicate History(files: Files, states: seq<Db>) {
    && states != [] && states[0] == EMPTY
    && forall i :: 0 <= i < |states| - 1 ==> MayLeave(files, states[i], states[i + 1])
  }

  lemma {:induction false} HistoryInv(files: Files, states: seq<Db>, i: nat)
    requires History(files, states) && i < |states|
    ensures Inv(files, states[i])
  {
    hide InSomeOrder, CrashedRun;
    if i == 0 {
      EmptyInv(files);
    } else {
      HistoryInv(files, states, i - 1);
      assert MayLeave(files, states[i - 1], states[i - 1 + 1]);
      var finish :| InSomeOrder(finish) && CrashedRun(files, finish, states[i - 1], MIGRATIONS, states[i]);
      assert MIGRATIONS[0..] == MIGRATIONS;
      CrashedRunFrom(files, finish, states[i - 1], 0, states[i]);
    }
  }

  lemma EmptyInv(files: Files)
    ensures Inv(files, EMPTY)
  {
    forall t
      ensures EMPTY.tables.Rows(t) == []
    {
    }
  }

  /** The ends that the orders of 0008's updates allow, on a dump without duplicate ids; otherwise none. */
  ghost predicate EndOfDump(files: Files, end: Option<Db>) {
    if Importable(files) then exists finish :: InSomeOrder(finish) && end == Some(Final(files, finish))
    else end == None
  }

  function AsIssued(): Finish {
    (k, batch) => batch
  }

  /** Until 0008 is recorded, a complete run may end in any end of the dump, and in no other. */
  lemma EndsOfDump(files: Files, db: Db, end: Option<Db>)
    requires Inv(files, db) && Whole(AddReactions) !in db.records
    ensures MayEnd(files, db, end) <==> EndOfDump(files, end)
  {
    hide Inv, CompleteRun, Importable, Final, InSomeOrder;
    assert MIGRATIONS[0..] == MIGRATIONS;
    if MayEnd(files, db, end) {
      var finish :| InSomeOrder(finish) && CompleteRun(files, finish, db, MIGRATIONS) == end;
      CompleteRunFrom(files, finish, db, 0);
    }
    if EndOfDump(files, end) {
      OrdersExist();
      var finish :| InSomeOrder(finish) && (Importable(files) ==> end == Some(Final(files, finish)));
      CompleteRunFrom(files, finish, db, 0);
    }
  }

  lemma OrdersExist()
    ensures InSomeOrder(AsIssued())
  {
  }

  /** There is an end: a run that does not die completes or raises. */
  ghost predicate Ends(files: Files, db: Db) {
    exists end :: MayEnd(files, db, end)
  }

  /** After any history of runs that died, a complete run has exactly the ends that one uninterrupted run from the
      empty database may have, until 0008 is recorded; from then on its only end is what is there, which is one of
      those. Some end always exists, and it is an exception exactly when the dump has duplicate ids. */
  lemma CrashConvergence(files: Files, states: seq<Db>, end: Option<Db>)
    requires History(files, states)
    ensures MayEnd(files, EMPTY, end) <==> EndOfDump(files, end)
    ensures var last := states[|states| - 1];
      if Whole(AddReactions) !in last.records
      then MayEnd(files, last, end) <==> MayEnd(files, EMPTY, end)
      else (MayEnd(files, last, end) <==> end == Some(last)) && MayEnd(files, EMPTY, Some(last))
    ensures MayEnd(files, states[|states| - 1], end) ==> (end.Some? <==> Importable(files))
    ensures Ends(files, states[|states| - 1])
  {
    hide Inv, CompleteRun, Importable, Final, InSomeOrder, CrashedRun;
    var last := states[|states| - 1];
    HistoryInv(files, states, |states| - 1);
    EmptyInv(files);
    EndsOfDump(files, EMPTY, end);
    OrdersExist();
    if Whole(AddReactions) !in last.records {
      EndsOfDump(files, last, end);
      var some := if Importable(files) then Some(Final(files, AsIssued())) else None;
      assert EndOfDump(files, some);
      EndsOfDump(files, last, some);
    } else {
      RecordedIsAnEnd(files, last);
      EndsOfDump(files, EMPTY, Some(last));
      EndsWhenRecorded(files, last, end);
      EndsWhenRecorded(files, last, Some(last));
    }
  }

  lemma EndsWhenRecorded(files: Files, db: Db, end: Option<Db>)
    requires Inv(files, db) && Whole(AddReactions) in db.records
    ensures MayEnd(files, db, end) <==> end == Some(db)
  {
    hide Inv, CompleteRun, CrashedRun, InSomeOrder;
    OrdersExist();
    AllRecorded(files, AsIssued(), db);
    if MayEnd(files, db, end) {
      var finish :| InSomeOrder(finish) && CompleteRun(files, finish, db, MIGRATIONS) == end;
      AllRecorded(files, finish, db);
    }
  }

  lemma RecordedIsAnEnd(files: Files, db: Db)
    requires Inv(files, db) && Whole(AddReactions) in db.records
    ensures Importable(files) && EndOfDump(files, Some(db))
  {
    hide CompleteRun, CrashedRun, InSomeOrder, WithReactions, BuiltFrom, DistinctTypes, DistinctProducts, Final;
    AllRecorded(files, AsIssued(), db);
    var finish :| InSomeOrder(finish) &&
                  db.sdeBlueprints == WithReactions(files, finish, BlueprintsResult(files).value);
    AllRecordedIsFinal(files, finish, db);
  }

  ghost predicate OnlyOneEnd(files: Files, db: Db) {
    forall a, b :: MayEnd(files, db, a) && MayEnd(files, db, b) ==> a == b
  }

  /** Until 0008 is recorded, every complete run ends in the same state if and only if the dump has duplicate ids
      (and every run raises) or gives each reaction equal documents in the last batch that lists it. */
  lemma OneEndExactlyWhen(files: Files, states: seq<Db>)
    requires History(files, states) && Whole(AddReactions) !in states[|states| - 1].records
    ensures OnlyOneEnd(files, states[|states| - 1])
       <==> (Importable(files) ==> LastBatchAgrees(ReactionDocs(SourceTables(files))))
  {
    hide Inv, MayEnd, DistinctTypes, DistinctProducts, InSomeOrder, LastBatchAgrees, ReactionDocs, SourceTables;
    hide WithReactions;
    var last := states[|states| - 1];
    HistoryInv(files, states, |states| - 1);
    forall end
      ensures MayEnd(files, last, end) <==> EndOfDump(files, end)
    {
      EndsOfDump(files, last, end);
    }
    if Importable(files) {
      var m := BlueprintsResult(files).value;
      ReactionOrderIrrelevantExactlyWhen(files, m);
      if !LastBatchAgrees(ReactionDocs(SourceTables(files))) {
        var finish, finish' :| InSomeOrder(finish) && InSomeOrder(finish') &&
                               WithReactions(files, finish, m) != WithReactions(files, finish', m);
        var a, b := Final(files, finish), Final(files, finish');
        assert EndOfDump(files, Some(a)) && EndOfDump(files, Some(b));
        assert a.sdeBlueprints != b.sdeBlueprints;
      }
    }
  }

  const ROW: RawRow := RawRow(34, 0, 0, 0, 0, 0, "Tritanium", 18, 1, None)

  /** A dump that lists a type twice: no run ever completes, with or without crashes before it. */
  lemma RepeatedTypeNeverCompletes(files: Files, states: seq<Db>, end: Option<Db>)
    requires Types in files && files[Types] == [ROW, ROW] && History(files, states)
    ensures MayEnd(files, states[|states| - 1], end) <==> end == None
  {
    hide MayEnd;
    assert files[Types][0].typeID == files[Types][1].typeID;
    CrashConvergence(files, states, end);
    var some :| MayEnd(files, states[|states| - 1], some);
    CrashConvergence(files, states, some);
  }

  /** A dump that gives one reaction two products. */
  const TWO_PRODUCTS: Files :=
    map[Products := [RawRow(46166, REACTIONS, 0, 100, 1, 0, "", 0, 0, None),
                     RawRow(46166, REACTIONS, 0, 200, 1, 0, "", 0, 0, None)]]

  function TwoReactions(): seq<Doc> {
    [BlueprintDoc(46166, 100, 1, None, [], Some(REACTIONS)), BlueprintDoc(46166, 200, 1, None, [], Some(REACTIONS))]
  }

  lemma TwoReactionsAreRead()
    ensures Importable(TWO_PRODUCTS)
    ensures ReactionDocs(SourceTables(TWO_PRODUCTS)) == TwoReactions()
  {
    var tables := SourceTables(TWO_PRODUCTS);
    var rows := tables.products;
    assert rows[..1][..0] == [];
    assert JoinedDocs(tables, rows[..1], REACTIONS, Some(REACTIONS)) == TwoReactions()[..1];
  }

  lemma EndWith(i: nat) returns (db: Db)
    requires i < 2
    ensures MayEnd(TWO_PRODUCTS, EMPTY, Some(db))
    ensures 46166 in db.sdeBlueprints && db.sdeBlueprints[46166] == TwoReactions()[i]
  {
    hide MayEnd, InSomeOrder, Importable, ReactionDocs, SourceTables, WithReactions, LastWith, Inv, Lists;
    var docs := TwoReactions();
    TwoReactionsAreRead();
    NothingListed(46166);
    var finish := LastForGood(docs, [], 0, i);
    assert docs[..2] == docs && docs[2..] == [] && docs[i].id == 46166;
    assert Finished(finish, docs, 0) == finish(0, docs) + Finished(finish, [], 1);
    WithReactionsAt(TWO_PRODUCTS, finish, BlueprintsResult(TWO_PRODUCTS).value, 46166);
    db := Final(TWO_PRODUCTS, finish);
    EmptyInv(TWO_PRODUCTS);
    EndsOfDump(TWO_PRODUCTS, EMPTY, Some(db));
  }

  lemma NothingListed(id: int)
    ensures !Lists([], id)
  {
  }

  /** Nothing raises, and the product that is kept depends on which update finishes last. */
  lemma TwoProductsTwoEnds() returns (a: Db, b: Db)
    ensures Importable(TWO_PRODUCTS)
    ensures MayEnd(TWO_PRODUCTS, EMPTY, Some(a)) && MayEnd(TWO_PRODUCTS, EMPTY, Some(b))
    ensures 46166 in a.sdeBlueprints && a.sdeBlueprints[46166] == TwoReactions()[0]
    ensures 46166 in b.sdeBlueprints && b.sdeBlueprints[46166] == TwoReactions()[1]
    ensures a != b
  {
    hide MayEnd;
    TwoReactionsAreRead();
    a := EndWith(0);
    b := EndWith(1);
    assert TwoReactions()[0].productTypeId == 100 && TwoReactions()[1].productTypeId == 200;
  }

  /** The recorded migrations are a prefix of the sorted list, at every point of every history. */
  lemma RecordedPrefix(files: Files, states: seq<Db>, i: nat) returns (k: nat)
    requires History(files, states) && i < |states|
    ensures k <= |MIGRATIONS|
    ensures forall j :: 0 <= j < |MIGRATIONS| ==> (Whole(MIGRATIONS[j]) in states[i].records <==> j < k)
  {
    HistoryInv(files, states, i);
    var records := states[i].records;
    k := if Whole(AddReactions) in records then 3
         else if Whole(BuildLookups) in records then 2
         else if Whole(ImportRawTables) in records then 1 else 0;
  }

  lemma {:induction false} RecordsGrow(db: Db, script: seq<Write>, db': Db)
    ensures Crashed(db, script, db') ==> db.records <= db'.records
    ensures ExecAll(db, script).Some? ==> db.records <= ExecAll(db, script).value.records
    decreases |script|
  {
    if script != [] {
      RecordsGrowOnce(db, script[0], db');
      if Exec(db, script[0]).Some? {
        RecordsGrow(Exec(db, script[0]).value, script[1..], db');
      }
    }
  }

  lemma RecordsGrowOnce(db: Db, w: Write, db': Db)
    ensures Partly(db, w, db') ==> db.records <= db'.records
    ensures Exec(db, w).Some? ==> db.records <= Exec(db, w).value.records
  {
  }

  lemma {:induction false} RunRecordsGrow(files: Files, finish: Finish, db: Db, pending: seq<Migration>, db': Db)
    requires CrashedRun(files, finish, db, pending, db')
    ensures db.records <= db'.records
    decreases |pending|
  {
    hide Crashed, ExecAll, FullScript;
    if pending != [] {
      if Whole(pending[0]) in db.records {
        RunRecordsGrow(files, finish, db, pending[1..], db');
      } else {
        var script := FullScript(files, finish, db, pending[0]);
        RecordsGrow(db, script, db');
        var next := ExecAll(db, script);
        if next.Some? && CrashedRun(files, finish, next.value, pending[1..], db') {
          RunRecordsGrow(files, finish, next.value, pending[1..], db');
        }
      }
    }
  }

  /** What is recorded is never applied again: later runs, crashed or not, leave its data alone. */
  lemma RecordedNeverReapplied(files: Files, states: seq<Db>, i: nat)
    requires History(files, states) && i + 1 < |states|
    ensures var db, db' := states[i], states[i + 1];
      && db.records <= db'.records
      && (forall t :: Step(t) in db.records ==> db'.tables.Rows(t) == db.tables.Rows(t))
      && (Whole(BuildLookups) in db.records ==> db'.sdeTypes == db.sdeTypes)
      && (Whole(AddReactions) in db.records ==> db' == db)
  {
    hide BuiltFrom, Reacted, Importable, CrashedRun, InSomeOrder;
    HistoryInv(files, states, i);
    HistoryInv(files, states, i + 1);
    assert MayLeave(files, states[i], states[i + 1]);
    var finish :| InSomeOrder(finish) && CrashedRun(files, finish, states[i], MIGRATIONS, states[i + 1]);
    RunRecordsGrow(files, finish, states[i], MIGRATIONS, states[i + 1]);
    if Whole(AddReactions) in states[i].records {
      AllRecorded(files, finish, states[i]);
    }
  }
}
