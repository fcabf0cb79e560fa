/** The migrations and their runner as loops over a database that is changed in place. */
module MigrationRunner {
  import opened Optional
  import opened SdeData
  import opened MigrationState
  import opened MigrationConvergence
  import opened MigrationContents

  const INSERT_BATCH: nat := 5000

  class Database {
    var tables: Tables
    var sdeTypes: map<int, Doc>
    var sdeBlueprints: map<int, Doc>
    var records: set<RecordId>

    constructor ()
      ensures State() == EMPTY
    {
      tables, sdeTypes, sdeBlueprints, records := Tables([], [], [], []), map[], map[], {};
    }

    function State(): Db
      reads this
    {
      Db(tables, sdeTypes, sdeBlueprints, records)
    }

    method Record(id: RecordId)
      modifies `records
      ensures records == old(records) + {id}
    {
      records := records + {id};
    }

    method SetDocs(c: Collection, docs: map<int, Doc>)
      modifies `sdeTypes, `sdeBlueprints
      ensures State() == old(State()).WithDocs(c, docs)
    {
      match c
      case SdeTypes => sdeTypes := docs;
      case SdeBlueprints => sdeBlueprints := docs;
    }

    /** An unordered bulk insert: documents whose id is taken are skipped and reported. */
    method InsertMany(c: Collection, docs: seq<Doc>) returns (ok: bool)
      modifies `sdeTypes, `sdeBlueprints
      ensures State() == old(State()).WithDocs(c, State().Docs(c))
      ensures ok <==> Added(old(State()).Docs(c), docs).Some?
      ensures ok ==> Added(old(State()).Docs(c), docs) == Some(State().Docs(c))
      ensures PartlyAdded(old(State()).Docs(c), docs, State().Docs(c))
    {
      var m := State().Docs(c);
      ghost var before := m;
      ok := true;
      var i := 0;
      while i < |docs|
        invariant 0 <= i <= |docs|
        invariant ok <==> Added(before, docs[..i]).Some?
        invariant ok ==> Added(before, docs[..i]) == Some(m)
        invariant PartlyAdded(before, docs, m)
      {
        assert docs[..i + 1][..i] == docs[..i] && docs[i] in docs;
        if docs[i].id in m {
          ok := false;
        } else {
          m := m[docs[i].id := docs[i]];
        }
        i := i + 1;
      }
      assert docs[..i] == docs;
      SetDocs(c, m);
    }
  }

  // 0001

  method ImportTable(db: Database, t: Table, rows: seq<RawRow>)
    modifies db`tables
    ensures db.tables == old(db.tables).With(t, rows)
  {
    db.tables := db.tables.With(t, []);
    var start := 0;
    while start < |rows|
      invariant 0 <= start
      invariant db.tables == old(db.tables).With(t, if start <= |rows| then rows[..start] else rows)
    {
      var end := if start + INSERT_BATCH <= |rows| then start + INSERT_BATCH else |rows|;
      SetTwice(Db(old(db.tables), map[], map[], {}), t, rows[..start], rows[..end]);
      assert rows[..start] + rows[start..end] == rows[..end];
      db.tables := db.tables.With(t, db.tables.Rows(t) + rows[start..end]);
      start := start + INSERT_BATCH;
      assert rows[..|rows|] == rows;
    }
    assert rows[..|rows|] == rows;
  }

  method ApplyImport(db: Database, files: Files)
    modifies db`tables, db`records
    ensures ExecAll(old(db.State()), ImportScript(files, old(db.records), TABLES)) == Some(db.State())
    ensures forall t: Table ::
              if t in files && Step(t) !in old(db.records) then db.tables.Rows(t) == files[t]
              else db.tables.Rows(t) == old(db.tables).Rows(t)
    ensures db.records == old(db.records) + set t | t in files :: Step(t)
  {
    hide ExecAll;
    hide ImportScript;
    AllTables();
    ImportedAll(files, db.State(), db.records, TABLES);
    var applied := db.records;
    var i := 0;
    while i < |TABLES|
      invariant 0 <= i <= |TABLES|
      invariant db.sdeTypes == old(db.sdeTypes) && db.sdeBlueprints == old(db.sdeBlueprints)
      invariant ExecAll(old(db.State()), ImportScript(files, applied, TABLES))
             == ExecAll(db.State(), ImportScript(files, applied, TABLES[i..]))
    {
      var t := TABLES[i];
      assert TABLES[i..][0] == t && TABLES[i..][1..] == TABLES[i + 1..];
      ImportOne(files, db.State(), applied, TABLES[i..]);
      if t in files && Step(t) !in applied {
        ImportTable(db, t, files[t]);
        db.Record(Step(t));
      }
      i := i + 1;
    }
    assert TABLES[i..] == [];
    NothingToImport(files, db.State(), applied);
  }

  lemma AllTables()
    ensures forall t: Table :: t in TABLES
  {
    assert TABLES[0] == Activity && TABLES[1] == Materials && TABLES[2] == Products && TABLES[3] == Types;
    forall t: Table
      ensures t in TABLES
    {
      match t
      case Activity => assert TABLES[0] == t;
      case Materials => assert TABLES[1] == t;
      case Products => assert TABLES[2] == t;
      case Types => assert TABLES[3] == t;
    }
  }

  lemma NothingToImport(files: Files, db: Db, applied: set<RecordId>)
    ensures ExecAll(db, ImportScript(files, applied, [])) == Some(db)
  {
  }

  lemma ImportOne(files: Files, db: Db, applied: set<RecordId>, tables: seq<Table>)
    requires tables != []
    ensures var t := tables[0];
      ExecAll(db, ImportScript(files, applied, tables))
      == ExecAll(if t in files && Step(t) !in applied then Imported(db, t, files[t]) else db,
                 ImportScript(files, applied, tables[1..]))
  {
    var t, rest := tables[0], ImportScript(files, applied, tables[1..]);
    if t in files && Step(t) !in applied {
      hide ExecAll;
      var first, second, third := DeleteRows(t), InsertRows(t, files[t]), RecordDone(Step(t));
      TableWrites(db, t, files[t]);
      assert TableScript(t, files[t]) + rest == [first] + ([second] + ([third] + rest));
      CrashedHead(db, first, [second] + ([third] + rest), db);
      CrashedHead(db.(tables := db.tables.With(t, [])), second, [third] + rest, db);
      CrashedHead(db.(tables := db.tables.With(t, files[t])), third, rest, db);
    }
  }

  /** Every table with a file that was not imported yet holds its rows, and is recorded. */
  lemma {:induction false} ImportedAll(files: Files, db: Db, applied: set<RecordId>, tables: seq<Table>)
    ensures var end := ExecAll(db, ImportScript(files, applied, tables));
      && end.Some?
      && (forall t: Table ::
            if t in tables && t in files && Step(t) !in applied then end.value.tables.Rows(t) == files[t]
            else end.value.tables.Rows(t) == db.tables.Rows(t))
      && forall id :: id in end.value.records <==>
           id in db.records || (id.Step? && id.table in tables && id.table in files && id !in applied)
    decreases |tables|
  {
    hide ExecAll, ImportScript;
    if tables == [] {
      NothingToImport(files, db, applied);
    } else {
      var t := tables[0];
      ImportOne(files, db, applied, tables);
      var next := if t in files && Step(t) !in applied then Imported(db, t, files[t]) else db;
      ImportedAll(files, next, applied, tables[1..]);
      assert forall u: Table :: u in tables <==> u == t || u in tables[1..];
    }
  }

  // 0002

  lemma {:induction false} AddedInParts(m: map<int, Doc>, a: seq<Doc>, b: seq<Doc>)
    ensures Added(m, a + b) == if Added(m, a).None? then None else Added(Added(m, a).value, b)
    decreases |b|
  {
    if b == [] {
      assert a + b == a;
    } else {
      assert (a + b)[..|a + b| - 1] == a + b[..|b| - 1];
      AddedInParts(m, a, b[..|b| - 1]);
    }
  }

  /** _replace_all: False when a batch is refused, leaving some of the documents in place. */
  method ReplaceAll(db: Database, c: Collection, docs: seq<Doc>) returns (ok: bool)
    modifies db`sdeTypes, db`sdeBlueprints
    ensures db.State() == old(db.State()).WithDocs(c, db.State().Docs(c))
    ensures ok <==> DistinctIds(docs)
    ensures ok <==> Added(map[], docs).Some?
    ensures ok ==> Added(map[], docs) == Some(db.State().Docs(c))
    ensures PartlyAdded(map[], docs, db.State().Docs(c))
  {
    hide Added, PartlyAdded, DistinctIds;
    AddedExactlyWhen(map[], docs);
    db.SetDocs(c, map[]);
    NoneAdded(docs);
    var start := 0;
    while start < |docs|
      invariant 0 <= start
      invariant db.State() == old(db.State()).WithDocs(c, db.State().Docs(c))
      invariant Added(map[], Front(docs, start)) == Some(db.State().Docs(c))
      invariant PartlyAdded(map[], docs, db.State().Docs(c))
    {
      var end := if start + INSERT_BATCH <= |docs| then start + INSERT_BATCH else |docs|;
      AddedInParts(map[], docs[..start], docs[start..end]);
      AddedInParts(map[], docs[..end], docs[end..]);
      assert docs[..start] + docs[start..end] == docs[..end] == Front(docs, start + INSERT_BATCH);
      assert docs[..end] + docs[end..] == docs;
      ghost var before := db.State().Docs(c);
      ok := db.InsertMany(c, docs[start..end]);
      PartlyMore(docs, before, docs[start..end], db.State().Docs(c));
      if !ok {
        return;
      }
      start := start + INSERT_BATCH;
    }
    assert Front(docs, start) == docs;
    ok := true;
  }

  lemma NoneAdded(docs: seq<Doc>)
    ensures Added(map[], []) == Some(map[]) && PartlyAdded(map[], docs, map[])
  {
  }

  ghost function Front(docs: seq<Doc>, n: nat): seq<Doc> {
    if n <= |docs| then docs[..n] else docs
  }

  lemma PartlyMore(docs: seq<Doc>, m: map<int, Doc>, batch: seq<Doc>, m': map<int, Doc>)
    requires PartlyAdded(map[], docs, m) && PartlyAdded(m, batch, m')
    requires forall doc :: doc in batch ==> doc in docs
    ensures PartlyAdded(map[], docs, m')
  {
  }

  method ApplyLookups(db: Database) returns (ok: bool)
    modifies db`sdeTypes, db`sdeBlueprints
    ensures var end := ExecAll(old(db.State()), LookupScript(old(db.tables)));
      if ok then end == Some(db.State())
      else end == None && Crashed(old(db.State()), LookupScript(old(db.tables)), db.State())
    ensures ok ==> HoldsTypes(db.tables.types, db.sdeTypes) && HoldsManufacturing(db.tables, db.sdeBlueprints)
  {
    hide HoldsTypes, HoldsManufacturing;
    hide ExecAll;
    hide Crashed;
    hide Added;
    hide PartlyAdded;
    ghost var before := db.State();
    var types := ReadTypes(db.tables.types);
    var blueprints := ReadBlueprints(db.tables, MANUFACTURING, None);
    ok := ReplaceAll(db, SdeTypes, types);
    LookupSteps(before, db.State().sdeTypes, db.State().sdeBlueprints);
    if !ok {
      return;
    }
    ok := ReplaceAll(db, SdeBlueprints, blueprints);
    LookupSteps(before, db.State().sdeTypes, db.State().sdeBlueprints);
    if ok {
      TypesAdded(db.tables.types);
      ManufacturingAdded(db.tables);
    }
  }

  /** The two replacements of 0002, complete and refused part-way. */
  lemma LookupSteps(db: Db, types: map<int, Doc>, blueprints: map<int, Doc>)
    ensures var script := LookupScript(db.tables);
      var newTypes := Added(map[], TypeDocs(db.tables.types));
      var newBlueprints := Added(map[], ManufacturingDocs(db.tables));
      && (newTypes.None? ==> ExecAll(db, script) == None)
      && (PartlyAdded(map[], TypeDocs(db.tables.types), types) ==> Crashed(db, script, db.(sdeTypes := types)))
      && (newTypes == Some(types) && newBlueprints == Some(blueprints) ==>
            ExecAll(db, script) == Some(db.(sdeTypes := types, sdeBlueprints := blueprints)))
      && (newTypes == Some(types) && newBlueprints.None? ==> ExecAll(db, script) == None)
      && (newTypes == Some(types) && PartlyAdded(map[], ManufacturingDocs(db.tables), blueprints) ==>
            Crashed(db, script, db.(sdeTypes := types, sdeBlueprints := blueprints)))
  {
    hide ExecAll;
    hide Crashed;
    hide Added;
    hide PartlyAdded;
    hide TypeDocs;
    hide ManufacturingDocs;
    var typeDocs, blueprintDocs := TypeDocs(db.tables.types), ManufacturingDocs(db.tables);
    var a, b := DeleteDocs(SdeTypes), InsertDocs(SdeTypes, typeDocs);
    var c, d := DeleteDocs(SdeBlueprints), InsertDocs(SdeBlueprints, blueprintDocs);
    assert LookupScript(db.tables) == [a] + ([b] + ([c] + ([d] + [])));
    var db1, db2 := db.(sdeTypes := map[]), db.(sdeTypes := types);
    var db3, db4 := db2.(sdeBlueprints := map[]), db2.(sdeBlueprints := blueprints);
    StepInto(db, a, [b] + ([c] + ([d] + [])), db2);
    StepInto(db1, b, [c] + ([d] + []), db2);
    StepInto(db, a, [b] + ([c] + ([d] + [])), db4);
    StepInto(db1, b, [c] + ([d] + []), db4);
    StepInto(db2, c, [d] + [], db4);
    StepInto(db3, d, [], db4);
    NothingLeft(db4);
  }

  lemma StepInto(db: Db, w: Write, rest: seq<Write>, db': Db)
    ensures ExecAll(db, [w] + rest) == if Exec(db, w).None? then None else ExecAll(Exec(db, w).value, rest)
    ensures Partly(db, w, db') ==> Crashed(db, [w] + rest, db')
    ensures Exec(db, w).Some? && Crashed(Exec(db, w).value, rest, db') ==> Crashed(db, [w] + rest, db')
  {
    assert ([w] + rest)[1..] == rest;
  }

  // 0008

  method UpsertBatch(db: Database, order: seq<Doc>)
    modifies db`sdeBlueprints
    ensures db.sdeBlueprints == Upserted(old(db.sdeBlueprints), order)
  {
    var i := 0;
    while i < |order|
      invariant 0 <= i <= |order|
      invariant db.sdeBlueprints == Upserted(old(db.sdeBlueprints), order[..i])
    {
      assert order[..i + 1][..i] == order[..i];
      db.sdeBlueprints := db.sdeBlueprints[order[i].id := order[i]];
      i := i + 1;
    }
    assert order[..i] == order;
  }

  ghost function Back(docs: seq<Doc>, n: nat): seq<Doc> {
    if n <= |docs| then docs[n..] else []
  }

  /** One batch of 500 after the other; the updates of the `k`-th take effect in the order `finish` gives. */
  method ApplyReactions(db: Database, finish: Finish)
    modifies db`sdeBlueprints
    ensures ExecAll(old(db.State()), ReactionScript(finish, old(db.tables))) == Some(db.State())
    ensures var order := Finished(finish, ReactionDocs(old(db.tables)), 0);
      db.sdeBlueprints == Filled(Upserted(old(db.sdeBlueprints), order))
    ensures InSomeOrder(finish) ==> ReactionsAdded(db.tables, old(db.sdeBlueprints), db.sdeBlueprints)
  {
    hide InSomeOrder, ReactionsAdded;
    hide ExecAll, FillDoc, Upserted, BatchWrites, BatchSize, Finished;
    var docs := ReadBlueprints(db.tables, REACTIONS, Some(REACTIONS));
    var start, k := 0, 0;
    while start < |docs|
      invariant 0 <= start && 0 <= k
      invariant ExecAll(old(db.State()), ReactionScript(finish, old(db.tables)))
             == ExecAll(db.State(), BatchWrites(finish, Back(docs, start), k) + [FillActivity])
    {
      var end := if start + UPSERT_BATCH <= |docs| then start + UPSERT_BATCH else |docs|;
      NextBatch(db.State(), finish, docs[start..], k);
      assert docs[start..end] == docs[start..][..end - start] && docs[end..] == docs[start..][end - start..];
      assert docs[end..] == Back(docs, start + UPSERT_BATCH);
      UpsertBatch(db, finish(k, docs[start..end]));
      start, k := start + UPSERT_BATCH, k + 1;
    }
    LastBatch(db.State(), finish, k);
    db.sdeBlueprints := map id | id in db.sdeBlueprints :: FillDoc(db.sdeBlueprints[id]);
    ReactionsDone(old(db.State()), finish);
    if InSomeOrder(finish) {
      ReactionsAreAdded(db.tables, finish, old(db.sdeBlueprints));
    }
  }

  lemma NextBatch(db: Db, finish: Finish, docs: seq<Doc>, k: nat)
    requires docs != []
    ensures var n := if UPSERT_BATCH <= |docs| then UPSERT_BATCH else |docs|;
      ExecAll(db, BatchWrites(finish, docs, k) + [FillActivity])
      == ExecAll(db.(sdeBlueprints := Upserted(db.sdeBlueprints, finish(k, docs[..n]))),
                 BatchWrites(finish, docs[n..], k + 1) + [FillActivity])
  {
    hide ExecAll, Upserted;
    var n := BatchSize(docs);
    var first, rest := UpsertDocs(finish(k, docs[..n])), BatchWrites(finish, docs[n..], k + 1);
    assert BatchWrites(finish, docs, k) + [FillActivity] == [first] + (rest + [FillActivity]);
    StepInto(db, first, rest + [FillActivity], db);
  }

  lemma LastBatch(db: Db, finish: Finish, k: nat)
    ensures ExecAll(db, BatchWrites(finish, [], k) + [FillActivity])
         == Some(db.(sdeBlueprints := Filled(db.sdeBlueprints)))
  {
    hide ExecAll, Filled;
    assert BatchWrites(finish, [], k) + [FillActivity] == [FillActivity] + [];
    StepInto(db, FillActivity, [], db);
    NothingLeft(db.(sdeBlueprints := Filled(db.sdeBlueprints)));
  }

  // The runner

  method ApplyMigration(db: Database, files: Files, m: Migration, finish: Finish) returns (ok: bool)
    modifies db
    ensures var script := Script(files, finish, old(db.State()), m);
      if ok then ExecAll(old(db.State()), script) == Some(db.State())
      else ExecAll(old(db.State()), script) == None && Crashed(old(db.State()), script, db.State())
  {
    hide ExecAll, Crashed, ImportScript, LookupScript, ReactionScript;
    ok := true;
    match m
    case ImportRawTables => ApplyImport(db, files);
    case BuildLookups => ok := ApplyLookups(db);
    case AddReactions => ApplyReactions(db, finish);
  }

  /** Applies what is not recorded yet, in order, recording each; stops at an exception. A completed run is the
      complete run for the order in which the concurrent updates finished, one that raised is a run that died and
      could not have completed. */
  method RunMigrations(db: Database, files: Files, finish: Finish) returns (ok: bool)
    requires InSomeOrder(finish)
    modifies db
    ensures CompleteRun(files, finish, old(db.State()), MIGRATIONS) == if ok then Some(db.State()) else None
    ensures MayEnd(files, old(db.State()), if ok then Some(db.State()) else None)
    ensures MayLeave(files, old(db.State()), db.State())
    ensures forall states :: ok && History(files, states) && states[|states| - 1] == old(db.State()) ==>
              && HoldsFiles(files, db.tables) && HoldsTypes(db.tables.types, db.sdeTypes)
              && HoldsBlueprints(db.tables, db.sdeBlueprints)
              && forall id :: id in db.records <==> id.Whole? || (id.Step? && id.table in files)
    ensures forall states :: History(files, states) && states[|states| - 1] == old(db.State()) ==>
              (ok <==> NothingTwice(files))
  {
    hide NothingTwice;
    hide ExecAll, Crashed, Script, CompleteRun, CrashedRun, InSomeOrder;
    hide HoldsFiles, HoldsTypes, HoldsBlueprints;
    ghost var start := db.State();
    var i := 0;
    assert MIGRATIONS[0..] == MIGRATIONS;
    while i < |MIGRATIONS|
      invariant 0 <= i <= |MIGRATIONS|
      invariant CompleteRun(files, finish, start, MIGRATIONS)
             == CompleteRun(files, finish, db.State(), MIGRATIONS[i..])
      invariant forall end :: CrashedRun(files, finish, db.State(), MIGRATIONS[i..], end) ==>
                                CrashedRun(files, finish, start, MIGRATIONS, end)
    {
      var m := MIGRATIONS[i];
      ghost var before := db.State();
      assert MIGRATIONS[i..] == [m] + MIGRATIONS[i + 1..];
      if Whole(m) in db.records {
        SkipsRecorded(files, finish, before, m, MIGRATIONS[i + 1..]);
      } else {
        ok := ApplyMigration(db, files, m, finish);
        RunOne(files, finish, before, m, MIGRATIONS[i + 1..], db.State());
        if !ok {
          forall states | History(files, states) && states[|states| - 1] == start
            ensures !NothingTwice(files)
          {
            RaisesOverDuplicates(files, states);
          }
          return;
        }
        db.Record(Whole(m));
      }
      i := i + 1;
    }
    assert MIGRATIONS[i..] == [];
    NothingPending(files, finish, db.State());
    ok := true;
    forall states | History(files, states) && states[|states| - 1] == start
      ensures HoldsFiles(files, db.tables) && HoldsTypes(db.tables.types, db.sdeTypes)
      ensures HoldsBlueprints(db.tables, db.sdeBlueprints) && NothingTwice(files)
      ensures forall id :: id in db.records <==> id.Whole? || (id.Step? && id.table in files)
    {
      CompletedContents(files, states, db.State());
    }
  }

  lemma NothingPending(files: Files, finish: Finish, db: Db)
    ensures CompleteRun(files, finish, db, []) == Some(db) && CrashedRun(files, finish, db, [], db)
  {
  }

  lemma RunOne(files: Files, finish: Finish, db: Db, m: Migration, rest: seq<Migration>, after: Db)
    requires Whole(m) !in db.records
    ensures var script := Script(files, finish, db, m);
      && (ExecAll(db, script) == None ==> CompleteRun(files, finish, db, [m] + rest) == None)
      && (ExecAll(db, script) == None && Crashed(db, script, after) ==>
            CrashedRun(files, finish, db, [m] + rest, after))
      && (ExecAll(db, script) == Some(after) ==>
            var recorded := after.(records := after.records + {Whole(m)});
            && CompleteRun(files, finish, db, [m] + rest) == CompleteRun(files, finish, recorded, rest)
            && forall end :: CrashedRun(files, finish, recorded, rest, end) ==>
                               CrashedRun(files, finish, db, [m] + rest, end))
  {
    hide ExecAll, Crashed, Script;
    assert ([m] + rest)[1..] == rest;
    var script := Script(files, finish, db, m);
    ExecAllInParts(db, script, [RecordDone(Whole(m))]);
    CrashedRecord(after, Whole(m), after);
    CrashedPrefix(db, script, [RecordDone(Whole(m))], after);
  }

  lemma {:induction false} CrashedPrefix(db: Db, a: seq<Write>, b: seq<Write>, db': Db)
    ensures Crashed(db, a, db') ==> Crashed(db, a + b, db')
    decreases |a|
  {
    hide Exec;
    hide Partly;
    if a != [] {
      assert (a + b)[1..] == a[1..] + b;
      if Exec(db, a[0]).Some? {
        CrashedPrefix(Exec(db, a[0]).value, a[1..], b, db');
      }
    }
  }
}
