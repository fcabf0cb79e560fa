/** The migration runner as a state machine that may crash inside any write and is started again.
    A migration reads what it needs and then performs a fixed list of writes. */
module MigrationState {
  import opened Optional
  import opened SdeData

  datatype Migration = ImportRawTables | BuildLookups | AddReactions

  /** The sorted list of migrations this model covers. */
  const MIGRATIONS: seq<Migration> := [ImportRawTables, BuildLookups, AddReactions]

  /** The ids in _migrations: one per migration and one per imported table. */
  datatype RecordId = Whole(migration: Migration) | Step(table: Table)

  datatype Collection = SdeTypes | SdeBlueprints

  datatype Db = Db(tables: Tables, sdeTypes: map<int, Doc>, sdeBlueprints: map<int, Doc>, records: set<RecordId>) {
    function Docs(c: Collection): map<int, Doc> {
      match c
      case SdeTypes => sdeTypes
      case SdeBlueprints => sdeBlueprints
    }

    function WithDocs(c: Collection, docs: map<int, Doc>): Db {
      match c
      case SdeTypes => this.(sdeTypes := docs)
      case SdeBlueprints => this.(sdeBlueprints := docs)
    }
  }

  const EMPTY: Db := Db(Tables([], [], [], []), map[], map[], {})

  /** The dump files that are present. */
  type Files = map<Table, seq<RawRow>>

  // Writes, and what a crash inside one may leave behind

  datatype Write =
    | DeleteRows(table: Table)
    | InsertRows(table: Table, rows: seq<RawRow>)
    | DeleteDocs(c: Collection)
    | InsertDocs(c: Collection, docs: seq<Doc>)
    | UpsertDocs(docs: seq<Doc>)
    | FillActivity
    | RecordDone(id: RecordId)

  /** A bulk insert of documents with ids: refused when an id is taken. */
  function Added(m: map<int, Doc>, docs: seq<Doc>): Option<map<int, Doc>> {
    if docs == [] then Some(m)
    else
      var before := Added(m, docs[..|docs| - 1]);
      var last := docs[|docs| - 1];
      if before.None? || last.id in before.value then None else Some(before.value[last.id := last])
  }

  /** An upsert of each document, which sets every field. */
  function Upserted(m: map<int, Doc>, docs: seq<Doc>): map<int, Doc> {
    if docs == [] then m
    else var last := docs[|docs| - 1];
      Upserted(m, docs[..|docs| - 1])[last.id := last]
  }

  function FillDoc(doc: Doc): Doc {
    if doc.BlueprintDoc? && doc.activityId == None then doc.(activityId := Some(MANUFACTURING)) else doc
  }

  function Filled(m: map<int, Doc>): map<int, Doc> {
    map id | id in m :: FillDoc(m[id])
  }

  /** A completed write; None when the server refuses it. */
  function Exec(db: Db, w: Write): Option<Db> {
    match w
    case DeleteRows(t) => Some(db.(tables := db.tables.With(t, [])))
    case InsertRows(t, rows) => Some(db.(tables := db.tables.With(t, db.tables.Rows(t) + rows)))
    case DeleteDocs(c) => Some(db.WithDocs(c, map[]))
    case InsertDocs(c, docs) =>
      var added := Added(db.Docs(c), docs);
      if added.None? then None else Some(db.WithDocs(c, added.value))
    case UpsertDocs(docs) => Some(db.(sdeBlueprints := Upserted(db.sdeBlueprints, docs)))
    case FillActivity => Some(db.(sdeBlueprints := Filled(db.sdeBlueprints)))
    case RecordDone(id) => Some(db.(records := db.records + {id}))
  }

  /** Any part of the write done: some rows gone, some documents in, in any order. */
  ghost predicate Partly(db: Db, w: Write, db': Db) {
    match w
    case DeleteRows(t) =>
      var rows := db'.tables.Rows(t);
      db' == db.(tables := db.tables.With(t, rows)) && multiset(rows) <= multiset(db.tables.Rows(t))
    case InsertRows(t, batch) =>
      var rows := db'.tables.Rows(t);
      && db' == db.(tables := db.tables.With(t, rows))
      && multiset(db.tables.Rows(t)) <= multiset(rows) <= multiset(db.tables.Rows(t)) + multiset(batch)
    case DeleteDocs(c) =>
      var m, m' := db.Docs(c), db'.Docs(c);
      db' == db.WithDocs(c, m') && forall id :: id in m' ==> id in m && m'[id] == m[id]
    case InsertDocs(c, docs) =>
      var m, m' := db.Docs(c), db'.Docs(c);
      db' == db.WithDocs(c, m') && PartlyAdded(m, docs, m')
    case UpsertDocs(docs) =>
      var m, m' := db.sdeBlueprints, db'.sdeBlueprints;
      db' == db.(sdeBlueprints := m') && PartlyUpserted(m, docs, m')
    case FillActivity =>
      var m, m' := db.sdeBlueprints, db'.sdeBlueprints;
      db' == db.(sdeBlueprints := m') && PartlyFilled(m, m')
    case RecordDone(id) => db' == db
  }

  ghost predicate PartlyAdded(m: map<int, Doc>, docs: seq<Doc>, m': map<int, Doc>) {
    && (forall id :: id in m ==> id in m' && m'[id] == m[id])
    && (forall id :: id in m' && id !in m ==> m'[id] in docs && m'[id].id == id)
  }

  ghost predicate PartlyUpserted(m: map<int, Doc>, docs: seq<Doc>, m': map<int, Doc>) {
    && (forall id :: id in m ==> id in m')
    && (forall id :: id in m' ==> (id in m && m'[id] == m[id]) || (m'[id] in docs && m'[id].id == id))
  }

  ghost predicate PartlyFilled(m: map<int, Doc>, m': map<int, Doc>) {
    m'.Keys == m.Keys && forall id :: id in m ==> m'[id] == m[id] || m'[id] == FillDoc(m[id])
  }

  // Migrations as lists of writes, computed from what they read first

  function TableScript(t: Table, rows: seq<RawRow>): seq<Write> {
    [DeleteRows(t), InsertRows(t, rows), RecordDone(Step(t))]
  }

  /** 0001: each table whose step is not recorded is emptied, filled and recorded. */
  function ImportScript(files: Files, records: set<RecordId>, tables: seq<Table>): seq<Write> {
    if tables == [] then []
    else
      var t, rest := tables[0], ImportScript(files, records, tables[1..]);
      if t in files && Step(t) !in records then
        TableScript(t, files[t]) + rest
      else rest
  }

  const UPSERT_BATCH: nat := 500

  /** The updates of a batch are issued together; `finish(k, batch)` is the order in which those of the `k`-th
      batch take effect. */
  type Finish = (nat, seq<Doc>) -> seq<Doc>

  ghost predicate InSomeOrder(finish: Finish) {
    forall k: nat, batch: seq<Doc> :: multiset(finish(k, batch)) == multiset(batch)
  }

  function BatchSize(docs: seq<Doc>): (n: nat)
    ensures n <= |docs| && n <= UPSERT_BATCH && (docs != [] ==> n > 0)
  {
    if |docs| <= UPSERT_BATCH then |docs| else UPSERT_BATCH
  }

  /** 0008 from its `k`-th batch on: one batch of upserts after the other. */
  function BatchWrites(finish: Finish, docs: seq<Doc>, k: nat): seq<Write>
    decreases |docs|
  {
    if docs == [] then []
    else
      var n := BatchSize(docs);
      [UpsertDocs(finish(k, docs[..n]))] + BatchWrites(finish, docs[n..], k + 1)
  }

  /** The documents in the order in which their upserts take effect. */
  function Finished(finish: Finish, docs: seq<Doc>, k: nat): seq<Doc>
    decreases |docs|
  {
    if docs == [] then []
    else
      var n := BatchSize(docs);
      finish(k, docs[..n]) + Finished(finish, docs[n..], k + 1)
  }

  /** 0002. */
  function LookupScript(tables: Tables): seq<Write> {
    [DeleteDocs(SdeTypes), InsertDocs(SdeTypes, TypeDocs(tables.types)),
     DeleteDocs(SdeBlueprints), InsertDocs(SdeBlueprints, ManufacturingDocs(tables))]
  }

  /** 0008. */
  function ReactionScript(finish: Finish, tables: Tables): seq<Write> {
    BatchWrites(finish, ReactionDocs(tables), 0) + [FillActivity]
  }

  function Script(files: Files, finish: Finish, db: Db, m: Migration): seq<Write> {
    match m
    case ImportRawTables => ImportScript(files, db.records, TABLES)
    case BuildLookups => LookupScript(db.tables)
    case AddReactions => ReactionScript(finish, db.tables)
  }

  function ExecAll(db: Db, script: seq<Write>): Option<Db>
    decreases |script|
  {
    if script == [] then Some(db)
    else
      var next := Exec(db, script[0]);
      if next.None? then None else ExecAll(next.value, script[1..])
  }

  /** A run that dies somewhere in the script, or right after it. */
  ghost predicate Crashed(db: Db, script: seq<Write>, db': Db)
    decreases |script|
  {
    || db' == db
    || (script != [] && Partly(db, script[0], db'))
    || (script != [] && Exec(db, script[0]).Some? && Crashed(Exec(db, script[0]).value, script[1..], db'))
  }

  function FullScript(files: Files, finish: Finish, db: Db, m: Migration): seq<Write> {
    Script(files, finish, db, m) + [RecordDone(Whole(m))]
  }

  /** run_migrations, uninterrupted: migrations recorded at the start are skipped. */
  function CompleteRun(files: Files, finish: Finish, db: Db, pending: seq<Migration>): Option<Db>
    decreases |pending|
  {
    if pending == [] then Some(db)
    else if Whole(pending[0]) in db.records then CompleteRun(files, finish, db, pending[1..])
    else
      var next := ExecAll(db, FullScript(files, finish, db, pending[0]));
      if next.None? then None else CompleteRun(files, finish, next.value, pending[1..])
  }

  /** run_migrations, dying at any point. */
  ghost predicate CrashedRun(files: Files, finish: Finish, db: Db, pending: seq<Migration>, db': Db)
    decreases |pending|
  {
    if pending == [] then db' == db
    else if Whole(pending[0]) in db.records then CrashedRun(files, finish, db, pending[1..], db')
    else
      || Crashed(db, FullScript(files, finish, db, pending[0]), db')
      || (var next := ExecAll(db, FullScript(files, finish, db, pending[0]));
          next.Some? && CrashedRun(files, finish, next.value, pending[1..], db'))
  }

  /** An end that an uninterrupted run may have, depending on the order in which concurrent updates finish;
      None when a migration raises. */
  ghost predicate MayEnd(files: Files, db: Db, end: Option<Db>) {
    exists finish :: InSomeOrder(finish) && CompleteRun(files, finish, db, MIGRATIONS) == end
  }

  /** A state that a run which dies may leave. */
  ghost predicate MayLeave(files: Files, db: Db, db': Db) {
    exists finish :: InSomeOrder(finish) && CrashedRun(files, finish, db, MIGRATIONS, db')
  }

  // What the collections end up as

  function FileRows(files: Files, t: Table): seq<RawRow> {
    if t in files then files[t] else []
  }

  function SourceTables(files: Files): Tables {
    Tables(FileRows(files, Activity), FileRows(files, Materials), FileRows(files, Products), FileRows(files, Types))
  }

  /** The effect of 0008 on sde_blueprints. */
  function WithReactions(files: Files, finish: Finish, blueprints: map<int, Doc>): map<int, Doc> {
    Filled(Upserted(blueprints, Finished(finish, ReactionDocs(SourceTables(files)), 0)))
  }

  predicate DistinctIds(docs: seq<Doc>) {
    forall i, j :: 0 <= i < j < |docs| ==> docs[i].id != docs[j].id
  }

  predicate DistinctTypes(rows: seq<RawRow>) {
    forall i, j :: 0 <= i < j < |rows| ==> rows[i].typeID != rows[j].typeID
  }

  predicate DistinctProducts(rows: seq<RawRow>, activity: int) {
    forall i, j :: 0 <= i < j < |rows| && rows[i].activityID == activity && rows[j].activityID == activity ==>
                     rows[i].typeID != rows[j].typeID
  }

  /** The dump lists no type twice and no blueprint's manufacturing product twice. */
  predicate Importable(files: Files) {
    DistinctTypes(FileRows(files, Types)) && DistinctProducts(FileRows(files, Products), MANUFACTURING)
  }

  /** A bulk insert goes through exactly when no id is taken, neither before nor twice in the batch. */
  lemma {:induction false} AddedExactlyWhen(m: map<int, Doc>, docs: seq<Doc>)
    ensures Added(m, docs).Some? <==> DistinctIds(docs) && forall doc :: doc in docs ==> doc.id !in m
    ensures Added(m, docs).Some? ==>
              forall id :: id in Added(m, docs).value <==> id in m || exists i :: 0 <= i < |docs| && docs[i].id == id
  {
    if docs != [] {
      var front, last := docs[..|docs| - 1], docs[|docs| - 1];
      AddedExactlyWhen(m, front);
      assert docs == front + [last];
      assert docs[|docs| - 1].id == last.id;
      assert DistinctIds(docs) <==> DistinctIds(front) && forall i :: 0 <= i < |front| ==> front[i].id != last.id;
    }
  }

  lemma TypeDocsDistinct(rows: seq<RawRow>)
    ensures DistinctIds(TypeDocs(rows)) <==> DistinctTypes(rows)
  {
    var docs := TypeDocs(rows);
    assert forall i :: 0 <= i < |rows| ==> docs[i].id == rows[i].typeID;
  }

  predicate HasProduct(rows: seq<RawRow>, activity: int, id: int) {
    exists i :: 0 <= i < |rows| && rows[i].activityID == activity && rows[i].typeID == id
  }

  lemma {:induction false} JoinedIds(tables: Tables, rows: seq<RawRow>, activity: int, tag: Option<int>, id: int)
    ensures (exists doc :: doc in JoinedDocs(tables, rows, activity, tag) && doc.id == id)
       <==> HasProduct(rows, activity, id)
  {
    if rows != [] {
      var front, last := rows[..|rows| - 1], rows[|rows| - 1];
      JoinedIds(tables, front, activity, tag, id);
      assert rows == front + [last];
      assert HasProduct(rows, activity, id) <==>
             HasProduct(front, activity, id) || (last.activityID == activity && last.typeID == id);
      if last.activityID == activity {
        JoinedOneMore(JoinedDocs(tables, front, activity, tag), JoinedDoc(tables, activity, tag, last), id);
      }
    }
  }

  lemma JoinedOneMore(docs: seq<Doc>, last: Doc, id: int)
    ensures (exists doc :: doc in docs + [last] && doc.id == id)
       <==> (exists doc :: doc in docs && doc.id == id) || last.id == id
    ensures DistinctIds(docs + [last]) <==> DistinctIds(docs) && !exists doc :: doc in docs && doc.id == last.id
  {
    var all := docs + [last];
    assert all[|docs|] == last && last in all;
    assert forall doc :: doc in docs ==> doc in all;
    if DistinctIds(all) {
      forall doc | doc in docs
        ensures doc.id != last.id
      {
        var i :| 0 <= i < |docs| && docs[i] == doc;
        assert all[i].id != all[|docs|].id;
      }
      forall i, j | 0 <= i < j < |docs|
        ensures docs[i].id != docs[j].id
      {
        assert all[i].id != all[j].id;
      }
    }
    if DistinctIds(docs) && !exists doc :: doc in docs && doc.id == last.id {
      forall i, j | 0 <= i < j < |all|
        ensures all[i].id != all[j].id
      {
        assert all[i] == docs[i] && all[i] in docs;
        assert j < |docs| ==> all[j] == docs[j];
      }
    }
  }

  lemma {:induction false} JoinedDocsDistinct(tables: Tables, rows: seq<RawRow>, activity: int, tag: Option<int>)
    ensures DistinctIds(JoinedDocs(tables, rows, activity, tag)) <==> DistinctProducts(rows, activity)
  {
    hide DistinctIds, JoinedDoc, HasProduct;
    if rows != [] {
      var front, last := rows[..|rows| - 1], rows[|rows| - 1];
      JoinedDocsDistinct(tables, front, activity, tag);
      DistinctProductsNext(rows, activity);
      if last.activityID == activity {
        JoinedOneMore(JoinedDocs(tables, front, activity, tag), JoinedDoc(tables, activity, tag, last), last.typeID);
        JoinedIds(tables, front, activity, tag, last.typeID);
        JoinedDocId(tables, activity, tag, last);
      } else {
        assert JoinedDocs(tables, front, activity, tag) + [] == JoinedDocs(tables, front, activity, tag);
      }
    } else {
      NoDocs();
    }
  }

  lemma NoDocs()
    ensures DistinctIds([])
  {
  }

  lemma JoinedDocId(tables: Tables, activity: int, tag: Option<int>, row: RawRow)
    ensures JoinedDoc(tables, activity, tag, row).id == row.typeID
  {
  }

  lemma DistinctProductsNext(rows: seq<RawRow>, activity: int)
    requires rows != []
    ensures var front, last := rows[..|rows| - 1], rows[|rows| - 1];
      DistinctProducts(rows, activity) <==>
      DistinctProducts(front, activity) && (last.activityID == activity ==> !HasProduct(front, activity, last.typeID))
  {
    var front, last := rows[..|rows| - 1], rows[|rows| - 1];
    assert forall i :: 0 <= i < |front| ==> front[i] == rows[i];
    if DistinctProducts(front, activity) &&
       (last.activityID == activity ==> !HasProduct(front, activity, last.typeID)) {
      forall i, j | 0 <= i < j < |rows| && rows[i].activityID == activity && rows[j].activityID == activity
        ensures rows[i].typeID != rows[j].typeID
      {
        assert front[i] == rows[i];
      }
    }
  }

  function TypesResult(files: Files): (result: Option<map<int, Doc>>)
    ensures result.Some? <==> DistinctTypes(FileRows(files, Types))
  {
    TypeDocsDistinct(FileRows(files, Types));
    AddedExactlyWhen(map[], TypeDocs(FileRows(files, Types)));
    Added(map[], TypeDocs(FileRows(files, Types)))
  }

  function BlueprintsResult(files: Files): (result: Option<map<int, Doc>>)
    ensures result.Some? <==> DistinctProducts(FileRows(files, Products), MANUFACTURING)
  {
    JoinedDocsDistinct(SourceTables(files), FileRows(files, Products), MANUFACTURING, None);
    AddedExactlyWhen(map[], ManufacturingDocs(SourceTables(files)));
    Added(map[], ManufacturingDocs(SourceTables(files)))
  }

  function AllRecords(files: Files): set<RecordId> {
    {Whole(ImportRawTables), Whole(BuildLookups), Whole(AddReactions)} + set t | t in files :: Step(t)
  }

  function Final(files: Files, finish: Finish): Db
    requires Importable(files)
  {
    Db(SourceTables(files), TypesResult(files).value, WithReactions(files, finish, BlueprintsResult(files).value),
       AllRecords(files))
  }

  // The invariant over all runs

  ghost predicate ImportInv(files: Files, db: Db) {
    && (forall t :: Step(t) in db.records ==> t in files && db.tables.Rows(t) == files[t])
    && (forall t :: t !in files ==> db.tables.Rows(t) == [])
    && (Whole(ImportRawTables) in db.records ==> forall t :: t in files ==> Step(t) in db.records)
  }

  predicate Lists(docs: seq<Doc>, id: int) {
    exists doc :: doc in docs && doc.id == id
  }

  /** The same documents, but for those that `docs` replaces and for the default activity. */
  ghost predicate SameBeyond(docs: seq<Doc>, a: map<int, Doc>, b: map<int, Doc>) {
    forall id :: !Lists(docs, id) ==> (id in a <==> id in b) && (id in a ==> FillDoc(a[id]) == FillDoc(b[id]))
  }

  /** What 0002 built, whatever 0008 has done to it. */
  ghost predicate BuiltFrom(files: Files, blueprints: map<int, Doc>)
    requires Importable(files)
  {
    SameBeyond(ReactionDocs(SourceTables(files)), blueprints, BlueprintsResult(files).value)
  }

  /** What 0002 built, with the whole of 0008 done to it. */
  ghost predicate Reacted(files: Files, blueprints: map<int, Doc>)
    requires Importable(files)
  {
    exists finish :: InSomeOrder(finish) && blueprints == WithReactions(files, finish, BlueprintsResult(files).value)
  }

  ghost predicate LookupInv(files: Files, db: Db) {
    && (Whole(BuildLookups) in db.records ==>
          && Whole(ImportRawTables) in db.records
          && Importable(files)
          && db.sdeTypes == TypesResult(files).value
          && BuiltFrom(files, db.sdeBlueprints))
    && (Whole(AddReactions) in db.records ==>
          && Whole(BuildLookups) in db.records
          && Importable(files)
          && Reacted(files, db.sdeBlueprints))
  }

  ghost predicate Inv(files: Files, db: Db) {
    ImportInv(files, db) && LookupInv(files, db)
  }
}
