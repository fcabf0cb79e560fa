/** `sync_indexes`: bringing a database's indexes to a configuration through a side table of records,
    with a crash possible between any two of its writes. */
module IndexSync {
  import opened Maps
  import opened Optional
  import opened IndexConfig

  datatype IndexKey = IndexKey(collection: string, name: string)

  /** What Mongo keeps of a spec: its keys and the allowed options. */
  datatype IndexDef = IndexDef(keys: seq<KeyPart>, unique: Option<bool>, sparse: Option<bool>,
                               expireAfterSeconds: Option<int>)

  datatype SyncRecord = SyncRecord(collection: string, name: string, spec: Spec)

  datatype Db = Db(indexes: map<IndexKey, IndexDef>, records: map<string, SyncRecord>)

  /** One configured index. */
  datatype Entry = Entry(collection: string, spec: Spec) {
    function Key(): IndexKey { IndexKey(collection, spec.name) }

    function Id(): string { RecordId(collection, spec.name) }

    function Record(): SyncRecord { SyncRecord(collection, spec.name, spec) }
  }

  function RecordId(collection: string, name: string): string {
    collection + "." + name
  }

  function Definition(spec: Spec): IndexDef {
    IndexDef(spec.keys, spec.unique, spec.sparse, spec.expireAfterSeconds)
  }

  function EntriesOf(buckets: seq<Bucket>): seq<Entry> {
    if buckets == [] then []
    else BucketEntries(buckets[0].collection, buckets[0].specs) + EntriesOf(buckets[1..])
  }

  function BucketEntries(collection: string, specs: seq<Spec>): seq<Entry> {
    seq(|specs|, i requires 0 <= i < |specs| => Entry(collection, specs[i]))
  }

  // A complete sync

  predicate UpToDate(db: Db, e: Entry) {
    e.Id() in db.records && db.records[e.Id()].spec == e.spec
  }

  function SyncEntry(db: Db, e: Entry): Db {
    if UpToDate(db, e) then db
    else Db(db.indexes[e.Key() := Definition(e.spec)], db.records[e.Id() := e.Record()])
  }

  function SyncEntries(db: Db, entries: seq<Entry>): Db
    decreases |entries|
  {
    if entries == [] then db else SyncEntries(SyncEntry(db, entries[0]), entries[1..])
  }

  function DesiredIds(entries: seq<Entry>): set<string> {
    set e | e in entries :: e.Id()
  }

  function StaleIds(db: Db, desired: set<string>): set<string> {
    set id | id in db.records && id !in desired
  }

  function KeyOf(r: SyncRecord): IndexKey {
    IndexKey(r.collection, r.name)
  }

  /** Records no longer configured go, with their indexes. */
  function WithoutStale(db: Db, ids: set<string>): Db {
    Db(db.indexes - (set id | id in ids && id in db.records :: KeyOf(db.records[id])), db.records - ids)
  }

  function Synced(db: Db, entries: seq<Entry>): Db {
    var after := SyncEntries(db, entries);
    WithoutStale(after, StaleIds(after, DesiredIds(entries)))
  }

  // A sync that dies

  ghost predicate CrashedEntries(db: Db, entries: seq<Entry>, db': Db)
    decreases |entries|
  {
    || db' == db
    || (entries != [] &&
        var e := entries[0];
        || (!UpToDate(db, e) && db' == db.(indexes := db.indexes - {e.Key()}))
        || (!UpToDate(db, e) && db' == db.(indexes := db.indexes[e.Key() := Definition(e.spec)]))
        || CrashedEntries(SyncEntry(db, e), entries[1..], db'))
  }

  /** Some stale records are gone with their indexes, others have lost only their index. */
  ghost predicate CrashedCleanup(db: Db, desired: set<string>, db': Db) {
    exists dropped, gone ::
      && gone <= dropped <= StaleIds(db, desired)
      && db' == Db(WithoutStale(db, dropped).indexes, db.records - gone)
  }

  ghost predicate CrashedSync(db: Db, entries: seq<Entry>, db': Db) {
    || CrashedEntries(db, entries, db')
    || CrashedCleanup(SyncEntries(db, entries), DesiredIds(entries), db')
  }

  // Conditions on the configuration and the records

  predicate SingleValued(entries: seq<Entry>) {
    forall a, b :: a in entries && b in entries && a.Key() == b.Key() ==> a.spec == b.spec
  }

  /** Each record sits under its own id. */
  predicate WellKept(db: Db) {
    forall id :: id in db.records ==> id == RecordId(db.records[id].collection, db.records[id].name)
  }

  /** No two different indexes share a record id. */
  ghost predicate Unambiguous(db: Db, entries: seq<Entry>) {
    && (forall a, b :: a in entries && b in entries && a.Id() == b.Id() ==> a.Key() == b.Key())
    && (forall e :: e in entries && e.Id() in db.records ==> KeyOf(db.records[e.Id()]) == e.Key())
  }

  /** Every record matches a real index. */
  predicate Sound(db: Db) {
    forall id :: id in db.records ==>
      var r := db.records[id];
      KeyOf(r) in db.indexes && db.indexes[KeyOf(r)] == Definition(r.spec)
  }

  /** An entry recorded as done is done. */
  predicate DoneIsDone(db: Db, entries: seq<Entry>) {
    forall e :: e in entries && UpToDate(db, e) ==>
                  e.Key() in db.indexes && db.indexes[e.Key()] == Definition(e.spec)
  }

  /** What crashed syncs to this configuration keep. */
  ghost predicate Trusted(db: Db, entries: seq<Entry>) {
    WellKept(db) && Unambiguous(db, entries) && DoneIsDone(db, entries)
  }

  lemma SoundIsTrusted(db: Db, entries: seq<Entry>)
    requires Sound(db) && WellKept(db) && Unambiguous(db, entries)
    ensures Trusted(db, entries)
  {
  }

  // Where a complete sync ends, in closed form

  /** The records are exactly those of the entries; a configured index is as configured; any other
      index is as it was, unless it belonged to a record that is not configured. */
  ghost predicate Reached(db: Db, entries: seq<Entry>, db': Db) {
    && (forall id :: id in db'.records <==> id in DesiredIds(entries))
    && (forall e :: e in entries ==> db'.records[e.Id()] == e.Record())
    && (forall e :: e in entries ==> e.Key() in db'.indexes && db'.indexes[e.Key()] == Definition(e.spec))
    && (forall key :: (forall e :: e in entries ==> e.Key() != key) ==>
                        if StaleKey(db, DesiredIds(entries), key)
                        then key !in db'.indexes
                        else SameAt(db.indexes, db'.indexes, key))
  }

  /** The index belongs to a record that is not configured. */
  ghost predicate StaleKey(db: Db, desired: set<string>, key: IndexKey) {
    exists id :: id in db.records && id !in desired && KeyOf(db.records[id]) == key
  }

  predicate SameAt(a: map<IndexKey, IndexDef>, b: map<IndexKey, IndexDef>, key: IndexKey) {
    (key in a <==> key in b) && (key in a ==> a[key] == b[key])
  }

  /** The entry's index exists as its spec says, and is recorded under "collection.name". */
  predicate InPlace(db: Db, e: Entry) {
    var key, id := IndexKey(e.collection, e.spec.name), e.collection + "." + e.spec.name;
    && key in db.indexes && db.indexes[key].keys == e.spec.keys && db.indexes[key].unique == e.spec.unique
    && db.indexes[key].sparse == e.spec.sparse && db.indexes[key].expireAfterSeconds == e.spec.expireAfterSeconds
    && id in db.records && db.records[id] == SyncRecord(e.collection, e.spec.name, e.spec)
  }

  /** Some entry is recorded under the id. */
  predicate IsIdOf(entries: seq<Entry>, id: string) {
    exists e :: e in entries && e.collection + "." + e.spec.name == id
  }

  predicate IsIndexOf(entries: seq<Entry>, key: IndexKey) {
    exists e :: e in entries && e.collection == key.collection && e.spec.name == key.name
  }

  /** The index belongs to a record under an id that no entry has. */
  predicate WasDropped(db: Db, entries: seq<Entry>, key: IndexKey) {
    exists id :: id in db.records && !IsIdOf(entries, id) &&
                 db.records[id].collection == key.collection && db.records[id].name == key.name
  }

  /** Where a complete sync from `db` should end: every entry in place, no other record, and of the other indexes
      exactly those gone that belonged to a record no entry has. */
  ghost predicate AsConfigured(db: Db, entries: seq<Entry>, db': Db) {
    && (forall e :: e in entries ==> InPlace(db', e))
    && (forall id :: id in db'.records ==> IsIdOf(entries, id))
    && forall key :: !IsIndexOf(entries, key) ==>
         if WasDropped(db, entries, key) then key !in db'.indexes
         else (key in db.indexes <==> key in db'.indexes) && (key in db.indexes ==> db'.indexes[key] == db.indexes[key])
  }

  lemma SyncOne(db: Db, e: Entry, all: seq<Entry>)
    requires Trusted(db, all) && SingleValued(all) && e in all
    ensures Trusted(SyncEntry(db, e), all)
    ensures UpToDate(SyncEntry(db, e), e)
    ensures forall a :: a in all && UpToDate(db, a) ==> UpToDate(SyncEntry(db, e), a)
    ensures forall id :: id in SyncEntry(db, e).records <==> id in db.records || id == e.Id()
    ensures forall id :: id in db.records && id != e.Id() ==> SyncEntry(db, e).records[id] == db.records[id]
    ensures forall key :: key != e.Key() ==> SameAt(db.indexes, SyncEntry(db, e).indexes, key)
  {
    hide Definition;
  }

  lemma {:induction false} SyncRest(db: Db, rest: seq<Entry>, all: seq<Entry>)
    requires Trusted(db, all) && SingleValued(all) && forall e :: e in rest ==> e in all
    ensures var after := SyncEntries(db, rest);
      && Trusted(after, all)
      && (forall e :: e in rest ==> UpToDate(after, e))
      && (forall a :: a in all && UpToDate(db, a) ==> UpToDate(after, a))
      && (forall id :: id in after.records <==> id in db.records || id in DesiredIds(rest))
      && (forall id :: id in db.records && id !in DesiredIds(rest) ==> after.records[id] == db.records[id])
      && (forall key :: (forall e :: e in rest ==> e.Key() != key) ==> SameAt(db.indexes, after.indexes, key))
    decreases |rest|
  {
    hide Trusted;
    hide UpToDate;
    hide SyncEntry;
    hide SingleValued;
    if rest != [] {
      var e, tail := rest[0], rest[1..];
      assert rest == [e] + tail;
      SyncOne(db, e, all);
      SyncRest(SyncEntry(db, e), tail, all);
      assert DesiredIds(rest) == DesiredIds(tail) + {e.Id()};
      forall key | forall x :: x in rest ==> x.Key() != key
        ensures SameAt(db.indexes, SyncEntries(db, rest).indexes, key)
      {
        assert forall x :: x in tail ==> x in rest;
        assert SameAt(db.indexes, SyncEntry(db, e).indexes, key);
        assert SameAt(SyncEntry(db, e).indexes, SyncEntries(db, rest).indexes, key);
      }
    }
  }

  /** A stale record never owns a configured index, nor sits under a configured id. */
  lemma StaleIsApart(db: Db, entries: seq<Entry>, id: string, e: Entry)
    requires WellKept(db) && id in StaleIds(db, DesiredIds(entries)) && e in entries
    ensures KeyOf(db.records[id]) != e.Key() && e.Id() != id
  {
    assert e.Id() in DesiredIds(entries);
  }

  lemma IdsOfEntries(entries: seq<Entry>)
    ensures forall id :: IsIdOf(entries, id) <==> id in DesiredIds(entries)
  {
    forall id
      ensures IsIdOf(entries, id) <==> id in DesiredIds(entries)
    {
      if IsIdOf(entries, id) {
        var e :| e in entries && e.collection + "." + e.spec.name == id;
        assert e.Id() == id;
      }
    }
  }

  lemma DroppedIsStale(db: Db, entries: seq<Entry>, key: IndexKey)
    ensures WasDropped(db, entries, key) <==> StaleKey(db, DesiredIds(entries), key)
    ensures !IsIndexOf(entries, key) ==> forall e :: e in entries ==> e.Key() != key
  {
    hide DesiredIds, IsIdOf;
    IdsOfEntries(entries);
  }

  // The order of the entries, and what it decides

  /** The entries from `start` to `end` are those of the bucket, in its order. */
  predicate EntriesOfBucket(bucket: Bucket, entries: seq<Entry>, start: nat, end: nat) {
    && start <= end <= |entries| && end - start == |bucket.specs|
    && forall i :: start <= i < end ==>
         entries[i].collection == bucket.collection && entries[i].spec == bucket.specs[i - start]
  }

  predicate EntriesAt(buckets: seq<Bucket>, entries: seq<Entry>, offsets: seq<nat>) {
    && |offsets| == |buckets| + 1 && offsets[0] == 0 && offsets[|buckets|] == |entries|
    && forall k :: 0 <= k < |buckets| ==> EntriesOfBucket(buckets[k], entries, offsets[k], offsets[k + 1])
  }

  /** The entries are the specs of the buckets, bucket after bucket. */
  ghost predicate InBucketOrder(buckets: seq<Bucket>, entries: seq<Entry>) {
    exists offsets :: EntriesAt(buckets, entries, offsets)
  }

  lemma EntriesAfter(bucket: Bucket, entries: seq<Entry>, start: nat, end: nat, before: seq<Entry>)
    requires EntriesOfBucket(bucket, entries, start, end)
    ensures EntriesOfBucket(bucket, before + entries, |before| + start, |before| + end)
  {
    forall i | |before| + start <= i < |before| + end
      ensures (before + entries)[i].collection == bucket.collection
      ensures (before + entries)[i].spec == bucket.specs[i - (|before| + start)]
    {
      assert (before + entries)[i] == entries[i - |before|];
    }
  }

  lemma {:induction false} EntriesOfAt(buckets: seq<Bucket>) returns (offsets: seq<nat>)
    ensures EntriesAt(buckets, EntriesOf(buckets), offsets)
  {
    if buckets == [] {
      offsets := [0];
    } else {
      var first, rest := BucketEntries(buckets[0].collection, buckets[0].specs), EntriesOf(buckets[1..]);
      var tail := EntriesOfAt(buckets[1..]);
      var n := |first|;
      offsets := [0] + seq(|tail|, i requires 0 <= i < |tail| => n + tail[i]);
      assert EntriesOfBucket(buckets[0], first + rest, 0, n);
      hide EntriesOfBucket;
      forall k | 0 <= k < |buckets|
        ensures EntriesOfBucket(buckets[k], first + rest, offsets[k], offsets[k + 1])
      {
        if k > 0 {
          assert EntriesOfBucket(buckets[1..][k - 1], rest, tail[k - 1], tail[k]);
          EntriesAfter(buckets[k], rest, tail[k - 1], tail[k], first);
        }
      }
    }
  }

  lemma EntriesInBucketOrder(buckets: seq<Bucket>)
    ensures InBucketOrder(buckets, EntriesOf(buckets))
  {
    var offsets := EntriesOfAt(buckets);
  }

  predicate HasId(e: Entry, id: string) {
    e.collection + "." + e.spec.name == id
  }

  /** The spec is that of the last entry with the record id. */
  predicate LastSpec(entries: seq<Entry>, id: string, spec: Spec) {
    exists i :: 0 <= i < |entries| && HasId(entries[i], id) && entries[i].spec == spec &&
                forall j :: i < j < |entries| ==> !HasId(entries[j], id)
  }

  predicate SomeHasId(entries: seq<Entry>, id: string) {
    exists i :: 0 <= i < |entries| && HasId(entries[i], id)
  }

  /** There is a record for every id, and it holds the last spec. */
  ghost predicate RecordsAreLast(entries: seq<Entry>, records: map<string, SyncRecord>) {
    && (forall id :: id in records <==> SomeHasId(entries, id))
    && forall id :: id in records ==> LastSpec(entries, id, records[id].spec)
  }

  lemma HasIdLater(entries: seq<Entry>, id: string, spec: Spec)
    requires entries != []
    ensures SomeHasId(entries, id) <==> HasId(entries[0], id) || SomeHasId(entries[1..], id)
    ensures LastSpec(entries[1..], id, spec) ==> LastSpec(entries, id, spec)
    ensures HasId(entries[0], id) && !SomeHasId(entries[1..], id) ==> LastSpec(entries, id, entries[0].spec)
  {
    hide HasId;
    var rest := entries[1..];
    assert forall j :: 1 <= j < |entries| ==> entries[j] == rest[j - 1];
    if SomeHasId(rest, id) {
      var i :| 0 <= i < |rest| && HasId(rest[i], id);
      assert HasId(entries[i + 1], id);
    }
    if LastSpec(rest, id, spec) {
      var i :| 0 <= i < |rest| && HasId(rest[i], id) && rest[i].spec == spec &&
               forall j :: i < j < |rest| ==> !HasId(rest[j], id);
      assert HasId(entries[i + 1], id);
    }
  }

  /** Syncing the entries one after the other, the last spec for an id is the one recorded. */
  lemma {:induction false} LastSpecWins(db: Db, entries: seq<Entry>, id: string)
    ensures var records := SyncEntries(db, entries).records;
      if SomeHasId(entries, id) then id in records && LastSpec(entries, id, records[id].spec)
      else (id in records <==> id in db.records) && (id in db.records ==> records[id] == db.records[id])
    decreases |entries|
  {
    hide LastSpec, SomeHasId, Definition;
    if entries == [] {
      NoneHasId(id);
    } else {
      var next := SyncEntry(db, entries[0]);
      LastSpecWins(next, entries[1..], id);
      var records := SyncEntries(next, entries[1..]).records;
      HasIdLater(entries, id, if id in records then records[id].spec else entries[0].spec);
    }
  }

  lemma NoneHasId(id: string)
    ensures !SomeHasId([], id)
  {
  }

  lemma SyncedRecordsAreLast(db: Db, entries: seq<Entry>)
    ensures RecordsAreLast(entries, Synced(db, entries).records)
  {
    hide LastSpec, SyncEntries;
    forall id
      ensures id in Synced(db, entries).records <==> SomeHasId(entries, id)
      ensures SomeHasId(entries, id) ==> LastSpec(entries, id, Synced(db, entries).records[id].spec)
    {
      LastSpecWins(db, entries, id);
      DesiredHasId(entries, id);
    }
  }

  lemma DesiredHasId(entries: seq<Entry>, id: string)
    ensures id in DesiredIds(entries) <==> SomeHasId(entries, id)
  {
    if id in DesiredIds(entries) {
      var e :| e in entries && e.Id() == id;
      var i :| 0 <= i < |entries| && entries[i] == e;
      assert HasId(entries[i], id);
    }
    if SomeHasId(entries, id) {
      var i :| 0 <= i < |entries| && HasId(entries[i], id);
      assert entries[i] in entries && entries[i].Id() == id;
    }
  }

  lemma ReachedIsAsConfigured(db: Db, entries: seq<Entry>, db': Db)
    requires Reached(db, entries, db')
    ensures AsConfigured(db, entries, db')
  {
    hide DesiredIds, IsIdOf, IsIndexOf, WasDropped, StaleKey;
    IdsOfEntries(entries);
    forall key | !IsIndexOf(entries, key)
      ensures if WasDropped(db, entries, key) then key !in db'.indexes else SameAt(db.indexes, db'.indexes, key)
    {
      DroppedIsStale(db, entries, key);
    }
    forall e | e in entries
      ensures InPlace(db', e)
    {
      EntryHasId(entries, e);
    }
  }

  lemma EntryHasId(entries: seq<Entry>, e: Entry)
    requires e in entries
    ensures e.Id() in DesiredIds(entries)
  {
  }

  lemma SyncReaches(db: Db, entries: seq<Entry>)
    requires Trusted(db, entries) && SingleValued(entries)
    ensures Reached(db, entries, Synced(db, entries))
  {
    hide Definition, SyncEntries, SyncEntry, SingleValued, Trusted, UpToDate, DesiredIds;
    var after, desired := SyncEntries(db, entries), DesiredIds(entries);
    SyncRest(db, entries, entries);
    forall e | e in entries
      ensures e.Id() in Synced(db, entries).records && Synced(db, entries).records[e.Id()] == e.Record()
      ensures e.Key() in Synced(db, entries).indexes && Synced(db, entries).indexes[e.Key()] == Definition(e.spec)
    {
      SyncedEntry(after, entries, e);
    }
    forall key | forall e :: e in entries ==> e.Key() != key
      ensures if StaleKey(db, desired, key) then key !in Synced(db, entries).indexes
              else SameAt(db.indexes, Synced(db, entries).indexes, key)
    {
      assert StaleKey(db, desired, key) <==> StaleKey(after, desired, key);
      assert SameAt(db.indexes, after.indexes, key);
    }
  }

  /** A complete sync reaches the configuration, whatever trusted state it starts from. */
  lemma CompleteSyncReaches(db: Db, entries: seq<Entry>)
    requires Trusted(db, entries) && SingleValued(entries)
    ensures Reached(db, entries, Synced(db, entries))
    ensures AsConfigured(db, entries, Synced(db, entries))
  {
    hide Trusted, SingleValued, Synced, Reached, AsConfigured;
    SyncReaches(db, entries);
    ReachedIsAsConfigured(db, entries, Synced(db, entries));
  }

  /** Cleaning up never touches a configured index or its record. */
  lemma SyncedEntry(after: Db, entries: seq<Entry>, e: Entry)
    requires Trusted(after, entries) && e in entries && UpToDate(after, e)
    ensures var end := WithoutStale(after, StaleIds(after, DesiredIds(entries)));
      && e.Id() in end.records && end.records[e.Id()] == e.Record()
      && e.Key() in end.indexes && end.indexes[e.Key()] == Definition(e.spec)
  {
    assert e.Id() in DesiredIds(entries);
    forall id | id in StaleIds(after, DesiredIds(entries))
      ensures KeyOf(after.records[id]) != e.Key()
    {
      StaleIsApart(after, entries, id, e);
    }
  }

  lemma ReachedOnce(db: Db, entries: seq<Entry>, a: Db, b: Db)
    requires Reached(db, entries, a) && Reached(db, entries, b)
    ensures a == b
  {
    hide StaleKey, DesiredIds, Definition;
    forall key
      ensures SameAt(a.indexes, b.indexes, key)
    {
      ReachedOnceAt(db, entries, a, b, key);
    }
    assert forall key :: key in a.indexes.Keys <==> key in b.indexes.Keys;
    SameMap(a.indexes, b.indexes);
    SameRecords(db, entries, a, b);
  }

  lemma ReachedOnceAt(db: Db, entries: seq<Entry>, a: Db, b: Db, key: IndexKey)
    requires Reached(db, entries, a) && Reached(db, entries, b)
    ensures SameAt(a.indexes, b.indexes, key)
  {
    hide StaleKey, DesiredIds, Definition;
    if e :| e in entries && e.Key() == key {
    }
  }

  lemma SameRecords(db: Db, entries: seq<Entry>, a: Db, b: Db)
    requires Reached(db, entries, a) && Reached(db, entries, b)
    ensures a.records == b.records
  {
    hide StaleKey, Definition;
    forall id | id in DesiredIds(entries)
      ensures a.records[id] == b.records[id]
    {
      var e :| e in entries && e.Id() == id;
    }
    assert forall id :: id in a.records.Keys <==> id in b.records.Keys;
    SameMap(a.records, b.records);
  }

  // Crashes only move towards the same end

  /** From `db'` a complete sync has the same end to reach as from `db`. */
  ghost predicate Closer(db: Db, entries: seq<Entry>, db': Db) {
    forall key :: (forall e :: e in entries ==> e.Key() != key) ==>
      if StaleKey(db, DesiredIds(entries), key)
      then StaleKey(db', DesiredIds(entries), key) || key !in db'.indexes
      else !StaleKey(db', DesiredIds(entries), key) && SameAt(db.indexes, db'.indexes, key)
  }

  lemma CloserSameEnd(db: Db, entries: seq<Entry>, db': Db, end: Db)
    requires Closer(db, entries, db') && Reached(db', entries, end)
    ensures Reached(db, entries, end)
  {
  }

  lemma CloserTransitive(a: Db, entries: seq<Entry>, b: Db, c: Db)
    requires Closer(a, entries, b) && Closer(b, entries, c)
    ensures Closer(a, entries, c)
  {
  }

  /** Dropping or rebuilding the index of an entry that is not up to date is harmless. */
  lemma HalfDoneEntry(db: Db, e: Entry, all: seq<Entry>)
    requires Trusted(db, all) && SingleValued(all) && e in all && !UpToDate(db, e)
    ensures var dropped := db.(indexes := db.indexes - {e.Key()}); Trusted(dropped, all) && Closer(db, all, dropped)
    ensures var created := db.(indexes := db.indexes[e.Key() := Definition(e.spec)]);
      Trusted(created, all) && Closer(db, all, created)
  {
  }

  lemma SyncOneCloser(db: Db, e: Entry, all: seq<Entry>)
    requires Trusted(db, all) && SingleValued(all) && e in all
    ensures Closer(db, all, SyncEntry(db, e))
  {
    var after := SyncEntry(db, e);
    SyncOne(db, e, all);
    assert e.Id() in DesiredIds(all);
    forall key | forall x :: x in all ==> x.Key() != key
      ensures StaleKey(db, DesiredIds(all), key) <==> StaleKey(after, DesiredIds(all), key)
    {
    }
  }

  lemma {:induction false} CrashedEntriesTrusted(db: Db, rest: seq<Entry>, all: seq<Entry>, db': Db)
    requires Trusted(db, all) && SingleValued(all) && (forall e :: e in rest ==> e in all)
    requires CrashedEntries(db, rest, db')
    ensures Trusted(db', all) && Closer(db, all, db')
    decreases |rest|
  {
    hide Trusted;
    hide Closer;
    hide SyncEntry;
    hide SingleValued;
    if db' == db {
      CloserSelf(db, all);
    } else {
      var e := rest[0];
      if CrashedEntries(SyncEntry(db, e), rest[1..], db') {
        SyncOne(db, e, all);
        SyncOneCloser(db, e, all);
        CrashedEntriesTrusted(SyncEntry(db, e), rest[1..], all, db');
        CloserTransitive(db, all, SyncEntry(db, e), db');
      } else {
        HalfDoneEntry(db, e, all);
      }
    }
  }

  lemma CloserSelf(db: Db, entries: seq<Entry>)
    ensures Closer(db, entries, db)
  {
  }

  lemma {:induction false} SyncRestCloser(db: Db, rest: seq<Entry>, all: seq<Entry>)
    requires Trusted(db, all) && SingleValued(all) && forall e :: e in rest ==> e in all
    ensures Closer(db, all, SyncEntries(db, rest))
    decreases |rest|
  {
    hide Trusted;
    hide Closer;
    hide SyncEntry;
    hide SingleValued;
    if rest == [] {
      CloserSelf(db, all);
    } else {
      SyncOne(db, rest[0], all);
      SyncOneCloser(db, rest[0], all);
      SyncRestCloser(SyncEntry(db, rest[0]), rest[1..], all);
      CloserTransitive(db, all, SyncEntry(db, rest[0]), SyncEntries(db, rest));
    }
  }

  /** Dropping the indexes of stale records leaves those of the configuration alone. */
  lemma CleanupSparesEntries(db: Db, entries: seq<Entry>, dropped: set<string>, e: Entry)
    requires WellKept(db) && dropped <= StaleIds(db, DesiredIds(entries)) && e in entries
    ensures SameAt(db.indexes, WithoutStale(db, dropped).indexes, e.Key())
  {
    hide Definition, DesiredIds;
    forall id | id in dropped
      ensures KeyOf(db.records[id]) != e.Key()
    {
      StaleIsApart(db, entries, id, e);
    }
  }

  lemma CleanupCloser(db: Db, entries: seq<Entry>, dropped: set<string>, gone: set<string>)
    requires gone <= dropped <= StaleIds(db, DesiredIds(entries))
    ensures Closer(db, entries, Db(WithoutStale(db, dropped).indexes, db.records - gone))
  {
    hide Definition, DesiredIds;
    var db', desired := Db(WithoutStale(db, dropped).indexes, db.records - gone), DesiredIds(entries);
    forall key | forall x :: x in entries ==> x.Key() != key
      ensures if StaleKey(db, desired, key) then StaleKey(db', desired, key) || key !in db'.indexes
              else !StaleKey(db', desired, key) && SameAt(db.indexes, db'.indexes, key)
    {
      if StaleKey(db, desired, key) && !StaleKey(db', desired, key) {
        var id :| id in db.records && id !in desired && KeyOf(db.records[id]) == key;
        assert id in gone && id in dropped;
      }
    }
  }

  lemma CleanupTrusted(db: Db, entries: seq<Entry>, db': Db)
    requires Trusted(db, entries) && CrashedCleanup(db, DesiredIds(entries), db')
    ensures Trusted(db', entries) && Closer(db, entries, db')
  {
    hide Definition, DesiredIds, WithoutStale, StaleIds, Closer;
    var dropped, gone :|
      && gone <= dropped <= StaleIds(db, DesiredIds(entries))
      && db' == Db(WithoutStale(db, dropped).indexes, db.records - gone);
    CleanupCloser(db, entries, dropped, gone);
    forall e | e in entries
      ensures SameAt(db.indexes, db'.indexes, e.Key())
    {
      CleanupSparesEntries(db, entries, dropped, e);
    }
  }

  lemma CrashTrusted(db: Db, entries: seq<Entry>, db': Db)
    requires Trusted(db, entries) && SingleValued(entries) && CrashedSync(db, entries, db')
    ensures Trusted(db', entries) && Closer(db, entries, db')
  {
    hide Trusted;
    hide Closer;
    hide SingleValued;
    hide CrashedEntries;
    hide CrashedCleanup;
    if CrashedEntries(db, entries, db') {
      CrashedEntriesTrusted(db, entries, entries, db');
    } else {
      var after := SyncEntries(db, entries);
      SyncRest(db, entries, entries);
      SyncRestCloser(db, entries, entries);
      CleanupTrusted(after, entries, db');
      CloserTransitive(db, entries, after, db');
    }
  }

  /** The database after any number of syncs to one configuration that each died somewhere. */
  ghost predicate History(entries: seq<Entry>, states: seq<Db>) {
    states != [] && forall i :: 0 <= i < |states| - 1 ==> CrashedSync(states[i], entries, states[i + 1])
  }

  lemma {:induction false} HistoryTrusted(entries: seq<Entry>, states: seq<Db>, i: nat)
    requires History(entries, states) && Trusted(states[0], entries) && SingleValued(entries) && i < |states|
    ensures Trusted(states[i], entries) && Closer(states[0], entries, states[i])
  {
    hide Trusted;
    hide Closer;
    hide SingleValued;
    hide CrashedSync;
    if i == 0 {
      CloserSelf(states[0], entries);
    } else {
      HistoryTrusted(entries, states, i - 1);
      assert CrashedSync(states[i - 1], entries, states[i - 1 + 1]);
      CrashTrusted(states[i - 1], entries, states[i]);
      CloserTransitive(states[0], entries, states[i - 1], states[i]);
    }
  }

  /** After any history of crashed syncs to the same configuration, a complete sync ends where it
      would have ended without them, and that is the configuration. */
  lemma SyncConverges(entries: seq<Entry>, states: seq<Db>)
    requires History(entries, states) && SingleValued(entries)
    requires Sound(states[0]) && WellKept(states[0]) && Unambiguous(states[0], entries)
    ensures Synced(states[|states| - 1], entries) == Synced(states[0], entries)
    ensures Reached(states[0], entries, Synced(states[0], entries))
    ensures AsConfigured(states[0], entries, Synced(states[|states| - 1], entries))
  {
    hide AsConfigured;
    hide Trusted;
    hide Closer;
    hide SingleValued;
    hide CrashedSync;
    hide Synced;
    hide Reached;
    var first, last := states[0], states[|states| - 1];
    SoundIsTrusted(first, entries);
    HistoryTrusted(entries, states, |states| - 1);
    CompleteSyncReaches(first, entries);
    CompleteSyncReaches(last, entries);
    CloserSameEnd(first, entries, last, Synced(last, entries));
    ReachedOnce(first, entries, Synced(first, entries), Synced(last, entries));
  }

  /** A complete sync leaves a state the next configuration can start from. */
  lemma SyncedIsSound(db: Db, entries: seq<Entry>)
    requires Trusted(db, entries) && SingleValued(entries)
    ensures Sound(Synced(db, entries)) && WellKept(Synced(db, entries))
  {
    hide Synced;
    hide Trusted;
    CompleteSyncReaches(db, entries);
    var end := Synced(db, entries);
    forall id | id in end.records
      ensures id == RecordId(end.records[id].collection, end.records[id].name)
      ensures KeyOf(end.records[id]) in end.indexes
      ensures end.indexes[KeyOf(end.records[id])] == Definition(end.records[id].spec)
    {
      var e :| e in entries && e.Id() == id;
    }
  }

  // Idempotence

  /** Entries under one record id agree. */
  predicate SameIdSameSpec(entries: seq<Entry>) {
    forall a, b :: a in entries && b in entries && a.Id() == b.Id() ==> a.spec == b.spec
  }

  /** Nothing to drop, create or record. */
  predicate Quiet(db: Db, entries: seq<Entry>) {
    && (forall e :: e in entries ==> UpToDate(db, e))
    && StaleIds(db, DesiredIds(entries)) == {}
  }

  /** A quiet sync writes nothing at all: even dying half-way it leaves the database as it was. */
  lemma {:induction false} QuietWritesNothing(db: Db, entries: seq<Entry>, db': Db)
    requires Quiet(db, entries)
    ensures Synced(db, entries) == db
    ensures CrashedSync(db, entries, db') ==> db' == db
  {
    QuietEntries(db, entries, db');
    assert StaleIds(db, DesiredIds(entries)) == {};
    SameMap(WithoutStale(db, {}).indexes, db.indexes);
    SameMap(WithoutStale(db, {}).records, db.records);
    if CrashedCleanup(db, DesiredIds(entries), db') {
      var dropped, gone :|
        && gone <= dropped <= StaleIds(db, DesiredIds(entries))
        && db' == Db(WithoutStale(db, dropped).indexes, db.records - gone);
      assert dropped == {} && gone == {};
    }
  }

  lemma {:induction false} QuietEntries(db: Db, entries: seq<Entry>, db': Db)
    requires forall e :: e in entries ==> UpToDate(db, e)
    ensures SyncEntries(db, entries) == db
    ensures CrashedEntries(db, entries, db') ==> db' == db
    decreases |entries|
  {
    if entries != [] {
      QuietEntries(db, entries[1..], db');
    }
  }

  lemma {:induction false} SyncedEntriesStay(db: Db, rest: seq<Entry>, all: seq<Entry>)
    requires SameIdSameSpec(all) && forall e :: e in rest ==> e in all
    ensures var after := SyncEntries(db, rest);
      && (forall e :: e in rest ==> UpToDate(after, e))
      && (forall a :: a in all && UpToDate(db, a) ==> UpToDate(after, a))
    decreases |rest|
  {
    if rest != [] {
      var e := rest[0];
      assert rest == [e] + rest[1..];
      SyncedEntriesStay(SyncEntry(db, e), rest[1..], all);
      assert UpToDate(SyncEntry(db, e), e);
    }
  }

  /** From any database, a second sync finds nothing to do exactly when entries that share a record
      id agree on their spec; identical duplicates across files are fine, different ones are not. */
  lemma IdempotentExactlyWhen(db: Db, entries: seq<Entry>)
    ensures Quiet(Synced(db, entries), entries) <==> SameIdSameSpec(entries)
  {
    hide SyncEntries;
    var after := SyncEntries(db, entries);
    var end := Synced(db, entries);
    assert StaleIds(end, DesiredIds(entries)) == {} by {
      assert forall id :: id in end.records ==> id in DesiredIds(entries);
    }
    if SameIdSameSpec(entries) {
      SyncedEntriesStay(db, entries, entries);
      forall e | e in entries
        ensures UpToDate(end, e)
      {
        assert UpToDate(after, e) && e.Id() in DesiredIds(entries);
      }
    }
    if Quiet(end, entries) {
      forall a, b | a in entries && b in entries && a.Id() == b.Id()
        ensures a.spec == b.spec
      {
        assert UpToDate(end, a) && UpToDate(end, b);
      }
    }
  }

  // When record ids cannot collide

  /** Collections whose names have no dot: the first dot of a record id ends the collection. */
  lemma {:induction false} NoDotsNoCollision(c: string, n: string, c': string, n': string)
    requires '.' !in c && '.' !in c' && RecordId(c, n) == RecordId(c', n')
    ensures c == c' && n == n'
  {
    var id := RecordId(c, n);
    assert id[|c|] == '.' && id[|c'|] == '.';
    DotNotInside(c, n, |c'|);
    DotNotInside(c', n', |c|);
    assert c == id[..|c|] && c' == id[..|c|];
    assert n == id[|c| + 1..] && n' == id[|c| + 1..];
  }

  lemma DotNotInside(c: string, n: string, k: nat)
    requires '.' !in c && k < |RecordId(c, n)| && RecordId(c, n)[k] == '.'
    ensures |c| <= k
  {
  }

  /** With dot-free collection names, well-kept records are unambiguous for any configuration. */
  lemma DotFreeIsUnambiguous(db: Db, entries: seq<Entry>)
    requires WellKept(db)
    requires forall e :: e in entries ==> '.' !in e.collection
    requires forall id :: id in db.records ==> '.' !in db.records[id].collection
    ensures Unambiguous(db, entries)
  {
    forall a, b | a in entries && b in entries && a.Id() == b.Id()
      ensures a.Key() == b.Key()
    {
      NoDotsNoCollision(a.collection, a.spec.name, b.collection, b.spec.name);
    }
    forall e | e in entries && e.Id() in db.records
      ensures KeyOf(db.records[e.Id()]) == e.Key()
    {
      var r := db.records[e.Id()];
      NoDotsNoCollision(e.collection, e.spec.name, r.collection, r.name);
    }
  }

  // Limits of the reconciler

  /** An entry recorded as done is passed over, and so is every entry for its index. */
  lemma {:induction false} UpToDateUntouched(db: Db, rest: seq<Entry>, all: seq<Entry>, e: Entry)
    requires SingleValued(all) && e in all && (forall a :: a in rest ==> a in all) && UpToDate(db, e)
    requires forall a, b :: a in all && b in all && a.Id() == b.Id() ==> a.Key() == b.Key()
    ensures UpToDate(SyncEntries(db, rest), e) && SameAt(db.indexes, SyncEntries(db, rest).indexes, e.Key())
    decreases |rest|
  {
    if rest != [] {
      assert rest[0] in all;
      UpToDateUntouched(SyncEntry(db, rest[0]), rest[1..], all, e);
    }
  }

  /** From well-kept records a complete sync reaches an unambiguous configuration exactly when every
      entry that is recorded as done is done. */
  lemma ReachedExactlyWhen(db: Db, entries: seq<Entry>)
    requires WellKept(db) && Unambiguous(db, entries) && SingleValued(entries)
    ensures Reached(db, entries, Synced(db, entries)) <==> DoneIsDone(db, entries)
  {
    hide SyncEntries, SingleValued;
    if DoneIsDone(db, entries) {
      CompleteSyncReaches(db, entries);
    } else {
      var e :| e in entries && UpToDate(db, e) &&
               !(e.Key() in db.indexes && db.indexes[e.Key()] == Definition(e.spec));
      UpToDateUntouched(db, entries, entries, e);
    }
  }

  /** Where a sync died: between two specs, after dropping or creating the index of one, or while
      cleaning up, with the records in `gone` removed and the indexes of those in `dropped`. */
  datatype CrashPoint =
    | Between(done: nat)
    | Dropped(at: nat)
    | Created(at: nat)
    | Cleaning(dropped: set<string>, gone: set<string>)

  predicate CrashAt(db: Db, entries: seq<Entry>, p: CrashPoint) {
    match p
    case Between(k) => k <= |entries|
    case Dropped(i) => i < |entries| && !UpToDate(SyncEntries(db, entries[..i]), entries[i])
    case Created(i) => i < |entries| && !UpToDate(SyncEntries(db, entries[..i]), entries[i])
    case Cleaning(dropped, gone) => gone <= dropped <= StaleIds(SyncEntries(db, entries), DesiredIds(entries))
  }

  function CrashedState(db: Db, entries: seq<Entry>, p: CrashPoint): Db
    requires CrashAt(db, entries, p)
  {
    match p
    case Between(k) => SyncEntries(db, entries[..k])
    case Dropped(i) =>
      var before := SyncEntries(db, entries[..i]);
      before.(indexes := before.indexes - {entries[i].Key()})
    case Created(i) =>
      var before := SyncEntries(db, entries[..i]);
      before.(indexes := before.indexes[entries[i].Key() := Definition(entries[i].spec)])
    case Cleaning(dropped, gone) =>
      var after := SyncEntries(db, entries);
      Db(WithoutStale(after, dropped).indexes, after.records - gone)
  }

  function Later(p: CrashPoint): CrashPoint {
    match p
    case Between(k) => Between(k + 1)
    case Dropped(i) => Dropped(i + 1)
    case Created(i) => Created(i + 1)
    case Cleaning(dropped, gone) => p
  }

  lemma FirstThenRest(db: Db, entries: seq<Entry>, k: nat)
    requires k < |entries|
    ensures SyncEntries(db, entries[..k + 1]) == SyncEntries(SyncEntry(db, entries[0]), entries[1..][..k])
  {
    assert entries[..k + 1][1..] == entries[1..][..k];
  }

  lemma {:induction false} EntryCrashHasPoint(db: Db, entries: seq<Entry>, db': Db) returns (p: CrashPoint)
    requires CrashedEntries(db, entries, db')
    ensures !p.Cleaning? && CrashAt(db, entries, p) && db' == CrashedState(db, entries, p)
    decreases |entries|
  {
    hide UpToDate, SyncEntry, Definition;
    p := Between(0);
    if db' != db {
      var e := entries[0];
      assert SyncEntries(db, entries[..0]) == db;
      if !UpToDate(db, e) && db' == db.(indexes := db.indexes - {e.Key()}) {
        p := Dropped(0);
      } else if !UpToDate(db, e) && db' == db.(indexes := db.indexes[e.Key() := Definition(e.spec)]) {
        p := Created(0);
      } else {
        var q := EntryCrashHasPoint(SyncEntry(db, e), entries[1..], db');
        FirstThenRest(db, entries, if q.Between? then if q.done < |entries| then q.done else 0 else q.at);
        p := Later(q);
      }
    }
  }

  lemma {:induction false} PointIsEntryCrash(db: Db, entries: seq<Entry>, p: CrashPoint)
    requires CrashAt(db, entries, p) && !p.Cleaning?
    ensures CrashedEntries(db, entries, CrashedState(db, entries, p))
    decreases |entries|
  {
    hide UpToDate, SyncEntry, Definition;
    assert SyncEntries(db, entries[..0]) == db;
    if p.Between? && 0 < p.done {
      FirstThenRest(db, entries, p.done - 1);
      PointIsEntryCrash(SyncEntry(db, entries[0]), entries[1..], Between(p.done - 1));
    } else if p.Dropped? && 0 < p.at {
      FirstThenRest(db, entries, p.at - 1);
      PointIsEntryCrash(SyncEntry(db, entries[0]), entries[1..], Dropped(p.at - 1));
    } else if p.Created? && 0 < p.at {
      FirstThenRest(db, entries, p.at - 1);
      PointIsEntryCrash(SyncEntry(db, entries[0]), entries[1..], Created(p.at - 1));
    }
  }

  /** The crash points are all the ways a sync can die. */
  lemma CrashPoints(db: Db, entries: seq<Entry>, db': Db)
    ensures CrashedSync(db, entries, db') <==>
            exists p :: CrashAt(db, entries, p) && db' == CrashedState(db, entries, p)
  {
    hide SyncEntries, CrashedEntries, WithoutStale;
    if CrashedEntries(db, entries, db') {
      var p := EntryCrashHasPoint(db, entries, db');
    } else if CrashedSync(db, entries, db') {
      var after := SyncEntries(db, entries);
      var dropped, gone :|
        && gone <= dropped <= StaleIds(after, DesiredIds(entries))
        && db' == Db(WithoutStale(after, dropped).indexes, after.records - gone);
      assert CrashAt(db, entries, Cleaning(dropped, gone));
    }
    forall p | CrashAt(db, entries, p) && db' == CrashedState(db, entries, p)
      ensures CrashedSync(db, entries, db')
    {
      if !p.Cleaning? {
        PointIsEntryCrash(db, entries, p);
      }
    }
  }

  /** The records whose index the crash had in hand. */
  function InHand(entries: seq<Entry>, p: CrashPoint): set<string> {
    match p
    case Between(_) => {}
    case Dropped(i) => if i < |entries| then {entries[i].Id()} else {}
    case Created(i) => if i < |entries| then {entries[i].Id()} else {}
    case Cleaning(dropped, gone) => dropped - gone
  }

  lemma {:induction false} SyncKeepsSound(db: Db, rest: seq<Entry>, all: seq<Entry>)
    requires Sound(db) && WellKept(db) && Unambiguous(db, all) && forall e :: e in rest ==> e in all
    ensures var after := SyncEntries(db, rest); Sound(after) && WellKept(after) && Unambiguous(after, all)
    decreases |rest|
  {
    if rest != [] {
      var e := rest[0];
      assert e in all;
      SyncKeepsSound(SyncEntry(db, e), rest[1..], all);
    }
  }

  /** Until its turn comes, the record of an entry that is not up to date is as it was. */
  lemma NotYetTouched(db: Db, entries: seq<Entry>, i: nat)
    requires Trusted(db, entries) && SingleValued(entries) && i < |entries|
    requires !UpToDate(SyncEntries(db, entries[..i]), entries[i])
    ensures var before, id := SyncEntries(db, entries[..i]), entries[i].Id();
      (id in before.records <==> id in db.records) && (id in db.records ==> before.records[id] == db.records[id])
  {
    hide SyncEntries;
    assert forall e :: e in entries[..i] ==> e in entries;
    SyncRest(db, entries[..i], entries);
  }

  /** A sound database with unambiguous records knows of an entry exactly what its index is. */
  lemma RecordedIndex(db: Db, all: seq<Entry>, e: Entry)
    requires Sound(db) && WellKept(db) && Unambiguous(db, all) && e in all && UpToDate(db, e)
    ensures e.Key() in db.indexes && db.indexes[e.Key()] == Definition(e.spec)
  {
  }

  /** What the crash left recorded as done but not done, for the configuration `b`. */
  ghost predicate Forgotten(db: Db, a: seq<Entry>, p: CrashPoint, e: Entry) {
    && UpToDate(db, e)
    && e.Id() in InHand(a, p)
    && !(p.Created? && p.at < |a| && Definition(e.spec) == Definition(a[p.at].spec))
  }

  lemma ForgottenAtEntry(db: Db, a: seq<Entry>, p: CrashPoint, b: seq<Entry>, e: Entry)
    requires Sound(db) && WellKept(db) && Unambiguous(db, a + b) && SingleValued(a)
    requires CrashAt(db, a, p) && e in b && (p.Dropped? || p.Created?)
    ensures var crashed := CrashedState(db, a, p);
      Forgotten(db, a, p, e) <==>
      UpToDate(crashed, e) && !(e.Key() in crashed.indexes && crashed.indexes[e.Key()] == Definition(e.spec))
  {
    hide SyncEntries;
    var x, before := a[p.at], SyncEntries(db, a[..p.at]);
    assert x in a + b && e in a + b;
    SoundParts(db, a, b);
    SyncKeepsSound(db, a[..p.at], a + b);
    NotYetTouched(db, a, p.at);
    assert e.Key() == x.Key() <==> e.Id() == x.Id();
    if UpToDate(before, e) {
      RecordedIndex(before, a + b, e);
    }
  }

  lemma SoundParts(db: Db, a: seq<Entry>, b: seq<Entry>)
    requires Sound(db) && WellKept(db) && Unambiguous(db, a + b)
    ensures Trusted(db, a) && Trusted(db, b)
    ensures forall e :: e in a || e in b <==> e in a + b
  {
  }

  lemma ForgottenWhileCleaning(db: Db, a: seq<Entry>, p: CrashPoint, b: seq<Entry>, e: Entry)
    requires Sound(db) && WellKept(db) && Unambiguous(db, a + b) && SingleValued(a)
    requires CrashAt(db, a, p) && e in b && p.Cleaning?
    ensures var crashed := CrashedState(db, a, p);
      Forgotten(db, a, p, e) <==>
      UpToDate(crashed, e) && !(e.Key() in crashed.indexes && crashed.indexes[e.Key()] == Definition(e.spec))
  {
    hide SyncEntries, DesiredIds;
    var after := SyncEntries(db, a);
    SoundParts(db, a, b);
    SyncKeepsSound(db, a, a + b);
    SyncRest(db, a, a);
    if UpToDate(after, e) {
      RecordedIndex(after, a + b, e);
      assert e.Id() in p.dropped ==> KeyOf(after.records[e.Id()]) == e.Key();
      assert forall id :: id in p.dropped && KeyOf(after.records[id]) == e.Key() ==> id == e.Id();
    }
  }

  lemma CrashedIsWellKept(db: Db, a: seq<Entry>, p: CrashPoint, b: seq<Entry>)
    requires Sound(db) && WellKept(db) && Unambiguous(db, a + b) && CrashAt(db, a, p)
    ensures WellKept(CrashedState(db, a, p)) && Unambiguous(CrashedState(db, a, p), b)
    ensures p.Between? ==> DoneIsDone(CrashedState(db, a, p), b)
  {
    hide SyncEntries;
    SoundParts(db, a, b);
    var done := if p.Cleaning? then a else a[..if p.Between? then p.done else p.at];
    assert a[..|a|] == a;
    SyncKeepsSound(db, done, a + b);
    if p.Between? {
      SoundParts(SyncEntries(db, done), a, b);
    }
  }

  /** A sync to `a` died at `p`; a complete sync to `b` repairs it exactly when `b` asks again for no
      index that was recorded as it is in `b` and that the crash had in hand; unless that index had
      just been created with the same definition. */
  lemma RepairedExactlyWhen(db: Db, a: seq<Entry>, p: CrashPoint, b: seq<Entry>)
    requires Sound(db) && WellKept(db) && Unambiguous(db, a + b) && SingleValued(a) && SingleValued(b)
    requires CrashAt(db, a, p)
    ensures var crashed := CrashedState(db, a, p);
      Reached(crashed, b, Synced(crashed, b)) <==> forall e :: e in b ==> !Forgotten(db, a, p, e)
  {
    hide SingleValued, Reached, Unambiguous, Sound, WellKept, CrashedState, CrashAt;
    var crashed := CrashedState(db, a, p);
    CrashedIsWellKept(db, a, p, b);
    ReachedExactlyWhen(crashed, b);
    if !p.Between? {
      forall e | e in b
        ensures Forgotten(db, a, p, e) <==>
          UpToDate(crashed, e) && !(e.Key() in crashed.indexes && crashed.indexes[e.Key()] == Definition(e.spec))
      {
        if p.Cleaning? {
          ForgottenWhileCleaning(db, a, p, b, e);
        } else {
          ForgottenAtEntry(db, a, p, b, e);
        }
      }
    }
  }

  const OLD: Entry := Entry("widgets", Spec("owner", [KeyPart("owner_id", 1)], None, None, None, map[]))
  const NEW: Entry := Entry("widgets", Spec("owner", [KeyPart("owner_id", 1)], Some(true), None, None, map[]))

  /** A configuration taken back after a crash: when the database was synced to `b` before, the crash is
      repaired exactly when it had no index of `b` in hand, or had just created it alike. */
  lemma TakenBackExactlyWhen(db: Db, a: seq<Entry>, p: CrashPoint, b: seq<Entry>)
    requires Sound(db) && WellKept(db) && Unambiguous(db, a + b) && SingleValued(a) && SingleValued(b)
    requires CrashAt(db, a, p) && Quiet(db, b)
    ensures var crashed := CrashedState(db, a, p);
      Reached(crashed, b, Synced(crashed, b)) <==>
        forall e :: e in b && e.Id() in InHand(a, p) ==>
                      p.Created? && p.at < |a| && Definition(e.spec) == Definition(a[p.at].spec)
  {
    hide SingleValued, Reached, Unambiguous, Sound, WellKept, CrashedState, CrashAt, InHand, Synced;
    RepairedExactlyWhen(db, a, p, b);
  }

  /** The configuration is changed, the sync to it dies between drop and create, and the change is
      taken back: the record still says the old index is in place, so it is never created again. */
  lemma RevertedConfigStaysBroken() returns (synced: Db, crashed: Db)
    ensures Synced(Db(map[], map[]), [OLD]) == synced && Sound(synced)
    ensures CrashedSync(synced, [NEW], crashed)
    ensures Synced(crashed, [OLD]) == crashed && OLD.Key() !in crashed.indexes
  {
    var id := OLD.Id();
    synced := Db(map[OLD.Key() := Definition(OLD.spec)], map[id := OLD.Record()]);
    crashed := synced.(indexes := synced.indexes - {NEW.Key()});
    assert NEW.spec.unique != OLD.spec.unique;
    assert NEW.Id() == id && NEW.Key() == OLD.Key();
    SyncSingle(Db(map[], map[]), OLD);
    SyncSingle(crashed, OLD);
    SameMap(Synced(Db(map[], map[]), [OLD]).indexes, synced.indexes);
    SameMap(Synced(Db(map[], map[]), [OLD]).records, synced.records);
    SameMap(Synced(crashed, [OLD]).indexes, crashed.indexes);
    SameMap(Synced(crashed, [OLD]).records, crashed.records);
    assert !UpToDate(synced, NEW);
    assert CrashedEntries(synced, [NEW], crashed);
  }

  lemma SyncSingle(db: Db, e: Entry)
    requires db.records.Keys <= {e.Id()}
    ensures SyncEntries(db, [e]) == SyncEntry(db, e)
    ensures Synced(db, [e]).indexes == SyncEntry(db, e).indexes
    ensures Synced(db, [e]).records == SyncEntry(db, e).records
  {
    assert [e][1..] == [];
    var after := SyncEntry(db, e);
    assert SyncEntries(after, []) == after;
    assert StaleIds(after, DesiredIds([e])) == {} by {
      assert e in [e];
    }
    SameMap(WithoutStale(after, {}).indexes, after.indexes);
    SameMap(WithoutStale(after, {}).records, after.records);
  }
}
