/** `sync_indexes` as loops over a database that is changed in place. */
module IndexReconciler {
  import opened Maps
  import opened IndexConfig
  import opened IndexSync
  import opened IndexRefusal

  class Database {
    var indexes: map<IndexKey, IndexDef>
    var records: map<string, SyncRecord>

    constructor ()
      ensures State() == Db(map[], map[])
    {
      indexes, records := map[], map[];
    }

    function State(): Db
      reads this
    {
      Db(indexes, records)
    }

    /** Dropping an index that does not exist is not an error here. */
    method DropIndexIfExists(key: IndexKey)
      modifies `indexes
      ensures indexes == old(indexes) - {key}
    {
      indexes := indexes - {key};
    }

    /** The server refuses an index that the collection has under another name, and may refuse one for reasons of its
        own, for example over duplicate values. */
    method CreateIndex(key: IndexKey, def: IndexDef, fails: bool) returns (ok: bool)
      modifies `indexes
      ensures ok <==> !fails && !Taken(old(indexes), key, def)
      ensures indexes == if ok then old(indexes)[key := def] else old(indexes)
    {
      ok := !fails && !Taken(indexes, key, def);
      if ok {
        indexes := indexes[key := def];
      }
    }
  }

  /** False when the server refuses the index, which leaves it dropped and the record as it was. */
  method SyncOneSpec(db: Database, e: Entry, fails: IndexKey -> bool) returns (ok: bool)
    modifies db
    ensures ok <==> !Refused(old(db.State()), e, fails)
    ensures ok ==> db.State() == SyncEntry(old(db.State()), e)
    ensures !ok ==> db.State() == CrashedEntry(old(db.State()), e)
    ensures var id, key := e.collection + "." + e.spec.name, IndexKey(e.collection, e.spec.name);
      if id in old(db.records) && old(db.records)[id].spec == e.spec then
        ok && db.State() == old(db.State())
      else
        && (ok <==> !fails(key) && !ElsewhereAlready(old(db.indexes), e))
        && (ok ==> InPlace(db.State(), e) && db.records == old(db.records)[id := db.records[id]])
        && (!ok ==> key !in db.indexes && db.records == old(db.records))
        && forall other :: other != key ==> SameAt(old(db.indexes), db.indexes, other)
  {
    TakenIsElsewhere(db.indexes, e);
    DefinitionFits(e);
    hide Definition, SameIndex, ElsewhereAlready;
    var id := RecordId(e.collection, e.spec.name);
    if id in db.records && db.records[id].spec == e.spec {
      return true;
    }
    ghost var before := db.indexes;
    db.DropIndexIfExists(e.Key());
    TakenByOthers(before, e.Key(), Definition(e.spec));
    ok := db.CreateIndex(e.Key(), Definition(e.spec), fails(e.Key()));
    if !ok {
      return;
    }
    SameMap((before - {e.Key()})[e.Key() := Definition(e.spec)], before[e.Key() := Definition(e.spec)]);
    db.records := db.records[id := SyncRecord(e.collection, e.spec.name, e.spec)];
  }

  lemma DefinitionFits(e: Entry)
    ensures var def := Definition(e.spec);
      && def.keys == e.spec.keys && def.unique == e.spec.unique && def.sparse == e.spec.sparse
      && def.expireAfterSeconds == e.spec.expireAfterSeconds
  {
  }

  lemma TakenByOthers(indexes: map<IndexKey, IndexDef>, key: IndexKey, def: IndexDef)
    ensures Taken(indexes - {key}, key, def) <==> Taken(indexes, key, def)
  {
    hide SameIndex;
    assert forall other :: other in indexes && other != key ==>
                             other in indexes - {key} && (indexes - {key})[other] == indexes[other];
  }

  function CrashedEntry(db: Db, e: Entry): Db {
    db.(indexes := db.indexes - {e.Key()})
  }

  lemma NoneRefusedNext(db: Db, entries: seq<Entry>, i: nat, fails: IndexKey -> bool)
    requires i < |entries| && NoneRefused(db, entries[..i], fails)
    requires !Refused(SyncEntries(db, entries[..i]), entries[i], fails)
    ensures NoneRefused(db, entries[..i + 1], fails)
  {
    hide Refused, SyncEntries;
    var more := entries[..i + 1];
    forall j | 0 <= j < |more|
      ensures !Refused(SyncEntries(db, more[..j]), more[j], fails)
    {
      assert more[..j] == entries[..j];
      if j < i {
        assert entries[..i][..j] == entries[..j];
      }
    }
  }

  lemma NotRefusedAt(db: Db, entries: seq<Entry>, i: nat, fails: IndexKey -> bool)
    requires i < |entries| && NoneRefused(db, entries, fails)
    ensures !Refused(SyncEntries(db, entries[..i]), entries[i], fails)
  {
  }

  lemma NoneRefusedInParts(db: Db, a: seq<Entry>, b: seq<Entry>, fails: IndexKey -> bool)
    requires NoneRefused(db, a, fails) && NoneRefused(SyncEntries(db, a), b, fails)
    ensures NoneRefused(db, a + b, fails)
  {
    hide Refused, SyncEntries;
    forall i | 0 <= i < |a + b|
      ensures !Refused(SyncEntries(db, (a + b)[..i]), (a + b)[i], fails)
    {
      NotRefusedInParts(db, a, b, i, fails);
    }
  }

  lemma NotRefusedInParts(db: Db, a: seq<Entry>, b: seq<Entry>, i: nat, fails: IndexKey -> bool)
    requires NoneRefused(db, a, fails) && NoneRefused(SyncEntries(db, a), b, fails) && i < |a + b|
    ensures !Refused(SyncEntries(db, (a + b)[..i]), (a + b)[i], fails)
  {
    hide Refused, SyncEntries, NoneRefused;
    if i < |a| {
      assert (a + b)[..i] == a[..i];
      NotRefusedAt(db, a, i, fails);
    } else {
      assert (a + b)[..i] == a + b[..i - |a|];
      SyncEntriesInParts(db, a, b[..i - |a|]);
      NotRefusedAt(SyncEntries(db, a), b, i - |a|, fails);
    }
  }

  lemma RefusedLater(db: Db, a: seq<Entry>, b: seq<Entry>, c: seq<Entry>, at: nat, fails: IndexKey -> bool, db': Db)
    requires NoneRefused(db, a, fails) && RefusedAt(SyncEntries(db, a), b, at, fails, db')
    ensures RefusedAt(db, a + (b + c), |a| + at, fails, db')
  {
    hide UpToDate, SyncEntries, NoneRefused, Refused;
    PartsAt(a, b, c, at);
    SyncEntriesInParts(db, a, b[..at]);
    NoneRefusedInParts(db, a, b[..at], fails);
  }

  lemma PartsAt(a: seq<Entry>, b: seq<Entry>, c: seq<Entry>, at: nat)
    requires at < |b|
    ensures (a + (b + c))[..|a| + at] == a + b[..at] && (a + (b + c))[|a| + at] == b[at]
  {
  }

  lemma {:induction false} SyncEntriesInParts(db: Db, a: seq<Entry>, b: seq<Entry>)
    ensures SyncEntries(db, a + b) == SyncEntries(SyncEntries(db, a), b)
    decreases |a|
  {
    if a == [] {
      assert a + b == b;
    } else {
      assert (a + b)[1..] == a[1..] + b;
      SyncEntriesInParts(SyncEntry(db, a[0]), a[1..], b);
    }
  }

  lemma OneMoreEntry(db: Db, entries: seq<Entry>, i: nat)
    requires i < |entries|
    ensures SyncEntries(db, entries[..i + 1]) == SyncEntry(SyncEntries(db, entries[..i]), entries[i])
    ensures DesiredIds(entries[..i + 1]) == DesiredIds(entries[..i]) + {entries[i].Id()}
  {
    var one := [entries[i]];
    assert entries[..i + 1] == entries[..i] + one;
    SyncEntriesInParts(db, entries[..i], one);
    assert one[1..] == [];
    var after := SyncEntry(SyncEntries(db, entries[..i]), entries[i]);
    assert SyncEntries(after, []) == after;
  }

  /** The specs of one collection. */
  method SyncBucket(db: Database, bucket: Bucket, desired: set<string>, fails: IndexKey -> bool)
    returns (ok: bool, desired': set<string>, ghost at: nat)
    modifies db
    ensures var start, entries := old(db.State()), BucketEntries(bucket.collection, bucket.specs);
      if ok then
        && NoneRefused(start, entries, fails)
        && db.State() == SyncEntries(start, entries)
        && desired' == desired + DesiredIds(entries)
      else RefusedAt(start, entries, at, fails, db.State())
  {
    hide SyncEntries, NoneRefused, UpToDate, DesiredIds;
    ghost var start, entries := db.State(), BucketEntries(bucket.collection, bucket.specs);
    desired', at := desired, 0;
    NoEntries(start, fails);
    var i := 0;
    while i < |bucket.specs|
      invariant 0 <= i <= |bucket.specs|
      invariant db.State() == SyncEntries(start, entries[..i])
      invariant NoneRefused(start, entries[..i], fails)
      invariant desired' == desired + DesiredIds(entries[..i])
    {
      var e := Entry(bucket.collection, bucket.specs[i]);
      OneMoreEntry(start, entries, i);
      desired' := desired' + {RecordId(bucket.collection, bucket.specs[i].name)};
      ok := SyncOneSpec(db, e, fails);
      if !ok {
        at := i;
        return;
      }
      NoneRefusedNext(start, entries, i, fails);
      i := i + 1;
    }
    assert entries[..i] == entries;
    ok := true;
  }

  /** The records that no file mentions any more, in any order. */
  method DropStale(db: Database, desired: set<string>)
    modifies db
    ensures db.State() == WithoutStale(old(db.State()), StaleIds(old(db.State()), desired))
  {
    ghost var start := db.State();
    ghost var done: set<string> := {};
    var remaining := set id | id in db.records && id !in desired;
    var records := db.records;
    SameMap(WithoutStale(start, {}).indexes, db.indexes);
    SameMap(WithoutStale(start, {}).records, db.records);
    while remaining != {}
      invariant done + remaining == StaleIds(start, desired) && done !! remaining
      invariant db.State() == WithoutStale(start, done)
      decreases remaining
    {
      HasId(remaining);
      var id :| id in remaining;
      StaleGrows(start, done, id);
      db.DropIndexIfExists(KeyOf(records[id]));
      db.records := db.records - {id};
      done := done + {id};
      remaining := remaining - {id};
    }
    assert done == StaleIds(start, desired);
  }

  lemma HasId(ids: set<string>)
    requires ids != {}
    ensures exists id :: id in ids
  {
    assert (forall id :: id !in ids) ==> ids == {};
  }

  lemma StaleGrows(db: Db, done: set<string>, id: string)
    requires id in db.records
    ensures var before := WithoutStale(db, done);
      WithoutStale(db, done + {id}) == Db(before.indexes - {KeyOf(db.records[id])}, before.records - {id})
  {
    var before, after := WithoutStale(db, done), WithoutStale(db, done + {id});
    SameMap(after.indexes, before.indexes - {KeyOf(db.records[id])});
    SameMap(after.records, before.records - {id});
  }

  datatype SyncOutcome = SyncDone | ConfigRejected | IndexRefused

  /** Loads the files and brings the database to them. A configuration error changes nothing; an index
      the server refuses ends the sync where a crash after dropping it would. */
  method SyncIndexes(db: Database, files: seq<File>, fails: IndexKey -> bool)
    returns (outcome: SyncOutcome, ghost buckets: seq<Bucket>, ghost at: nat)
    modifies db
    ensures outcome == ConfigRejected <==> exists file :: file in files && !ValidFile(file)
    ensures outcome == ConfigRejected ==> db.State() == old(db.State())
    ensures outcome != ConfigRejected ==>
              OneBucketEach(buckets) && forall c :: BucketSpecs(buckets, c) == SpecsFor(files, c)
    ensures outcome != ConfigRejected ==>
              (outcome == SyncDone <==> NoneRefused(old(db.State()), EntriesOf(buckets), fails))
    ensures outcome == SyncDone ==> db.State() == Synced(old(db.State()), EntriesOf(buckets))
    ensures outcome == IndexRefused ==> RefusedAt(old(db.State()), EntriesOf(buckets), at, fails, db.State())
    ensures outcome == ConfigRejected <==>
              exists file, i: nat :: file in files && i < |file.indexes| && BadSpec(file, i)
    ensures outcome != ConfigRejected ==>
              forall e :: e in EntriesOf(buckets) <==> Configures(files, e.collection, e.spec)
    ensures outcome != ConfigRejected ==>
              && InMentionOrder(files, buckets) && InBucketOrder(buckets, EntriesOf(buckets))
              && forall i :: 0 <= i < |buckets| ==> InFileOrder(files, buckets[i].collection, buckets[i].specs)
    ensures outcome == SyncDone ==> RecordsAreLast(EntriesOf(buckets), db.records)
    ensures outcome == SyncDone && Trusted(old(db.State()), EntriesOf(buckets)) && SingleValued(EntriesOf(buckets)) ==>
              AsConfigured(old(db.State()), EntriesOf(buckets), db.State())
  {
    hide AsConfigured, Configures, Trusted, SingleValued, BadSpec, RecordsAreLast;
    hide InMentionOrder, InFileOrder, InBucketOrder;
    InvalidFiles(files);
    hide SyncEntries, DesiredIds, BucketSpecs, SpecsFor, ValidFile, OneBucketEach, WithoutStale, NoneRefused, RefusedAt;
    var loaded := LoadIndexConfigs(files);
    buckets, at := [], 0;
    if loaded.ConfigError? {
      return ConfigRejected, buckets, at;
    }
    buckets := loaded.buckets;
    EntriesInBucketOrder(buckets);
    forall e
      ensures e in EntriesOf(buckets) <==> Configures(files, e.collection, e.spec)
    {
      EntriesHold(buckets, e);
    }
    var desired: set<string> := {};
    ghost var start, done, all := db.State(), [], EntriesOf(buckets);
    NoEntries(start, fails);
    var i := 0;
    while i < |loaded.buckets|
      invariant 0 <= i <= |loaded.buckets|
      invariant done + EntriesOf(loaded.buckets[i..]) == all
      invariant NoneRefused(start, done, fails)
      invariant db.State() == SyncEntries(start, done)
      invariant desired == DesiredIds(done)
    {
      var bucket := loaded.buckets[i];
      ghost var entries := BucketEntries(bucket.collection, bucket.specs);
      ghost var rest := EntriesOf(loaded.buckets[i + 1..]);
      assert loaded.buckets[i..][1..] == loaded.buckets[i + 1..];
      assert EntriesOf(loaded.buckets[i..]) == entries + rest;
      var ok;
      ok, desired, at := SyncBucket(db, bucket, desired, fails);
      if !ok {
        RefusedLater(start, done, entries, rest, at, fails, db.State());
        at := |done| + at;
        RefusalIsCrash(start, all, at, fails, db.State());
        return IndexRefused, buckets, at;
      }
      SyncEntriesInParts(start, done, entries);
      NoneRefusedInParts(start, done, entries, fails);
      IdsInParts(done, entries);
      assert done + entries + rest == all;
      done := done + entries;
      i := i + 1;
    }
    assert done == all;
    DropStale(db, desired);
    outcome := SyncDone;
    SyncedRecordsAreLast(start, all);
    if Trusted(start, all) && SingleValued(all) {
      CompleteSyncReaches(start, all);
    }
  }

  lemma InvalidFiles(files: seq<File>)
    ensures (exists file :: file in files && !ValidFile(file))
       <==> exists file, i: nat :: file in files && i < |file.indexes| && BadSpec(file, i)
  {
    hide ValidFile, BadSpec;
    forall file | file in files
      ensures ValidFile(file) <==> forall i: nat :: i < |file.indexes| ==> !BadSpec(file, i)
    {
      ValidMeansNoBadSpec(file);
    }
  }

  lemma {:induction false} EntriesHold(buckets: seq<Bucket>, e: Entry)
    ensures e in EntriesOf(buckets)
       <==> exists i :: 0 <= i < |buckets| && buckets[i].collection == e.collection && e.spec in buckets[i].specs
  {
    if buckets != [] {
      var tail := buckets[1..];
      EntriesHold(tail, e);
      BucketEntriesHold(buckets[0], e);
      if i :| 0 <= i < |tail| && tail[i].collection == e.collection && e.spec in tail[i].specs {
        assert buckets[i + 1] == tail[i];
      }
      if i :| 0 < i < |buckets| && buckets[i].collection == e.collection && e.spec in buckets[i].specs {
        assert buckets[i] == tail[i - 1];
      }
    }
  }

  lemma BucketEntriesHold(bucket: Bucket, e: Entry)
    ensures e in BucketEntries(bucket.collection, bucket.specs)
       <==> bucket.collection == e.collection && e.spec in bucket.specs
  {
    var entries := BucketEntries(bucket.collection, bucket.specs);
    if bucket.collection == e.collection && e.spec in bucket.specs {
      var i :| 0 <= i < |bucket.specs| && bucket.specs[i] == e.spec;
      assert entries[i] == e;
    }
  }

  lemma NoEntries(db: Db, fails: IndexKey -> bool)
    ensures SyncEntries(db, []) == db && DesiredIds([]) == {} && NoneRefused(db, [], fails)
  {
  }

  lemma IdsInParts(a: seq<Entry>, b: seq<Entry>)
    ensures DesiredIds(a + b) == DesiredIds(a) + DesiredIds(b)
  {
  }
}
