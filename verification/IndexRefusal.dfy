/** When a sync gets through: the server refuses an index that another index of the collection already is under
    another name, and may refuse one for reasons of its own. */
module IndexRefusal {
  import opened Optional
  import opened IndexSync

  function IsSet(flag: Option<bool>): bool {
    flag == Some(true)
  }

  /** What the server takes for one index, whatever the names. */
  predicate SameIndex(a: IndexDef, b: IndexDef) {
    a.keys == b.keys && IsSet(a.unique) == IsSet(b.unique) && IsSet(a.sparse) == IsSet(b.sparse)
  }

  /** Another index of the collection is this one already. */
  predicate Taken(indexes: map<IndexKey, IndexDef>, key: IndexKey, def: IndexDef) {
    exists other :: other in indexes && other != key && other.collection == key.collection &&
                    SameIndex(indexes[other], def)
  }

  /** The collection has an index with the entry's keys, unique and sparse alike, under another name. */
  predicate ElsewhereAlready(indexes: map<IndexKey, IndexDef>, e: Entry) {
    exists other ::
      && other in indexes && other.collection == e.collection && other.name != e.spec.name
      && indexes[other].keys == e.spec.keys
      && (indexes[other].unique == Some(true) <==> e.spec.unique == Some(true))
      && (indexes[other].sparse == Some(true) <==> e.spec.sparse == Some(true))
  }

  lemma TakenIsElsewhere(indexes: map<IndexKey, IndexDef>, e: Entry)
    ensures Taken(indexes, e.Key(), Definition(e.spec)) <==> ElsewhereAlready(indexes, e)
  {
  }

  /** The entry is not up to date and the server refuses its index, as taken or for the reasons in `fails`. */
  predicate Refused(db: Db, e: Entry, fails: IndexKey -> bool) {
    !UpToDate(db, e) && (fails(e.Key()) || Taken(db.indexes, e.Key(), Definition(e.spec)))
  }

  /** The server refuses none of the entries, each at its turn. */
  predicate NoneRefused(db: Db, entries: seq<Entry>, fails: IndexKey -> bool) {
    forall i :: 0 <= i < |entries| ==> !Refused(SyncEntries(db, entries[..i]), entries[i], fails)
  }

  /** The sync can stop at this crash point: no entry before it was refused. */
  predicate StopsAt(db: Db, entries: seq<Entry>, fails: IndexKey -> bool, p: CrashPoint)
    requires CrashAt(db, entries, p)
  {
    match p
    case Between(k) => NoneRefused(db, entries[..k], fails)
    case Dropped(i) => NoneRefused(db, entries[..i], fails)
    case Created(i) =>
      NoneRefused(db, entries[..i], fails) && !Refused(SyncEntries(db, entries[..i]), entries[i], fails)
    case Cleaning(_, _) => NoneRefused(db, entries, fails)
  }

  /** A sync that died or was refused an index may leave this. */
  ghost predicate Stops(db: Db, entries: seq<Entry>, fails: IndexKey -> bool, db': Db) {
    exists p :: CrashAt(db, entries, p) && StopsAt(db, entries, fails, p) && db' == CrashedState(db, entries, p)
  }

  /** Refused at the turn of `entries[at]`, whose old index is dropped by then. */
  ghost predicate RefusedAt(db: Db, entries: seq<Entry>, at: nat, fails: IndexKey -> bool, db': Db) {
    && CrashAt(db, entries, Dropped(at)) && NoneRefused(db, entries[..at], fails)
    && Refused(SyncEntries(db, entries[..at]), entries[at], fails)
    && db' == CrashedState(db, entries, Dropped(at))
  }

  /** A refusal leaves what a crash may leave, so what holds after crashes holds after refusals. */
  lemma RefusalIsCrash(db: Db, entries: seq<Entry>, at: nat, fails: IndexKey -> bool, db': Db)
    requires RefusedAt(db, entries, at, fails, db')
    ensures !NoneRefused(db, entries, fails)
    ensures Stops(db, entries, fails, db') && CrashedSync(db, entries, db')
  {
    hide SyncEntries, Refused, CrashedState, CrashedSync;
    assert StopsAt(db, entries, fails, Dropped(at));
    CrashPoints(db, entries, db');
  }

  // When the entries get through, in terms of the database before the sync

  /** The entry is neither done nor a repetition, and the server refuses it at its turn: for reasons of its own, over
      an entry before it, or over an index that was there and that no entry before it replaces. */
  predicate RefusedInTurn(db: Db, earlier: seq<Entry>, e: Entry, fails: IndexKey -> bool) {
    && e !in earlier && !UpToDate(db, e)
    && (|| fails(e.Key())
        || (exists a :: a in earlier && a.Key() != e.Key() && a.collection == e.collection &&
                        SameIndex(Definition(a.spec), Definition(e.spec)))
        || (exists key :: key in db.indexes && key != e.Key() && key.collection == e.collection &&
                          SameIndex(db.indexes[key], Definition(e.spec)) && !IsKeyOf(earlier, key)))
  }

  predicate IsKeyOf(entries: seq<Entry>, key: IndexKey) {
    exists a :: a in entries && a.Key() == key
  }

  /** What the entries before it have made of the database at an entry's turn. */
  lemma AtItsTurn(db: Db, earlier: seq<Entry>, all: seq<Entry>, e: Entry)
    requires Trusted(db, all) && SingleValued(all) && e in all && forall a :: a in earlier ==> a in all
    ensures var now := SyncEntries(db, earlier);
      && (UpToDate(now, e) <==> e in earlier || UpToDate(db, e))
      && (forall a :: a in earlier ==> a.Key() in now.indexes && now.indexes[a.Key()] == Definition(a.spec))
      && (forall key :: !IsKeyOf(earlier, key) ==> SameAt(db.indexes, now.indexes, key))
  {
    hide SyncEntries, Definition;
    var now := SyncEntries(db, earlier);
    SyncRest(db, earlier, all);
    if UpToDate(now, e) && !UpToDate(db, e) {
      assert e.Id() in DesiredIds(earlier);
      var a :| a in earlier && a.Id() == e.Id();
      assert a.Key() == e.Key() && a.spec == e.spec;
    }
  }

  lemma RefusedAtItsTurn(db: Db, earlier: seq<Entry>, all: seq<Entry>, e: Entry, fails: IndexKey -> bool)
    requires Trusted(db, all) && SingleValued(all) && e in all && forall a :: a in earlier ==> a in all
    ensures Refused(SyncEntries(db, earlier), e, fails) <==> RefusedInTurn(db, earlier, e, fails)
  {
    hide SyncEntries, Definition, UpToDate, SameIndex, Trusted, SingleValued;
    var now := SyncEntries(db, earlier);
    AtItsTurn(db, earlier, all, e);
    var def := Definition(e.spec);
    if Taken(now.indexes, e.Key(), def) {
      var key :| key in now.indexes && key != e.Key() && key.collection == e.collection &&
                 SameIndex(now.indexes[key], def);
      if IsKeyOf(earlier, key) {
        var a :| a in earlier && a.Key() == key;
        assert SameIndex(Definition(a.spec), def);
      } else {
        assert SameAt(db.indexes, now.indexes, key);
      }
    }
    if a :| a in earlier && a.Key() != e.Key() && a.collection == e.collection && SameIndex(Definition(a.spec), def) {
      assert SameIndex(now.indexes[a.Key()], def);
    }
    if key :| key in db.indexes && key != e.Key() && key.collection == e.collection &&
              SameIndex(db.indexes[key], def) && !IsKeyOf(earlier, key) {
      assert SameAt(db.indexes, now.indexes, key);
      assert SameIndex(now.indexes[key], def);
    }
  }

  /** A sync gets through if and only if no entry is refused at its turn, which shows in the database before it. */
  lemma CompletesExactlyWhen(db: Db, entries: seq<Entry>, fails: IndexKey -> bool)
    requires Trusted(db, entries) && SingleValued(entries)
    ensures NoneRefused(db, entries, fails)
       <==> forall i :: 0 <= i < |entries| ==> !RefusedInTurn(db, entries[..i], entries[i], fails)
  {
    hide SyncEntries, Refused, RefusedInTurn, Trusted, SingleValued;
    forall i | 0 <= i < |entries|
      ensures Refused(SyncEntries(db, entries[..i]), entries[i], fails)
         <==> RefusedInTurn(db, entries[..i], entries[i], fails)
    {
      RefusedAtItsTurn(db, entries[..i], entries, entries[i], fails);
    }
  }

  // A renamed index

  /** The index that `e` asks for exists under the name `former`. */
  ghost predicate Blocked(db: Db, e: Entry, former: IndexKey) {
    && !UpToDate(db, e)
    && former in db.indexes && former != e.Key() && former.collection == e.collection
    && SameIndex(db.indexes[former], Definition(e.spec))
  }

  lemma {:induction false} StaysBlocked(db: Db, rest: seq<Entry>, e: Entry, former: IndexKey)
    requires Blocked(db, e, former) && e !in rest && !IsKeyOf(rest, former)
    ensures Blocked(SyncEntries(db, rest), e, former)
    decreases |rest|
  {
    hide SameIndex, Definition;
    if rest != [] {
      assert rest[0] in rest;
      assert forall a :: a in rest[1..] ==> a in rest;
      OtherEntry(db, rest[0], e);
      StaysBlocked(SyncEntry(db, rest[0]), rest[1..], e, former);
    }
  }

  /** Syncing one entry does not bring another up to date. */
  lemma OtherEntry(db: Db, a: Entry, e: Entry)
    requires !UpToDate(db, e) && a != e
    ensures !UpToDate(SyncEntry(db, a), e)
  {
    if a.Id() == e.Id() && a.spec == e.spec {
      SameNameSameCollection(a.collection, e.collection, e.spec.name);
    }
  }

  lemma SameNameSameCollection(c: string, c': string, name: string)
    requires RecordId(c, name) == RecordId(c', name)
    ensures c == c'
  {
    var tail := "." + name;
    assert RecordId(c, name) == c + tail && RecordId(c', name) == c' + tail;
    assert |c| == |c'| && (c + tail)[..|c|] == c && (c' + tail)[..|c|] == c';
  }

  /** The first occurrence of an entry. */
  lemma {:induction false} FirstOf(entries: seq<Entry>, e: Entry) returns (i: nat)
    requires e in entries
    ensures i < |entries| && entries[i] == e && e !in entries[..i]
  {
    i := 0;
    while entries[i] != e
      invariant i < |entries| && e !in entries[..i] && e in entries[i..]
      decreases |entries| - i
    {
      assert entries[i..] == [entries[i]] + entries[i + 1..];
      assert entries[..i + 1] == entries[..i] + [entries[i]];
      i := i + 1;
    }
  }

  lemma BlockedIsRefused(db: Db, entries: seq<Entry>, e: Entry, former: IndexKey, fails: IndexKey -> bool)
    requires Blocked(db, e, former) && !IsKeyOf(entries, former) && e in entries
    ensures !NoneRefused(db, entries, fails)
  {
    hide SyncEntries, SameIndex;
    var i := FirstOf(entries, e);
    assert forall a :: a in entries[..i] ==> a in entries;
    StaysBlocked(db, entries[..i], e, former);
    assert Refused(SyncEntries(db, entries[..i]), entries[i], fails);
  }

  /** However such a sync ends, the index is still in the way. */
  lemma StopKeepsBlocked(db: Db, entries: seq<Entry>, fails: IndexKey -> bool, db': Db, e: Entry, former: IndexKey)
    requires Stops(db, entries, fails, db')
    requires Blocked(db, e, former) && !IsKeyOf(entries, former) && e in entries
    ensures Blocked(db', e, former)
  {
    hide SyncEntries, NoneRefused, SameIndex, Definition;
    var p :| CrashAt(db, entries, p) && StopsAt(db, entries, fails, p) && db' == CrashedState(db, entries, p);
    if p.Cleaning? {
      BlockedIsRefused(db, entries, e, former, fails);
    } else {
      var k := if p.Between? then p.done else p.at;
      assert forall a :: a in entries[..k] ==> a in entries;
      if e in entries[..k] {
        BlockedIsRefused(db, entries[..k], e, former, fails);
      } else {
        StaysBlocked(db, entries[..k], e, former);
        if !p.Between? {
          assert entries[k] in entries;
          OneMoreWrite(SyncEntries(db, entries[..k]), entries[k], fails, p.Created?, e, former);
        }
      }
    }
  }

  /** One write of the entry at its turn: dropping its index, or creating it. */
  lemma OneMoreWrite(now: Db, a: Entry, fails: IndexKey -> bool, created: bool, e: Entry, former: IndexKey)
    requires Blocked(now, e, former) && a.Key() != former && (created ==> !Refused(now, a, fails))
    ensures Blocked(now.(indexes := now.indexes - {a.Key()}), e, former)
    ensures created ==> Blocked(now.(indexes := now.indexes[a.Key() := Definition(a.spec)]), e, former)
  {
    hide SameIndex;
  }

  ghost predicate MayStop(db: Db, entries: seq<Entry>, db': Db) {
    exists fails :: Stops(db, entries, fails, db')
  }

  /** Any number of syncs to one configuration, each of which died or was refused an index. */
  ghost predicate Attempts(entries: seq<Entry>, states: seq<Db>) {
    states != [] && forall i :: 0 <= i < |states| - 1 ==> MayStop(states[i], entries, states[i + 1])
  }

  lemma {:induction false} AttemptsKeepBlocked(entries: seq<Entry>, states: seq<Db>, i: nat, e: Entry, former: IndexKey)
    requires Attempts(entries, states) && i < |states|
    requires Blocked(states[0], e, former) && !IsKeyOf(entries, former) && e in entries
    ensures Blocked(states[i], e, former)
  {
    hide Blocked, Stops, IsKeyOf;
    if i > 0 {
      AttemptsKeepBlocked(entries, states, i - 1, e, former);
      assert MayStop(states[i - 1], entries, states[i - 1 + 1]);
      var fails :| Stops(states[i - 1], entries, fails, states[i]);
      StopKeepsBlocked(states[i - 1], entries, fails, states[i], e, former);
    }
  }

  /** An index renamed in the configuration, its keys and options kept: the old one is still there when the new one
      is to be created, and goes only after the loop. So no sync ever gets through, however often it is tried. */
  lemma RenameNeverCompletes(entries: seq<Entry>, states: seq<Db>, before: Entry, e: Entry, fails: IndexKey -> bool)
    requires Attempts(entries, states) && Sound(states[0])
    requires before.Id() in states[0].records && states[0].records[before.Id()] == before.Record()
    requires e in entries && e == Entry(before.collection, before.spec.(name := e.spec.name))
    requires !UpToDate(states[0], e) && !IsKeyOf(entries, before.Key())
    ensures !NoneRefused(states[|states| - 1], entries, fails)
    ensures before.Key() in states[|states| - 1].indexes
  {
    hide SyncEntries, Stops, UpToDate, NoneRefused, MayStop;
    assert e.Key() != before.Key() by {
      assert IsKeyOf(entries, e.Key());
    }
    assert Blocked(states[0], e, before.Key());
    AttemptsKeepBlocked(entries, states, |states| - 1, e, before.Key());
    BlockedIsRefused(states[|states| - 1], entries, e, before.Key(), fails);
  }
}
