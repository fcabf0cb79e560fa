/** Index configuration files: what `load_index_configs` accepts and how it merges files. */
module IndexConfig {
  import opened Optional

  datatype KeyPart = KeyPart(field: string, direction: int)

  /** One entry of a file's "indexes". An empty name or key list stands for a missing one; `extra`
      holds the fields that are not index options. */
  datatype Spec = Spec(name: string, keys: seq<KeyPart>, unique: Option<bool>, sparse: Option<bool>,
                       expireAfterSeconds: Option<int>, extra: map<string, string>)

  datatype File = File(collection: string, indexes: seq<Spec>)

  /** The files in path order become a dict from collection to specs, in order of first mention. */
  datatype Bucket = Bucket(collection: string, specs: seq<Spec>)

  datatype Loaded = Configs(buckets: seq<Bucket>) | ConfigError

  predicate ValidFile(file: File) {
    && (forall i :: 0 <= i < |file.indexes| ==> file.indexes[i].name != "" && file.indexes[i].keys != [])
    && (forall i, j :: 0 <= i < j < |file.indexes| ==> file.indexes[i].name != file.indexes[j].name)
  }

  /** All specs the files give for one collection, in file order. */
  function SpecsFor(files: seq<File>, collection: string): seq<Spec> {
    if files == [] then []
    else SpecsFor(files[..|files| - 1], collection) +
         if files[|files| - 1].collection == collection then files[|files| - 1].indexes else []
  }

  function BucketSpecs(buckets: seq<Bucket>, collection: string): seq<Spec> {
    if buckets == [] then []
    else if buckets[0].collection == collection then buckets[0].specs
    else BucketSpecs(buckets[1..], collection)
  }

  predicate OneBucketEach(buckets: seq<Bucket>) {
    forall i, j :: 0 <= i < j < |buckets| ==> buckets[i].collection != buckets[j].collection
  }

  predicate Mentions(buckets: seq<Bucket>, collection: string) {
    exists i :: 0 <= i < |buckets| && buckets[i].collection == collection
  }

  /** A collection's list grows at its end; a collection not seen before gets a list of its own. */
  function Extend(buckets: seq<Bucket>, collection: string, specs: seq<Spec>): seq<Bucket> {
    if buckets == [] then [Bucket(collection, specs)]
    else if buckets[0].collection == collection then [Bucket(collection, buckets[0].specs + specs)] + buckets[1..]
    else [buckets[0]] + Extend(buckets[1..], collection, specs)
  }

  lemma {:induction false} ExtendAt(buckets: seq<Bucket>, collection: string, specs: seq<Spec>, c: string)
    ensures BucketSpecs(Extend(buckets, collection, specs), c)
         == BucketSpecs(buckets, c) + if c == collection then specs else []
    ensures Mentions(Extend(buckets, collection, specs), c) <==> Mentions(buckets, c) || c == collection
    ensures OneBucketEach(buckets) ==> OneBucketEach(Extend(buckets, collection, specs))
  {
    var more := Extend(buckets, collection, specs);
    if buckets == [] {
      assert more[0].collection == collection;
    } else {
      var head, tail := buckets[0], buckets[1..];
      assert more[0].collection == head.collection;
      MentionsHead(buckets, c);
      MentionsHead(more, c);
      if head.collection != collection {
        ExtendAt(tail, collection, specs, c);
        ExtendAt(tail, collection, specs, head.collection);
        if OneBucketEach(buckets) {
          HeadOnce(buckets);
          PrependBucket(head, Extend(tail, collection, specs));
        }
      } else if OneBucketEach(buckets) {
        assert forall i :: 0 <= i < |more| ==> more[i].collection == buckets[i].collection;
      }
    }
  }

  lemma MentionsHead(buckets: seq<Bucket>, c: string)
    requires buckets != []
    ensures Mentions(buckets, c) <==> buckets[0].collection == c || Mentions(buckets[1..], c)
  {
    if Mentions(buckets[1..], c) {
      var i :| 0 <= i < |buckets[1..]| && buckets[1..][i].collection == c;
      assert buckets[i + 1].collection == c;
    }
    if Mentions(buckets, c) && buckets[0].collection != c {
      var i :| 0 <= i < |buckets| && buckets[i].collection == c;
      assert buckets[1..][i - 1].collection == c;
    }
  }

  lemma HeadOnce(buckets: seq<Bucket>)
    requires buckets != [] && OneBucketEach(buckets)
    ensures OneBucketEach(buckets[1..]) && !Mentions(buckets[1..], buckets[0].collection)
  {
  }

  lemma PrependBucket(head: Bucket, tail: seq<Bucket>)
    requires OneBucketEach(tail) && !Mentions(tail, head.collection)
    ensures OneBucketEach([head] + tail)
  {
  }

  /** Some file asks for the spec on the collection. */
  predicate Configures(files: seq<File>, collection: string, spec: Spec) {
    exists file :: file in files && file.collection == collection && spec in file.indexes
  }

  lemma {:induction false} SpecsAreConfigured(files: seq<File>, collection: string, spec: Spec)
    ensures spec in SpecsFor(files, collection) <==> Configures(files, collection, spec)
  {
    if files != [] {
      var front, last := files[..|files| - 1], files[|files| - 1];
      SpecsAreConfigured(front, collection, spec);
      assert files == front + [last];
      assert forall file :: file in files <==> file in front || file == last;
    }
  }

  lemma {:induction false} BucketHolds(buckets: seq<Bucket>, collection: string, spec: Spec)
    requires OneBucketEach(buckets)
    ensures spec in BucketSpecs(buckets, collection)
       <==> exists i :: 0 <= i < |buckets| && buckets[i].collection == collection && spec in buckets[i].specs
  {
    if buckets != [] {
      var tail := buckets[1..];
      HeadOnce(buckets);
      BucketHolds(tail, collection, spec);
      if i :| 0 <= i < |tail| && tail[i].collection == collection && spec in tail[i].specs {
        assert buckets[i + 1] == tail[i];
      }
      if i :| 0 <= i < |buckets| && buckets[i].collection == collection && spec in buckets[i].specs {
        if i > 0 {
          assert buckets[i] == tail[i - 1];
        }
      }
    }
  }

  /** A spec without a name or keys, or with the name of an earlier one. */
  predicate BadSpec(file: File, i: nat)
    requires i < |file.indexes|
  {
    || file.indexes[i].name == "" || file.indexes[i].keys == []
    || exists j :: 0 <= j < i && file.indexes[j].name == file.indexes[i].name
  }

  lemma ValidMeansNoBadSpec(file: File)
    ensures ValidFile(file) <==> forall i: nat :: i < |file.indexes| ==> !BadSpec(file, i)
  {
    if forall i: nat :: i < |file.indexes| ==> !BadSpec(file, i) {
      forall i: nat, j: nat | i < j < |file.indexes|
        ensures file.indexes[i].name != file.indexes[j].name
        ensures file.indexes[i].name != "" && file.indexes[i].keys != []
      {
        assert !BadSpec(file, i) && !BadSpec(file, j);
      }
      forall i: nat | i < |file.indexes|
        ensures file.indexes[i].name != "" && file.indexes[i].keys != []
      {
        assert !BadSpec(file, i);
      }
    }
  }

  /** The checks on one file: every spec named and keyed, no name twice. */
  method CheckFile(file: File) returns (ok: bool)
    ensures ok <==> ValidFile(file)
    ensures ok <==> forall i: nat :: i < |file.indexes| ==> !BadSpec(file, i)
  {
    ValidMeansNoBadSpec(file);
    var seenNames: set<string> := {};
    var i := 0;
    while i < |file.indexes|
      invariant 0 <= i <= |file.indexes|
      invariant seenNames == set j | 0 <= j < i :: file.indexes[j].name
      invariant forall j :: 0 <= j < i ==> file.indexes[j].name != "" && file.indexes[j].keys != []
      invariant forall j, k :: 0 <= j < k < i ==> file.indexes[j].name != file.indexes[k].name
    {
      var spec := file.indexes[i];
      if spec.name == "" || spec.keys == [] {
        return false;
      }
      if spec.name in seenNames {
        return false;
      }
      seenNames := seenNames + {spec.name};
      i := i + 1;
    }
    ok := true;
  }

  // The order of what is loaded

  /** The specs from `start` to `end` are those the file has for the collection; a file for another one has none. */
  predicate SpecsOfFile(file: File, collection: string, specs: seq<Spec>, start: nat, end: nat) {
    && start <= end <= |specs|
    && specs[start..end] == if file.collection == collection then file.indexes else []
  }

  /** `offsets` says where the specs of each file end. */
  predicate SpecsAt(files: seq<File>, collection: string, specs: seq<Spec>, offsets: seq<nat>) {
    && |offsets| == |files| + 1 && offsets[0] == 0 && offsets[|files|] == |specs|
    && forall k :: 0 <= k < |files| ==> SpecsOfFile(files[k], collection, specs, offsets[k], offsets[k + 1])
  }

  /** The specs are those of the collection's files, file after file. */
  ghost predicate InFileOrder(files: seq<File>, collection: string, specs: seq<Spec>) {
    exists offsets :: SpecsAt(files, collection, specs, offsets)
  }

  lemma SpecsOfFileMore(file: File, collection: string, specs: seq<Spec>, more: seq<Spec>, start: nat, end: nat)
    requires SpecsOfFile(file, collection, specs, start, end)
    ensures SpecsOfFile(file, collection, specs + more, start, end)
  {
    assert (specs + more)[start..end] == specs[start..end];
  }

  lemma {:induction false} SpecsForAt(files: seq<File>, collection: string) returns (offsets: seq<nat>)
    ensures SpecsAt(files, collection, SpecsFor(files, collection), offsets)
  {
    if files == [] {
      offsets := [0];
    } else {
      hide SpecsOfFile;
      var n := |files| - 1;
      var specs := SpecsFor(files[..n], collection);
      var last := if files[n].collection == collection then files[n].indexes else [];
      var front := SpecsForAt(files[..n], collection);
      offsets := front + [|specs + last|];
      forall k | 0 <= k < |files|
        ensures SpecsOfFile(files[k], collection, specs + last, offsets[k], offsets[k + 1])
      {
        if k < n {
          assert SpecsOfFile(files[..n][k], collection, specs, front[k], front[k + 1]);
          SpecsOfFileMore(files[k], collection, specs, last, front[k], front[k + 1]);
        } else {
          LastOfFile(files[n], collection, specs, last);
        }
      }
    }
  }

  lemma LastOfFile(file: File, collection: string, specs: seq<Spec>, last: seq<Spec>)
    requires last == if file.collection == collection then file.indexes else []
    ensures SpecsOfFile(file, collection, specs + last, |specs|, |specs + last|)
  {
  }

  lemma SpecsInFileOrder(files: seq<File>, collection: string)
    ensures InFileOrder(files, collection, SpecsFor(files, collection))
  {
    var offsets := SpecsForAt(files, collection);
  }

  lemma {:induction false} BucketSpecsAt(buckets: seq<Bucket>, i: nat)
    requires OneBucketEach(buckets) && i < |buckets|
    ensures BucketSpecs(buckets, buckets[i].collection) == buckets[i].specs
  {
    if i > 0 {
      HeadOnce(buckets);
      BucketSpecsAt(buckets[1..], i - 1);
    }
  }

  /** Some file is for the collection, and none up to it is for the other one. */
  predicate FirstBefore(files: seq<File>, collection: string, other: string) {
    exists k :: 0 <= k < |files| && files[k].collection == collection &&
                forall l :: 0 <= l <= k ==> files[l].collection != other
  }

  predicate HasFile(files: seq<File>, collection: string) {
    exists k :: 0 <= k < |files| && files[k].collection == collection
  }

  /** The buckets come in the order in which the files first mention their collections. */
  predicate InMentionOrder(files: seq<File>, buckets: seq<Bucket>) {
    && (forall k :: 0 <= k < |files| ==> Mentions(buckets, files[k].collection))
    && (forall i :: 0 <= i < |buckets| ==> HasFile(files, buckets[i].collection))
    && forall i, j :: 0 <= i < j < |buckets| ==> FirstBefore(files, buckets[i].collection, buckets[j].collection)
  }

  lemma FirstBeforeMore(files: seq<File>, more: seq<File>, collection: string, other: string)
    requires FirstBefore(files, collection, other)
    ensures FirstBefore(files + more, collection, other)
  {
    var k :| 0 <= k < |files| && files[k].collection == collection &&
             forall l :: 0 <= l <= k ==> files[l].collection != other;
    assert (files + more)[k].collection == collection;
  }

  /** Extending keeps the buckets where they are; a new one comes last. */
  lemma {:induction false} ExtendCollections(buckets: seq<Bucket>, collection: string, specs: seq<Spec>)
    ensures var more := Extend(buckets, collection, specs);
      && |more| == (if Mentions(buckets, collection) then |buckets| else |buckets| + 1)
      && (forall i :: 0 <= i < |buckets| ==> more[i].collection == buckets[i].collection)
      && (!Mentions(buckets, collection) ==> more[|buckets|].collection == collection)
  {
    if buckets != [] {
      MentionsHead(buckets, collection);
      if buckets[0].collection != collection {
        ExtendCollections(buckets[1..], collection, specs);
      }
    }
  }

  lemma ExtendInOrder(files: seq<File>, buckets: seq<Bucket>, file: File)
    requires InMentionOrder(files, buckets)
    ensures InMentionOrder(files + [file], Extend(buckets, file.collection, file.indexes))
  {
    hide FirstBefore, Extend;
    var more, all := Extend(buckets, file.collection, file.indexes), files + [file];
    ExtendCollections(buckets, file.collection, file.indexes);
    forall k | 0 <= k < |all|
      ensures Mentions(more, all[k].collection)
    {
      ExtendAt(buckets, file.collection, file.indexes, all[k].collection);
    }
    forall i | 0 <= i < |more|
      ensures HasFile(all, more[i].collection)
    {
      if i < |buckets| {
        assert HasFile(files, buckets[i].collection);
        var k :| 0 <= k < |files| && files[k].collection == buckets[i].collection;
        assert all[k].collection == more[i].collection;
      } else {
        assert all[|files|].collection == more[i].collection;
      }
    }
    forall i, j | 0 <= i < j < |more|
      ensures FirstBefore(all, more[i].collection, more[j].collection)
    {
      if j < |buckets| {
        FirstBeforeMore(files, [file], buckets[i].collection, buckets[j].collection);
      } else {
        NewBucketLast(files, buckets, file, i);
      }
    }
  }

  lemma NewBucketLast(files: seq<File>, buckets: seq<Bucket>, file: File, i: nat)
    requires InMentionOrder(files, buckets) && !Mentions(buckets, file.collection) && i < |buckets|
    ensures FirstBefore(files + [file], buckets[i].collection, file.collection)
  {
    assert HasFile(files, buckets[i].collection);
    var k :| 0 <= k < |files| && files[k].collection == buckets[i].collection;
    forall l | 0 <= l <= k
      ensures (files + [file])[l].collection != file.collection
    {
      assert Mentions(buckets, files[l].collection);
    }
    assert (files + [file])[k].collection == buckets[i].collection;
  }

  lemma NoBuckets()
    ensures OneBucketEach([]) && InMentionOrder([], []) && forall c :: BucketSpecs([], c) == []
  {
  }

  /** Loading succeeds exactly when every file is valid, and then maps each collection to the specs
      of all its files. A name may still repeat across files. */
  method LoadIndexConfigs(files: seq<File>) returns (loaded: Loaded)
    ensures loaded.Configs? <==> forall file :: file in files ==> ValidFile(file)
    ensures loaded.Configs? ==>
              && OneBucketEach(loaded.buckets)
              && forall c :: BucketSpecs(loaded.buckets, c) == SpecsFor(files, c)
    ensures loaded.Configs? ==>
              forall c, spec :: Configures(files, c, spec) <==>
                exists i :: 0 <= i < |loaded.buckets| && loaded.buckets[i].collection == c &&
                            spec in loaded.buckets[i].specs
    ensures loaded.Configs? ==>
              && InMentionOrder(files, loaded.buckets)
              && forall i :: 0 <= i < |loaded.buckets| ==>
                               InFileOrder(files, loaded.buckets[i].collection, loaded.buckets[i].specs)
  {
    hide Configures, InFileOrder, InMentionOrder;
    hide ValidFile, OneBucketEach, BucketSpecs, Extend;
    var buckets: seq<Bucket> := [];
    NoBuckets();
    var i := 0;
    while i < |files|
      invariant 0 <= i <= |files|
      invariant forall j :: 0 <= j < i ==> ValidFile(files[j])
      invariant OneBucketEach(buckets)
      invariant forall c :: BucketSpecs(buckets, c) == SpecsFor(files[..i], c)
      invariant InMentionOrder(files[..i], buckets)
    {
      var ok := CheckFile(files[i]);
      if !ok {
        assert files[i] in files;
        return ConfigError;
      }
      assert files[..i + 1][..i] == files[..i];
      forall c
        ensures BucketSpecs(Extend(buckets, files[i].collection, files[i].indexes), c) == SpecsFor(files[..i + 1], c)
      {
        ExtendAt(buckets, files[i].collection, files[i].indexes, c);
      }
      ExtendAt(buckets, files[i].collection, files[i].indexes, "");
      ExtendInOrder(files[..i], buckets, files[i]);
      assert files[..i + 1] == files[..i] + [files[i]];
      buckets := Extend(buckets, files[i].collection, files[i].indexes);
      i := i + 1;
    }
    assert files[..i] == files;
    loaded := Configs(buckets);
    forall c, spec
      ensures Configures(files, c, spec) <==>
                exists k :: 0 <= k < |buckets| && buckets[k].collection == c && spec in buckets[k].specs
    {
      SpecsAreConfigured(files, c, spec);
      BucketHolds(buckets, c, spec);
    }
    forall k | 0 <= k < |buckets|
      ensures InFileOrder(files, buckets[k].collection, buckets[k].specs)
    {
      BucketSpecsAt(buckets, k);
      SpecsInFileOrder(files, buckets[k].collection);
    }
  }
}
