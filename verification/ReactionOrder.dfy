/** 0008 on sde_blueprints: the updates of a batch finish in any order, and the whole may be cut short and
    started again. What an earlier attempt left behind never shows; the order of the updates shows exactly when
    the last batch that lists an id gives it different documents. */
module ReactionOrder {
  import opened Maps
  import opened Optional
  import opened SdeData
  import opened MigrationState

  // A list of upserts, document by document

  function LastWith(docs: seq<Doc>, id: int): Option<Doc> {
    if docs == [] then None
    else if docs[|docs| - 1].id == id then Some(docs[|docs| - 1])
    else LastWith(docs[..|docs| - 1], id)
  }

  lemma {:induction false} UpsertedAt(m: map<int, Doc>, docs: seq<Doc>, id: int)
    ensures LastWith(docs, id).Some? ==> id in Upserted(m, docs) && Upserted(m, docs)[id] == LastWith(docs, id).value
    ensures LastWith(docs, id).None? ==>
              (id in Upserted(m, docs) <==> id in m) && (id in m ==> Upserted(m, docs)[id] == m[id])
  {
    if docs != [] {
      UpsertedAt(m, docs[..|docs| - 1], id);
    }
  }

  lemma {:induction false} LastWithIsOne(docs: seq<Doc>, id: int)
    ensures LastWith(docs, id).Some? <==> Lists(docs, id)
    ensures LastWith(docs, id).Some? ==> LastWith(docs, id).value in docs && LastWith(docs, id).value.id == id
  {
    if docs != [] {
      var front, last := docs[..|docs| - 1], docs[|docs| - 1];
      LastWithIsOne(front, id);
      assert docs == front + [last];
      assert last in docs;
      assert forall doc :: doc in docs <==> doc in front || doc == last;
    }
  }

  lemma {:induction false} LastWithInParts(a: seq<Doc>, b: seq<Doc>, id: int)
    ensures LastWith(a + b, id) == if LastWith(b, id).Some? then LastWith(b, id) else LastWith(a, id)
    decreases |b|
  {
    if b == [] {
      assert a + b == a;
    } else {
      assert (a + b)[..|a + b| - 1] == a + b[..|b| - 1];
      LastWithInParts(a, b[..|b| - 1], id);
    }
  }

  lemma {:induction false} UpsertedInParts(m: map<int, Doc>, a: seq<Doc>, b: seq<Doc>)
    ensures Upserted(m, a + b) == Upserted(Upserted(m, a), b)
    decreases |b|
  {
    if b == [] {
      assert a + b == a;
    } else {
      assert (a + b)[..|a + b| - 1] == a + b[..|b| - 1];
      UpsertedInParts(m, a, b[..|b| - 1]);
    }
  }

  lemma Reordered(order: seq<Doc>, docs: seq<Doc>)
    requires multiset(order) == multiset(docs)
    ensures forall doc :: doc in order <==> doc in docs
    ensures forall id :: Lists(order, id) <==> Lists(docs, id)
  {
    assert forall doc :: doc in docs <==> doc in multiset(docs);
    assert forall doc :: doc in order <==> doc in multiset(order);
  }

  // What an earlier attempt left behind does not show

  /** Any part of the upserts done, doing all of them again, in whatever order, is doing them once. */
  lemma UpsertAbsorbs(m: map<int, Doc>, docs: seq<Doc>, m': map<int, Doc>, order: seq<Doc>)
    requires PartlyUpserted(m, docs, m') && multiset(order) == multiset(docs)
    ensures Upserted(m', order) == Upserted(m, order)
  {
    hide Upserted, LastWith;
    Reordered(order, docs);
    forall id
      ensures id in Upserted(m', order) <==> id in Upserted(m, order)
      ensures id in Upserted(m', order) ==> Upserted(m', order)[id] == Upserted(m, order)[id]
    {
      LastWithIsOne(order, id);
      UpsertedAt(m, order, id);
      UpsertedAt(m', order, id);
    }
    assert forall id :: id in Upserted(m', order).Keys <==> id in Upserted(m, order).Keys;
    SameMap(Upserted(m', order), Upserted(m, order));
  }

  lemma SameBeyondUpserts(docs: seq<Doc>, m: map<int, Doc>, batch: seq<Doc>, m': map<int, Doc>)
    requires forall doc :: doc in batch ==> doc in docs
    ensures SameBeyond(docs, Upserted(m, batch), m)
    ensures PartlyUpserted(m, batch, m') ==> SameBeyond(docs, m', m)
  {
    hide Upserted, LastWith, FillDoc;
    forall id | !Lists(docs, id)
      ensures (id in Upserted(m, batch) <==> id in m) && (id in m ==> Upserted(m, batch)[id] == m[id])
    {
      LastWithIsOne(batch, id);
      UpsertedAt(m, batch, id);
    }
  }

  lemma SameBeyondFill(docs: seq<Doc>, m: map<int, Doc>, m': map<int, Doc>)
    ensures SameBeyond(docs, Filled(m), m)
    ensures PartlyFilled(m, m') ==> SameBeyond(docs, m', m)
  {
    if PartlyFilled(m, m') {
      assert forall id :: id in m.Keys <==> id in m'.Keys;
    }
  }

  lemma SameBeyondChain(docs: seq<Doc>, a: map<int, Doc>, b: map<int, Doc>, c: map<int, Doc>)
    requires SameBeyond(docs, a, b) && SameBeyond(docs, b, c)
    ensures SameBeyond(docs, a, c)
  {
    hide Lists, FillDoc;
  }

  /** The whole of 0008 sees no difference between collections that agree beyond what it writes. */
  lemma SameBeyondAbsorbed(docs: seq<Doc>, a: map<int, Doc>, b: map<int, Doc>, order: seq<Doc>)
    requires SameBeyond(docs, a, b) && multiset(order) == multiset(docs)
    ensures Filled(Upserted(a, order)) == Filled(Upserted(b, order))
  {
    hide Upserted, LastWith, Lists, FillDoc;
    Reordered(order, docs);
    var ra, rb := Filled(Upserted(a, order)), Filled(Upserted(b, order));
    forall id
      ensures id in ra <==> id in rb
      ensures id in ra ==> ra[id] == rb[id]
    {
      LastWithIsOne(order, id);
      UpsertedAt(a, order, id);
      UpsertedAt(b, order, id);
    }
    assert forall id :: id in ra.Keys <==> id in rb.Keys;
    SameMap(ra, rb);
  }

  /** All upserts done in one order and any part of the default activity: doing everything again in another order
      is doing it once in that order. */
  lemma FillAbsorbs(m: map<int, Doc>, docs: seq<Doc>, first: seq<Doc>, order: seq<Doc>, m': map<int, Doc>)
    requires multiset(first) == multiset(docs) && multiset(order) == multiset(docs)
    requires PartlyFilled(Upserted(m, first), m')
    ensures Filled(Upserted(m', order)) == Filled(Upserted(m, order))
  {
    hide SameBeyond, PartlyFilled, Upserted, Filled;
    Reordered(first, docs);
    SameBeyondUpserts(docs, m, first, m);
    SameBeyondFill(docs, Upserted(m, first), m');
    SameBeyondChain(docs, m', Upserted(m, first), m);
    SameBeyondAbsorbed(docs, m', m, order);
  }

  // When the order of the updates shows

  predicate SameIdSameDoc(docs: seq<Doc>) {
    forall i, j :: 0 <= i < j < |docs| && docs[i].id == docs[j].id ==> docs[i] == docs[j]
  }

  lemma BatchOrderIrrelevant(m: map<int, Doc>, docs: seq<Doc>, order: seq<Doc>)
    requires SameIdSameDoc(docs) && multiset(order) == multiset(docs)
    ensures Upserted(m, order) == Upserted(m, docs)
  {
    hide SameIdSameDoc, Upserted, LastWith, Lists;
    Reordered(order, docs);
    forall id
      ensures id in Upserted(m, order) <==> id in Upserted(m, docs)
      ensures id in Upserted(m, docs) ==> Upserted(m, order)[id] == Upserted(m, docs)[id]
    {
      UpsertedAt(m, order, id);
      UpsertedAt(m, docs, id);
      LastWithIsOne(order, id);
      LastWithIsOne(docs, id);
      if LastWith(docs, id).Some? {
        SameIdIsOne(docs, LastWith(order, id).value, LastWith(docs, id).value);
      }
    }
    assert forall id :: id in Upserted(m, order).Keys <==> id in Upserted(m, docs).Keys;
    SameMap(Upserted(m, order), Upserted(m, docs));
  }

  lemma SameIdIsOne(docs: seq<Doc>, a: Doc, b: Doc)
    requires SameIdSameDoc(docs) && a in docs && b in docs && a.id == b.id
    ensures a == b
  {
  }

  /** The batch with its `i`-th upsert finishing last. */
  function FinishingLast(docs: seq<Doc>, i: nat): (order: seq<Doc>)
    requires i < |docs|
    ensures multiset(order) == multiset(docs)
  {
    assert docs == docs[..i] + [docs[i]] + docs[i + 1..];
    docs[..i] + docs[i + 1..] + [docs[i]]
  }

  lemma LastOneWins(docs: seq<Doc>, i: nat)
    requires i < |docs|
    ensures LastWith(FinishingLast(docs, i), docs[i].id) == Some(docs[i])
    ensures var result := Upserted(map[], FinishingLast(docs, i));
      docs[i].id in result && result[docs[i].id] == docs[i]
  {
  }

  /** The order in which a batch's upserts finish is irrelevant exactly when documents that share an id
      are equal. */
  lemma BatchOrderIrrelevantExactlyWhen(docs: seq<Doc>)
    ensures (forall m, order :: multiset(order) == multiset(docs) ==> Upserted(m, order) == Upserted(m, docs))
       <==> SameIdSameDoc(docs)
  {
    hide Upserted;
    if SameIdSameDoc(docs) {
      forall m, order | multiset(order) == multiset(docs)
        ensures Upserted(m, order) == Upserted(m, docs)
      {
        BatchOrderIrrelevant(m, docs, order);
      }
    } else {
      var i, j :| 0 <= i < j < |docs| && docs[i].id == docs[j].id && docs[i] != docs[j];
      LastOneWins(docs, i);
      LastOneWins(docs, j);
      assert Upserted(map[], FinishingLast(docs, i)) != Upserted(map[], FinishingLast(docs, j));
    }
  }

  /** In the last batch that lists an id, all documents of that id are equal. */
  predicate Settled(docs: seq<Doc>)
    decreases |docs|
  {
    docs == [] ||
    (var n := BatchSize(docs);
     var batch, rest := docs[..n], docs[n..];
     && (forall a, b :: a in batch && b in batch && a.id == b.id && a != b ==> Lists(rest, a.id))
     && Settled(rest))
  }

  /** The same by position: two different documents of one id among the same 500 are followed by a document of that
      id in a later 500. */
  predicate LastBatchAgrees(docs: seq<Doc>) {
    forall i, j ::
      0 <= i < j < |docs| && i / 500 == j / 500 && docs[i].id == docs[j].id && docs[i] != docs[j] ==>
        ListedInLaterBatch(docs, j)
  }

  predicate ListedInLaterBatch(docs: seq<Doc>, j: nat)
    requires j < |docs|
  {
    exists l :: j < l < |docs| && j / 500 < l / 500 && docs[l].id == docs[j].id
  }

  lemma LaterInRest(docs: seq<Doc>, j: nat)
    requires j < |docs|
    ensures j < 500 <= |docs| ==> (ListedInLaterBatch(docs, j) <==> Lists(docs[500..], docs[j].id))
    ensures |docs| <= 500 ==> !ListedInLaterBatch(docs, j)
    ensures 500 <= j ==> (ListedInLaterBatch(docs, j) <==> ListedInLaterBatch(docs[500..], j - 500))
  {
    if 500 <= |docs| {
      var rest := docs[500..];
      if j < 500 && Lists(rest, docs[j].id) {
        var doc :| doc in rest && doc.id == docs[j].id;
        var l :| 0 <= l < |rest| && rest[l] == doc;
        assert docs[l + 500] == doc;
      }
      if ListedInLaterBatch(docs, j) {
        var l :| j < l < |docs| && j / 500 < l / 500 && docs[l].id == docs[j].id;
        assert rest[l - 500] == docs[l] && rest[l - 500] in rest;
      }
      if 500 <= j && ListedInLaterBatch(rest, j - 500) {
        var l :| j - 500 < l < |rest| && (j - 500) / 500 < l / 500 && rest[l].id == rest[j - 500].id;
        assert docs[l + 500] == rest[l];
      }
    }
  }

  lemma {:induction false} SettledByPosition(docs: seq<Doc>)
    ensures Settled(docs) <==> LastBatchAgrees(docs)
    decreases |docs|
  {
    hide Lists;
    if docs != [] {
      var n := BatchSize(docs);
      var batch, rest := docs[..n], docs[n..];
      SettledByPosition(rest);
      if Settled(docs) {
        AgreesFromParts(docs);
      } else if LastBatchAgrees(docs) {
        PartsAgree(docs);
      }
    }
  }

  lemma AgreesFromParts(docs: seq<Doc>)
    requires docs != [] && LastBatchAgrees(docs[BatchSize(docs)..])
    requires var n := BatchSize(docs);
      forall a, b :: a in docs[..n] && b in docs[..n] && a.id == b.id && a != b ==> Lists(docs[n..], a.id)
    ensures LastBatchAgrees(docs)
  {
    hide ListedInLaterBatch;
    var n := BatchSize(docs);
    var batch, rest := docs[..n], docs[n..];
    forall i, j | 0 <= i < j < |docs| && i / 500 == j / 500 && docs[i].id == docs[j].id && docs[i] != docs[j]
      ensures ListedInLaterBatch(docs, j)
    {
      LaterInRest(docs, j);
      if j < n {
        assert batch[i] == docs[i] && batch[j] == docs[j];
        assert Lists(rest, docs[i].id);
      } else {
        assert n == 500 && 500 <= i;
        assert rest[i - 500] == docs[i] && rest[j - 500] == docs[j];
        assert (i - 500) / 500 == (j - 500) / 500;
      }
    }
  }

  lemma PartsAgree(docs: seq<Doc>)
    requires docs != [] && LastBatchAgrees(docs)
    ensures LastBatchAgrees(docs[BatchSize(docs)..])
    ensures var n := BatchSize(docs);
      forall a, b :: a in docs[..n] && b in docs[..n] && a.id == b.id && a != b ==> Lists(docs[n..], a.id)
  {
    hide ListedInLaterBatch, Lists;
    var n := BatchSize(docs);
    var batch, rest := docs[..n], docs[n..];
    forall a, b | a in batch && b in batch && a.id == b.id && a != b
      ensures Lists(rest, a.id)
    {
      var i: nat :| i < n && batch[i] == a;
      var j: nat :| j < n && batch[j] == b;
      var last := if i < j then j else i;
      assert docs[i] == a && docs[j] == b && i / 500 == j / 500;
      assert ListedInLaterBatch(docs, last);
      LaterInRest(docs, last);
    }
    forall i, j | 0 <= i < j < |rest| && i / 500 == j / 500 && rest[i].id == rest[j].id && rest[i] != rest[j]
      ensures ListedInLaterBatch(rest, j)
    {
      assert n == 500 && docs[i + 500] == rest[i] && docs[j + 500] == rest[j];
      assert (i + 500) / 500 == (j + 500) / 500;
      LaterInRest(docs, j + 500);
    }
  }

  lemma {:induction false} FinishedIsAll(finish: Finish, docs: seq<Doc>, k: nat)
    requires InSomeOrder(finish)
    ensures multiset(Finished(finish, docs, k)) == multiset(docs)
    decreases |docs|
  {
    if docs != [] {
      var n := BatchSize(docs);
      FinishedIsAll(finish, docs[n..], k + 1);
      assert docs == docs[..n] + docs[n..];
    }
  }

  /** What the last of a settled list's upserts of an id writes does not depend on the order. */
  lemma {:induction false} SettledLast(finish: Finish, finish': Finish, docs: seq<Doc>, k: nat, id: int)
    requires InSomeOrder(finish) && InSomeOrder(finish') && Settled(docs)
    ensures LastWith(Finished(finish, docs, k), id) == LastWith(Finished(finish', docs, k), id)
    decreases |docs|
  {
    hide InSomeOrder, LastWith, Lists;
    if docs != [] {
      var n := BatchSize(docs);
      var batch, rest := docs[..n], docs[n..];
      LastWithInParts(finish(k, batch), Finished(finish, rest, k + 1), id);
      LastWithInParts(finish'(k, batch), Finished(finish', rest, k + 1), id);
      SettledLast(finish, finish', rest, k + 1, id);
      FinishedIsAll(finish, rest, k + 1);
      Reordered(Finished(finish, rest, k + 1), rest);
      LastWithIsOne(Finished(finish, rest, k + 1), id);
      if !Lists(rest, id) {
        LastOfBatch(finish, batch, k, id);
        LastOfBatch(finish', batch, k, id);
      }
    }
  }

  lemma LastOfBatch(finish: Finish, batch: seq<Doc>, k: nat, id: int)
    requires InSomeOrder(finish)
    ensures LastWith(finish(k, batch), id).Some? <==> Lists(batch, id)
    ensures var last := LastWith(finish(k, batch), id); last.Some? ==> last.value in batch && last.value.id == id
  {
    hide LastWith;
    assert multiset(finish(k, batch)) == multiset(batch);
    Reordered(finish(k, batch), batch);
    LastWithIsOne(finish(k, batch), id);
  }

  /** Every batch takes effect as it was issued, but the `k`-th, when it is `batch`, takes effect as `order`. */
  function Except(k: nat, batch: seq<Doc>, order: seq<Doc>): Finish {
    (k', batch') => if k' == k && batch' == batch then order else batch'
  }

  lemma NotInRest(finish: Finish, rest: seq<Doc>, k: nat, id: int)
    requires InSomeOrder(finish) && !Lists(rest, id)
    ensures LastWith(Finished(finish, rest, k), id).None?
  {
    hide LastWith, Lists;
    FinishedIsAll(finish, rest, k);
    Reordered(Finished(finish, rest, k), rest);
    LastWithIsOne(Finished(finish, rest, k), id);
  }

  /** The `i`-th upsert of the batch finishes last and no later batch lists its id. */
  lemma LastForGood(batch: seq<Doc>, rest: seq<Doc>, k: nat, i: nat) returns (finish: Finish)
    requires i < |batch| && !Lists(rest, batch[i].id)
    ensures InSomeOrder(finish)
    ensures LastWith(finish(k, batch) + Finished(finish, rest, k + 1), batch[i].id) == Some(batch[i])
  {
    hide LastWith, Lists, Finished;
    finish := Except(k, batch, FinishingLast(batch, i));
    LastOneWins(batch, i);
    NotInRest(finish, rest, k + 1, batch[i].id);
    LastWithInParts(finish(k, batch), Finished(finish, rest, k + 1), batch[i].id);
  }

  /** A list that is not settled has two orders after which one id has different documents. */
  lemma {:induction false} UnsettledLast(docs: seq<Doc>, k: nat)
    returns (finish: Finish, finish': Finish, id: int)
    requires !Settled(docs)
    ensures InSomeOrder(finish) && InSomeOrder(finish')
    ensures LastWith(Finished(finish, docs, k), id).Some? && LastWith(Finished(finish', docs, k), id).Some?
    ensures LastWith(Finished(finish, docs, k), id) != LastWith(Finished(finish', docs, k), id)
    decreases |docs|
  {
    hide LastWith, Lists, InSomeOrder;
    var n := BatchSize(docs);
    var batch, rest := docs[..n], docs[n..];
    if !Settled(rest) {
      finish, finish', id := UnsettledLast(rest, k + 1);
      LastWithInParts(finish(k, batch), Finished(finish, rest, k + 1), id);
      LastWithInParts(finish'(k, batch), Finished(finish', rest, k + 1), id);
    } else {
      var a, b :| a in batch && b in batch && a.id == b.id && a != b && !Lists(rest, a.id);
      var i :| 0 <= i < |batch| && batch[i] == a;
      var j :| 0 <= j < |batch| && batch[j] == b;
      id := a.id;
      finish := LastForGood(batch, rest, k, i);
      finish' := LastForGood(batch, rest, k, j);
    }
  }

  /** Reaction documents carry their activity, so the default does not touch them. */
  lemma {:induction false} ReactionsTagged(tables: Tables, rows: seq<RawRow>, doc: Doc)
    requires doc in JoinedDocs(tables, rows, REACTIONS, Some(REACTIONS))
    ensures FillDoc(doc) == doc
  {
    if rows != [] {
      var front, last := rows[..|rows| - 1], rows[|rows| - 1];
      if doc in JoinedDocs(tables, front, REACTIONS, Some(REACTIONS)) {
        ReactionsTagged(tables, front, doc);
      }
    }
  }

  /** After 0008 a reaction has the document of its last update. */
  lemma WithReactionsAt(files: Files, finish: Finish, m: map<int, Doc>, id: int)
    requires InSomeOrder(finish)
    ensures var last := LastWith(Finished(finish, ReactionDocs(SourceTables(files)), 0), id);
      last.Some? ==> id in WithReactions(files, finish, m) && WithReactions(files, finish, m)[id] == last.value
  {
    hide LastWith, Lists, FillDoc, Upserted, SourceTables, JoinedDocs;
    var docs := ReactionDocs(SourceTables(files));
    var order := Finished(finish, docs, 0);
    FinishedIsAll(finish, docs, 0);
    Reordered(order, docs);
    LastWithIsOne(order, id);
    UpsertedAt(m, order, id);
    if LastWith(order, id).Some? {
      ReactionsTagged(SourceTables(files), SourceTables(files).products, LastWith(order, id).value);
    }
  }

  /** The order of the updates does not show in what 0008 leaves if and only if the reactions are settled. */
  lemma ReactionOrderIrrelevantExactlyWhen(files: Files, m: map<int, Doc>)
    ensures (forall finish, finish' :: InSomeOrder(finish) && InSomeOrder(finish') ==>
                                         WithReactions(files, finish, m) == WithReactions(files, finish', m))
       <==> LastBatchAgrees(ReactionDocs(SourceTables(files)))
  {
    hide InSomeOrder, WithReactions, Settled, LastBatchAgrees, SourceTables, JoinedDocs, LastWith, Finished;
    var docs := ReactionDocs(SourceTables(files));
    SettledByPosition(docs);
    if Settled(docs) {
      forall finish, finish' | InSomeOrder(finish) && InSomeOrder(finish')
        ensures WithReactions(files, finish, m) == WithReactions(files, finish', m)
      {
        SettledResult(files, finish, finish', m);
      }
    } else {
      var finish, finish', id := UnsettledLast(docs, 0);
      WithReactionsAt(files, finish, m, id);
      WithReactionsAt(files, finish', m, id);
      assert WithReactions(files, finish, m) != WithReactions(files, finish', m);
    }
  }

  lemma SettledResult(files: Files, finish: Finish, finish': Finish, m: map<int, Doc>)
    requires InSomeOrder(finish) && InSomeOrder(finish') && Settled(ReactionDocs(SourceTables(files)))
    ensures WithReactions(files, finish, m) == WithReactions(files, finish', m)
  {
    hide InSomeOrder, Settled, SourceTables, JoinedDocs, LastWith, Finished, Upserted;
    var docs := ReactionDocs(SourceTables(files));
    var order, order' := Finished(finish, docs, 0), Finished(finish', docs, 0);
    forall id
      ensures id in Upserted(m, order) <==> id in Upserted(m, order')
      ensures id in Upserted(m, order) ==> Upserted(m, order)[id] == Upserted(m, order')[id]
    {
      SettledLast(finish, finish', docs, 0, id);
      UpsertedAt(m, order, id);
      UpsertedAt(m, order', id);
    }
    assert forall id :: id in Upserted(m, order).Keys <==> id in Upserted(m, order').Keys;
    SameMap(Upserted(m, order), Upserted(m, order'));
  }
}
