/** The market-order scrape: dispatching jobs, fetching a region page by page, publishing its orders
    in chunks, and the bulk insert that a redelivered chunk must not repeat. */
module MarketOrders {

  datatype Order = Order(orderId: int, typeId: int, locationId: int, isBuyOrder: bool, price: real,
                         volumeRemain: int, volumeTotal: int, minVolume: int, duration: int,
                         issued: string, range: string)

  datatype Job = Job(regionId: int, runId: string)

  datatype Chunk = Chunk(regionId: int, runId: string, orders: seq<Order>)

  datatype Row = Row(order: Order, regionId: int, runId: string, scrapedAt: int)

  datatype Key = Key(orderId: int, runId: string)

  function KeyOf(row: Row): Key {
    Key(row.order.orderId, row.runId)
  }

  // The collection, with or without the unique (order_id, scrape_run_id) index

  predicate HasKey(rows: seq<Row>, k: Key) {
    exists i :: 0 <= i < |rows| && KeyOf(rows[i]) == k
  }

  predicate DistinctKeys(rows: seq<Row>) {
    forall i, j :: 0 <= i < j < |rows| ==> KeyOf(rows[i]) != KeyOf(rows[j])
  }

  /** The order has a row in the scrape run. */
  predicate HasRow(rows: seq<Row>, orderId: int, runId: string) {
    exists i :: 0 <= i < |rows| && rows[i].order.orderId == orderId && rows[i].runId == runId
  }

  /** No order has two rows in one scrape run. */
  predicate OneRowPerOrder(rows: seq<Row>) {
    forall i, j :: 0 <= i < j < |rows| && rows[i].order.orderId == rows[j].order.orderId ==>
                     rows[i].runId != rows[j].runId
  }

  /** The row that a chunk's order becomes. */
  predicate IsRowFor(chunk: Chunk, now: int, row: Row) {
    row.order in chunk.orders && row.regionId == chunk.regionId && row.runId == chunk.runId && row.scrapedAt == now
  }

  /** The row of an order that the server did not refuse. */
  predicate IsAcceptedRow(chunk: Chunk, now: int, faults: set<nat>, row: Row) {
    exists i: nat :: i < |chunk.orders| && i !in faults &&
                     row == Row(chunk.orders[i], chunk.regionId, chunk.runId, now)
  }

  lemma KeysAreOrderAndRun(rows: seq<Row>)
    ensures forall orderId, runId :: HasKey(rows, Key(orderId, runId)) <==> HasRow(rows, orderId, runId)
    ensures DistinctKeys(rows) <==> OneRowPerOrder(rows)
  {
    assert forall i, j :: 0 <= i < j < |rows| ==>
      (KeyOf(rows[i]) == KeyOf(rows[j]) <==>
       rows[i].order.orderId == rows[j].order.orderId && rows[i].runId == rows[j].runId);
    forall orderId, runId
      ensures HasKey(rows, Key(orderId, runId)) <==> HasRow(rows, orderId, runId)
    {
    }
  }

  function InsertOne(unique: bool, rows: seq<Row>, doc: Row): seq<Row> {
    if unique && HasKey(rows, KeyOf(doc)) then rows else rows + [doc]
  }

  /** An unordered bulk insert: a document refused for its key does not stop the others. */
  function Inserted(unique: bool, rows: seq<Row>, docs: seq<Row>): seq<Row> {
    if docs == [] then rows
    else InsertOne(unique, Inserted(unique, rows, docs[..|docs| - 1]), docs[|docs| - 1])
  }

  function Docs(chunk: Chunk, now: int): seq<Row> {
    seq(|chunk.orders|, i requires 0 <= i < |chunk.orders| =>
      Row(chunk.orders[i], chunk.regionId, chunk.runId, now))
  }

  /** Rows are only ever appended, each from the inserted documents; every document ends up with a
      row for its key; and with the index no key gets a second row. */
  lemma {:induction false} InsertedRows(unique: bool, rows: seq<Row>, docs: seq<Row>)
    ensures rows <= Inserted(unique, rows, docs)
    ensures forall row :: row in Inserted(unique, rows, docs) ==> row in rows || row in docs
    ensures forall doc :: doc in docs ==> HasKey(Inserted(unique, rows, docs), KeyOf(doc))
    ensures unique && DistinctKeys(rows) ==> DistinctKeys(Inserted(unique, rows, docs))
  {
    if docs != [] {
      var front, last := docs[..|docs| - 1], docs[|docs| - 1];
      assert docs == front + [last];
      InsertedRows(unique, rows, front);
      InsertOneRow(unique, Inserted(unique, rows, front), last);
      forall doc | doc in docs
        ensures HasKey(Inserted(unique, rows, docs), KeyOf(doc))
      {
        if doc in front {
          KeyKept(Inserted(unique, rows, front), Inserted(unique, rows, docs), KeyOf(doc));
        }
      }
    }
  }

  lemma InsertOneRow(unique: bool, rows: seq<Row>, doc: Row)
    ensures rows <= InsertOne(unique, rows, doc)
    ensures forall row :: row in InsertOne(unique, rows, doc) ==> row in rows || row == doc
    ensures HasKey(InsertOne(unique, rows, doc), KeyOf(doc))
    ensures unique && DistinctKeys(rows) ==> DistinctKeys(InsertOne(unique, rows, doc))
  {
    var after := InsertOne(unique, rows, doc);
    if !(unique && HasKey(rows, KeyOf(doc))) {
      assert KeyOf(after[|rows|]) == KeyOf(doc);
    }
  }

  lemma KeyKept(rows: seq<Row>, more: seq<Row>, k: Key)
    requires rows <= more && HasKey(rows, k)
    ensures HasKey(more, k)
  {
    var i :| 0 <= i < |rows| && KeyOf(rows[i]) == k;
    assert more[i] == rows[i];
  }

  /** With the index, documents whose keys are all present change nothing, whatever else they say. */
  lemma {:induction false} KnownKeysIgnored(rows: seq<Row>, docs: seq<Row>)
    requires forall doc :: doc in docs ==> HasKey(rows, KeyOf(doc))
    ensures Inserted(true, rows, docs) == rows
  {
    if docs != [] {
      KnownKeysIgnored(rows, docs[..|docs| - 1]);
    }
  }

  /** Applying a chunk again, at any later time and after any other inserts, changes nothing. */
  lemma RedeliveryIsHarmless(rows: seq<Row>, chunk: Chunk, now: int, since: seq<Row>, later: int)
    requires Inserted(true, rows, Docs(chunk, now)) <= since
    ensures Inserted(true, since, Docs(chunk, later)) == since
  {
    var once := Inserted(true, rows, Docs(chunk, now));
    InsertedRows(true, rows, Docs(chunk, now));
    forall doc | doc in Docs(chunk, later)
      ensures HasKey(since, KeyOf(doc))
    {
      var i :| 0 <= i < |chunk.orders| && Docs(chunk, later)[i] == doc;
      assert Docs(chunk, now)[i] in Docs(chunk, now);
      assert KeyOf(Docs(chunk, now)[i]) == KeyOf(doc);
      KeyKept(once, since, KeyOf(doc));
    }
    KnownKeysIgnored(since, Docs(chunk, later));
  }

  datatype WriteError = DuplicateKey | OtherError

  datatype Outcome = Done(count: nat) | Raised

  class OrdersCollection {
    const unique: bool
    var rows: seq<Row>

    constructor (unique: bool)
      ensures this.unique == unique && rows == []
    {
      this.unique := unique;
      rows := [];
    }

    /** Documents named in `faults` are refused by the server for another reason than their key. */
    method InsertMany(docs: seq<Row>, faults: set<nat>) returns (errors: seq<WriteError>)
      modifies this
      ensures rows == Inserted(unique, old(rows), WithoutFaults(docs, faults))
      ensures OtherError in errors <==> exists i: nat :: i < |docs| && i in faults
    {
      hide Inserted;
      hide WithoutFaults;
      NothingInserted(unique, rows, docs, faults);
      errors := [];
      var i := 0;
      while i < |docs|
        invariant 0 <= i <= |docs|
        invariant rows == Inserted(unique, old(rows), WithoutFaults(docs[..i], faults))
        invariant OtherError in errors <==> exists j: nat :: j < i && j in faults
      {
        OneMoreDoc(unique, old(rows), docs, faults, i);
        if i in faults {
          errors := errors + [OtherError];
        } else if unique && HasKey(rows, KeyOf(docs[i])) {
          errors := errors + [DuplicateKey];
        } else {
          rows := rows + [docs[i]];
        }
        i := i + 1;
      }
      assert docs[..i] == docs;
    }
  }

  function WithoutFaults(docs: seq<Row>, faults: set<nat>): seq<Row> {
    if docs == [] then []
    else var n := |docs| - 1;
      WithoutFaults(docs[..n], faults) + if n in faults then [] else [docs[n]]
  }

  lemma OneMoreDoc(unique: bool, rows: seq<Row>, docs: seq<Row>, faults: set<nat>, i: nat)
    requires i < |docs|
    ensures var before := Inserted(unique, rows, WithoutFaults(docs[..i], faults));
      Inserted(unique, rows, WithoutFaults(docs[..i + 1], faults))
      == if i in faults then before else InsertOne(unique, before, docs[i])
  {
    assert docs[..i + 1][..i] == docs[..i];
    var kept := WithoutFaults(docs[..i], faults);
    assert WithoutFaults(docs[..i + 1], faults) == kept + if i in faults then [] else [docs[i]];
    if i in faults {
      assert kept + [] == kept;
    } else {
      InsertedSnoc(unique, rows, kept, docs[i]);
    }
  }

  lemma InsertedSnoc(unique: bool, rows: seq<Row>, front: seq<Row>, doc: Row)
    ensures Inserted(unique, rows, front + [doc]) == InsertOne(unique, Inserted(unique, rows, front), doc)
  {
    assert (front + [doc])[..|front + [doc]| - 1] == front;
  }

  lemma NothingInserted(unique: bool, rows: seq<Row>, docs: seq<Row>, faults: set<nat>)
    ensures Inserted(unique, rows, WithoutFaults(docs[..0], faults)) == rows
  {
  }

  /** Duplicate keys are swallowed, any other write error is raised. */
  method ApplyOrdersChunk(db: OrdersCollection, chunk: Chunk, now: int, faults: set<nat>) returns (outcome: Outcome)
    modifies db
    ensures outcome == Raised <==> exists i: nat :: i < |chunk.orders| && i in faults
    ensures outcome.Done? ==>
              outcome.count == |chunk.orders| && db.rows == Inserted(db.unique, old(db.rows), Docs(chunk, now))
    ensures db.rows == Inserted(db.unique, old(db.rows), WithoutFaults(Docs(chunk, now), faults))
    ensures old(db.rows) <= db.rows
    ensures forall row :: row in db.rows ==> row in old(db.rows) || IsRowFor(chunk, now, row)
    ensures outcome.Done? ==> forall o :: o in chunk.orders ==> HasRow(db.rows, o.orderId, chunk.runId)
    ensures forall i: nat :: i < |chunk.orders| && i !in faults ==> HasRow(db.rows, chunk.orders[i].orderId, chunk.runId)
    ensures forall k :: |old(db.rows)| <= k < |db.rows| ==> IsAcceptedRow(chunk, now, faults, db.rows[k])
    ensures db.unique && OneRowPerOrder(old(db.rows)) ==> OneRowPerOrder(db.rows)
    ensures !db.unique && outcome.Done? ==>
              && |db.rows| == |old(db.rows)| + |chunk.orders|
              && forall i :: 0 <= i < |chunk.orders| ==>
                               db.rows[|old(db.rows)| + i] == Row(chunk.orders[i], chunk.regionId, chunk.runId, now)
  {
    hide Inserted, HasKey, HasRow, DistinctKeys, OneRowPerOrder, WithoutFaults, IsAcceptedRow;
    var docs := Docs(chunk, now);
    DocsAreRows(chunk, now);
    KeysAreOrderAndRun(db.rows);
    KeptDocs(docs, faults);
    AcceptedDocs(db.unique, db.rows, chunk, now, faults);
    InsertedRows(db.unique, db.rows, WithoutFaults(docs, faults));
    InsertedRows(db.unique, db.rows, docs);
    if !db.unique {
      AllInserted(db.rows, docs);
    }
    if docs != [] {
      var errors := db.InsertMany(docs, faults);
      KeysAreOrderAndRun(db.rows);
      if OtherError in errors {
        return Raised;
      }
    } else {
      NothingInserted(db.unique, db.rows, docs, faults);
      assert docs[..0] == docs;
    }
    outcome := Done(|chunk.orders|);
    forall o | o in chunk.orders
      ensures HasRow(db.rows, o.orderId, chunk.runId)
    {
      var i :| 0 <= i < |chunk.orders| && chunk.orders[i] == o;
      assert docs[i] in docs && KeyOf(docs[i]) == Key(o.orderId, chunk.runId);
    }
  }

  /** Refused documents do not stop the others, and leave no row. */
  lemma AcceptedDocs(unique: bool, rows: seq<Row>, chunk: Chunk, now: int, faults: set<nat>)
    ensures var after := Inserted(unique, rows, WithoutFaults(Docs(chunk, now), faults));
      && rows <= after
      && (forall i: nat :: i < |chunk.orders| && i !in faults ==>
            HasRow(after, chunk.orders[i].orderId, chunk.runId))
      && forall k :: |rows| <= k < |after| ==> IsAcceptedRow(chunk, now, faults, after[k])
  {
    hide Inserted, HasKey, HasRow, WithoutFaults, IsAcceptedRow;
    var docs := Docs(chunk, now);
    var kept := WithoutFaults(docs, faults);
    var after := Inserted(unique, rows, kept);
    InsertedRows(unique, rows, kept);
    InsertedAreDocs(unique, rows, kept);
    KeysAreOrderAndRun(after);
    forall i: nat | i < |chunk.orders| && i !in faults
      ensures HasRow(after, chunk.orders[i].orderId, chunk.runId)
    {
      KeptWhenNoFault(docs, faults, i);
      assert KeyOf(docs[i]) == Key(chunk.orders[i].orderId, chunk.runId);
    }
    forall k | |rows| <= k < |after|
      ensures IsAcceptedRow(chunk, now, faults, after[k])
    {
      var i := FaultlessPosition(docs, faults, after[k]);
      DocIsAccepted(chunk, now, faults, i);
    }
  }

  lemma DocIsAccepted(chunk: Chunk, now: int, faults: set<nat>, i: nat)
    requires i < |chunk.orders| && i !in faults
    ensures IsAcceptedRow(chunk, now, faults, Docs(chunk, now)[i])
  {
  }

  /** New rows are inserted documents. */
  lemma {:induction false} InsertedAreDocs(unique: bool, rows: seq<Row>, docs: seq<Row>)
    ensures rows <= Inserted(unique, rows, docs)
    ensures forall k :: |rows| <= k < |Inserted(unique, rows, docs)| ==> Inserted(unique, rows, docs)[k] in docs
  {
    hide HasKey;
    if docs != [] {
      InsertedAreDocs(unique, rows, docs[..|docs| - 1]);
    }
  }

  lemma {:induction false} KeptWhenNoFault(docs: seq<Row>, faults: set<nat>, i: nat)
    requires i < |docs| && i !in faults
    ensures docs[i] in WithoutFaults(docs, faults)
  {
    if i < |docs| - 1 {
      KeptWhenNoFault(docs[..|docs| - 1], faults, i);
    }
  }

  lemma {:induction false} FaultlessPosition(docs: seq<Row>, faults: set<nat>, doc: Row) returns (i: nat)
    requires doc in WithoutFaults(docs, faults)
    ensures i < |docs| && i !in faults && docs[i] == doc
  {
    var n := |docs| - 1;
    if n !in faults && docs[n] == doc {
      i := n;
    } else {
      i := FaultlessPosition(docs[..n], faults, doc);
    }
  }

  lemma DocsAreRows(chunk: Chunk, now: int)
    ensures forall row :: row in Docs(chunk, now) ==> IsRowFor(chunk, now, row)
    ensures |Docs(chunk, now)| == |chunk.orders|
    ensures forall i :: 0 <= i < |chunk.orders| ==>
                          Docs(chunk, now)[i] == Row(chunk.orders[i], chunk.regionId, chunk.runId, now)
  {
  }

  /** Without the index every document gets a row of its own, in order. */
  lemma {:induction false} AllInserted(rows: seq<Row>, docs: seq<Row>)
    ensures Inserted(false, rows, docs) == rows + docs
  {
    if docs != [] {
      AllInserted(rows, docs[..|docs| - 1]);
      assert docs == docs[..|docs| - 1] + [docs[|docs| - 1]];
    }
  }

  lemma {:induction false} KeptDocs(docs: seq<Row>, faults: set<nat>)
    ensures forall doc :: doc in WithoutFaults(docs, faults) ==> doc in docs
    ensures (forall i: nat :: i < |docs| ==> i !in faults) ==> WithoutFaults(docs, faults) == docs
  {
    if docs != [] {
      var n := |docs| - 1;
      assert docs == docs[..n] + [docs[n]];
      KeptDocs(docs[..n], faults);
    }
  }

  // Publishing

  /** How one publish ends: confirmed, or with an exception, before or after the broker has the message. */
  datatype Delivery = Confirmed | Lost | Unconfirmed

  predicate AllConfirmed(deliveries: nat -> Delivery, n: nat) {
    forall i: nat :: i < n ==> deliveries(i) == Confirmed
  }

  /** How many messages the broker has when the `i`-th is the first to raise. */
  function SentBefore(deliveries: nat -> Delivery, i: nat): nat {
    if deliveries(i) == Unconfirmed then i + 1 else i
  }

  /** Of `n` messages `sent` reach the queue: all, or those up to the first exception. */
  ghost predicate SendEnds(deliveries: nat -> Delivery, n: nat, sent: nat, ok: bool) {
    if ok then sent == n && AllConfirmed(deliveries, n)
    else exists i: nat ::
      i < n && AllConfirmed(deliveries, i) && deliveries(i) != Confirmed && sent == SentBefore(deliveries, i)
  }

  lemma SendStops(deliveries: nat -> Delivery, n: nat, i: nat)
    requires i < n && AllConfirmed(deliveries, i) && deliveries(i) != Confirmed
    ensures SendEnds(deliveries, n, SentBefore(deliveries, i), false)
  {
  }

  lemma NoneSent(deliveries: nat -> Delivery)
    ensures AllConfirmed(deliveries, 0)
  {
  }

  lemma AllSent(deliveries: nat -> Delivery, n: nat)
    requires AllConfirmed(deliveries, n)
    ensures SendEnds(deliveries, n, n, true)
  {
  }

  lemma OneMoreConfirmed(deliveries: nat -> Delivery, i: nat)
    requires AllConfirmed(deliveries, i) && deliveries(i) == Confirmed
    ensures AllConfirmed(deliveries, i + 1)
  {
  }

  class Broker {
    var jobs: multiset<Job>
    var results: multiset<Chunk>

    constructor ()
      ensures jobs == multiset{} && results == multiset{}
    {
      jobs, results := multiset{}, multiset{};
    }

    method PublishJob(job: Job, delivery: Delivery) returns (ok: bool)
      modifies `jobs
      ensures ok <==> delivery == Confirmed
      ensures jobs == if delivery == Lost then old(jobs) else old(jobs) + multiset{job}
    {
      if delivery != Lost {
        jobs := jobs + multiset{job};
      }
      ok := delivery == Confirmed;
    }

    method PublishChunk(chunk: Chunk, delivery: Delivery) returns (ok: bool)
      modifies `results
      ensures ok <==> delivery == Confirmed
      ensures results == if delivery == Lost then old(results) else old(results) + multiset{chunk}
    {
      if delivery != Lost {
        results := results + multiset{chunk};
      }
      ok := delivery == Confirmed;
    }
  }

  function JobsFor(regions: seq<int>, runId: string): (jobs: seq<Job>)
    ensures |jobs| == |regions|
  {
    seq(|regions|, i requires 0 <= i < |regions| => Job(regions[i], runId))
  }

  /** One job for each of the first regions. */
  predicate AreJobs(regions: seq<int>, runId: string, jobs: seq<Job>) {
    |jobs| <= |regions| && forall i :: 0 <= i < |jobs| ==> jobs[i].regionId == regions[i] && jobs[i].runId == runId
  }

  /** The queue holds one more job for each of the first `sent` regions. */
  ghost predicate Queued(before: multiset<Job>, after: multiset<Job>, regions: seq<int>, runId: string, sent: nat) {
    exists jobs :: |jobs| == sent && AreJobs(regions, runId, jobs) && after == before + multiset(jobs)
  }

  ghost predicate JobsSent(before: multiset<Job>, after: multiset<Job>, regions: seq<int>, runId: string, n: nat) {
    n <= |regions| && after == before + multiset(JobsFor(regions, runId)[..n])
  }

  lemma NoJobsYet(jobs: multiset<Job>, regions: seq<int>, runId: string)
    ensures JobsSent(jobs, jobs, regions, runId, 0)
  {
  }

  lemma NextJob(before: multiset<Job>, after: multiset<Job>, regions: seq<int>, runId: string, n: nat)
    requires JobsSent(before, after, regions, runId, n) && n < |regions|
    ensures JobsSent(before, after + multiset{Job(regions[n], runId)}, regions, runId, n + 1)
  {
    var jobs := JobsFor(regions, runId);
    assert jobs[..n + 1] == jobs[..n] + [Job(regions[n], runId)];
  }

  lemma JobsUpTo(before: multiset<Job>, after: multiset<Job>, regions: seq<int>, runId: string, n: nat)
    requires JobsSent(before, after, regions, runId, n)
    ensures n <= |regions| && after == before + multiset(JobsFor(regions, runId)[..n])
    ensures Queued(before, after, regions, runId, n)
  {
    assert AreJobs(regions, runId, JobsFor(regions, runId)[..n]);
  }

  /** One job per public region, all under one run id, up to the first publish that raises. */
  method DispatchScrape(broker: Broker, regions: seq<int>, runId: string, deliveries: nat -> Delivery)
    returns (ok: bool, ghost sent: nat)
    modifies broker
    ensures sent <= |regions| && SendEnds(deliveries, |regions|, sent, ok)
    ensures broker.jobs == old(broker.jobs) + multiset(JobsFor(regions, runId)[..sent])
    ensures broker.results == old(broker.results)
    ensures Queued(old(broker.jobs), broker.jobs, regions, runId, sent)
  {
    hide AllConfirmed, SendEnds, JobsFor, Queued, JobsSent;
    NoJobsYet(broker.jobs, regions, runId);
    NoneSent(deliveries);
    var i := 0;
    while i < |regions|
      invariant 0 <= i <= |regions|
      invariant AllConfirmed(deliveries, i)
      invariant JobsSent(old(broker.jobs), broker.jobs, regions, runId, i)
      invariant broker.results == old(broker.results)
    {
      NextJob(old(broker.jobs), broker.jobs, regions, runId, i);
      ok := broker.PublishJob(Job(regions[i], runId), deliveries(i));
      if !ok {
        SendStops(deliveries, |regions|, i);
        sent := SentBefore(deliveries, i);
        JobsUpTo(old(broker.jobs), broker.jobs, regions, runId, sent);
        return;
      }
      OneMoreConfirmed(deliveries, i);
      i := i + 1;
    }
    AllSent(deliveries, i);
    ok, sent := true, i;
    JobsUpTo(old(broker.jobs), broker.jobs, regions, runId, sent);
  }

  // Fetching

  /** What one page request ends in: entries and the X-Pages header, a 404, or an exception. */
  datatype PageResponse = PageOk(entries: seq<Order>, totalPages: int) | NotFound | Failed

  datatype Fetched = Orders(orders: seq<Order>) | FetchRaised

  function Entries(response: PageResponse): seq<Order> {
    if response.PageOk? then response.entries else []
  }

  /** A region without a market answers 404, which counts as no pages at all. */
  function TotalPages(response: PageResponse): int {
    if response.PageOk? then response.totalPages else 0
  }

  function PagesUpTo(pages: int -> PageResponse, n: nat): seq<Order> {
    if n == 0 then [] else PagesUpTo(pages, n - 1) + Entries(pages(n))
  }

  /** How many pages the job reads: the first always, the rest as the first one announces. */
  function PagesRead(pages: int -> PageResponse): nat {
    if TotalPages(pages(1)) <= 1 then 1 else TotalPages(pages(1))
  }

  predicate PagesFetched(pages: int -> PageResponse) {
    forall p :: 1 <= p <= PagesRead(pages) ==> pages(p) != Failed
  }

  // The same, in terms of the responses

  /** A request raised: the first, or one for a page that the first announces. */
  ghost predicate SomePageFails(pages: int -> PageResponse) {
    pages(1).Failed? || (pages(1).PageOk? && exists p :: 2 <= p <= pages(1).totalPages && pages(p).Failed?)
  }

  /** `offsets` says where the orders of page 1, 2, ..., `n` end; a page that is no page has none. */
  ghost predicate PagesAt(pages: int -> PageResponse, n: nat, orders: seq<Order>, offsets: seq<nat>) {
    && |offsets| == n + 1 && offsets[0] == 0 && offsets[n] == |orders|
    && forall p: nat :: 1 <= p <= n ==>
         && offsets[p - 1] <= offsets[p] <= |orders|
         && orders[offsets[p - 1]..offsets[p]] == (if pages(p).PageOk? then pages(p).entries else [])
  }

  /** There are `n` pages to read: as many as the first response says, but at least the first. */
  predicate Announced(pages: int -> PageResponse, n: nat) {
    if pages(1).PageOk? && 2 <= pages(1).totalPages then n == pages(1).totalPages else n == 1
  }

  /** The orders of the first page and of every other page it announces, page after page. */
  ghost predicate InPageOrder(pages: int -> PageResponse, orders: seq<Order>) {
    exists n, offsets :: Announced(pages, n) && PagesAt(pages, n, orders, offsets)
  }

  /** The order is on the first page or on one that it announces. */
  ghost predicate OnSomePage(pages: int -> PageResponse, o: Order) {
    && pages(1).PageOk?
    && (|| o in pages(1).entries
        || exists p :: 2 <= p <= pages(1).totalPages && pages(p).PageOk? && o in pages(p).entries)
  }

  lemma {:induction false} PagesUpToAt(pages: int -> PageResponse, n: nat) returns (offsets: seq<nat>)
    ensures PagesAt(pages, n, PagesUpTo(pages, n), offsets)
  {
    if n == 0 {
      offsets := [0];
    } else {
      var before := PagesUpToAt(pages, n - 1);
      var orders, all := PagesUpTo(pages, n - 1), PagesUpTo(pages, n);
      offsets := before + [|all|];
      forall p: nat | 1 <= p <= n
        ensures offsets[p - 1] <= offsets[p] <= |all|
        ensures all[offsets[p - 1]..offsets[p]] == (if pages(p).PageOk? then pages(p).entries else [])
      {
        if p < n {
          assert orders[before[p - 1]..before[p]] == all[offsets[p - 1]..offsets[p]];
        }
      }
    }
  }

  lemma PagesReadInOrder(pages: int -> PageResponse)
    ensures InPageOrder(pages, PagesUpTo(pages, PagesRead(pages)))
  {
    var offsets := PagesUpToAt(pages, PagesRead(pages));
  }

  lemma {:induction false} OnPagesUpTo(pages: int -> PageResponse, n: nat, o: Order)
    ensures o in PagesUpTo(pages, n) <==> exists p: nat :: 1 <= p <= n && pages(p).PageOk? && o in pages(p).entries
  {
    if n > 0 {
      OnPagesUpTo(pages, n - 1, o);
    }
  }

  lemma PagesReadAreAll(pages: int -> PageResponse)
    ensures forall o :: o in PagesUpTo(pages, PagesRead(pages)) <==> OnSomePage(pages, o)
    ensures SomePageFails(pages) <==> !PagesFetched(pages)
  {
    forall o
      ensures o in PagesUpTo(pages, PagesRead(pages)) <==> OnSomePage(pages, o)
    {
      OnPagesUpTo(pages, PagesRead(pages), o);
    }
  }

  /** All orders of all announced pages, in order; raises exactly when the first request or one for an announced page
      raised. */
  method FetchOrders(pages: int -> PageResponse) returns (fetched: Fetched)
    ensures fetched == FetchRaised <==> exists p :: 1 <= p <= PagesRead(pages) && pages(p) == Failed
    ensures fetched.Orders? ==> fetched.orders == PagesUpTo(pages, PagesRead(pages))
    ensures fetched == FetchRaised <==> SomePageFails(pages)
    ensures fetched.Orders? ==> InPageOrder(pages, fetched.orders)
    ensures fetched.Orders? ==> forall o :: o in fetched.orders <==> OnSomePage(pages, o)
  {
    hide InPageOrder, OnSomePage, SomePageFails;
    PagesReadInOrder(pages);
    PagesReadAreAll(pages);
    if pages(1) == Failed {
      return FetchRaised;
    }
    var orders := Entries(pages(1));
    assert PagesUpTo(pages, 1) == PagesUpTo(pages, 0) + Entries(pages(1)) == orders;
    var totalPages := TotalPages(pages(1));
    var page := 2;
    while page < totalPages + 1
      invariant 2 <= page && (page <= PagesRead(pages) + 1 || page == 2)
      invariant totalPages == TotalPages(pages(1))
      invariant forall p :: 1 <= p < page && p <= PagesRead(pages) ==> pages(p) != Failed
      invariant orders == PagesUpTo(pages, page - 1)
    {
      if pages(page) == Failed {
        return FetchRaised;
      }
      orders := orders + Entries(pages(page));
      page := page + 1;
    }
    fetched := Orders(orders);
  }

  // Chunking

  /** The orders cut into pieces of the given size; a negative size cuts none. */
  function ChunksOf(job: Job, orders: seq<Order>, size: int): seq<Chunk>
    decreases |orders|
  {
    if size <= 0 || orders == [] then []
    else if |orders| <= size then [Chunk(job.regionId, job.runId, orders)]
    else [Chunk(job.regionId, job.runId, orders[..size])] + ChunksOf(job, orders[size..], size)
  }

  function Flattened(chunks: seq<Chunk>): seq<Order> {
    if chunks == [] then [] else chunks[0].orders + Flattened(chunks[1..])
  }

  predicate WellCut(job: Job, chunk: Chunk, size: int) {
    chunk.regionId == job.regionId && chunk.runId == job.runId && 1 <= |chunk.orders| <= size
  }

  /** The chunks carry exactly the orders, in order, exactly when the size is positive or there is
      nothing to carry. */
  lemma {:induction false} ChunksCarryOrders(job: Job, orders: seq<Order>, size: int)
    ensures Flattened(ChunksOf(job, orders, size)) == orders <==> 1 <= size || orders == []
    ensures forall chunk :: chunk in ChunksOf(job, orders, size) ==> WellCut(job, chunk, size)
    decreases |orders|
  {
    if 1 <= size && orders != [] {
      var chunks := ChunksOf(job, orders, size);
      if size < |orders| {
        ChunksCarryOrders(job, orders[size..], size);
        assert chunks[1..] == ChunksOf(job, orders[size..], size);
        assert chunks == [chunks[0]] + chunks[1..];
        assert orders == orders[..size] + orders[size..];
      } else {
        assert chunks[1..] == [];
        assert chunks[0].orders + [] == orders;
      }
    }
  }

  /** The orders in pieces of the given size, the last one smaller if need be, under the job's region and run. */
  ghost predicate IsCut(job: Job, orders: seq<Order>, size: int, chunks: seq<Chunk>) {
    && Flattened(chunks) == orders
    && forall k :: 0 <= k < |chunks| ==>
         && chunks[k].regionId == job.regionId && chunks[k].runId == job.runId
         && 1 <= |chunks[k].orders| <= size && (k < |chunks| - 1 ==> |chunks[k].orders| == size)
  }

  lemma {:induction false} ChunksAreCut(job: Job, orders: seq<Order>, size: int)
    requires 1 <= size
    ensures IsCut(job, orders, size, ChunksOf(job, orders, size))
    decreases |orders|
  {
    ChunksCarryOrders(job, orders, size);
    if size < |orders| {
      ChunksAreCut(job, orders[size..], size);
      var chunks, rest := ChunksOf(job, orders, size), ChunksOf(job, orders[size..], size);
      assert chunks == [Chunk(job.regionId, job.runId, orders[..size])] + rest;
      assert forall k :: 1 <= k < |chunks| ==> chunks[k] == rest[k - 1];
    }
  }

  /** The chunks of a job: the orders of its pages, cut. */
  ghost predicate CutOfPages(job: Job, pages: int -> PageResponse, size: int, chunks: seq<Chunk>) {
    exists orders :: InPageOrder(pages, orders) && IsCut(job, orders, size, chunks)
  }

  lemma {:induction false} ChunksSplit(job: Job, orders: seq<Order>, size: int, start: nat)
    requires 1 <= size && start < |orders|
    ensures var end := if start + size <= |orders| then start + size else |orders|;
      ChunksOf(job, orders[start..], size)
      == [Chunk(job.regionId, job.runId, orders[start..end])] + ChunksOf(job, orders[end..], size)
  {
    var rest := orders[start..];
    if |rest| <= size {
      assert orders[start..|orders|] == rest;
      assert orders[|orders|..] == [];
    } else {
      assert rest[..size] == orders[start..start + size];
      assert rest[size..] == orders[start + size..];
    }
  }

  /** Publishes a region's orders chunk by chunk. A page that fails and a zero chunk size are exceptions
      before anything is published; a publish that raises leaves the chunks before it in the queue. */
  method RunFetchJob(broker: Broker, job: Job, pages: int -> PageResponse, chunkSize: int, deliveries: nat -> Delivery)
    returns (fetched: Fetched, ghost sent: nat)
    modifies broker`results
    ensures fetched.Orders? ==> fetched.orders == PagesUpTo(pages, PagesRead(pages))
    ensures chunkSize == 0 || !PagesFetched(pages) ==>
              fetched == FetchRaised && broker.results == old(broker.results)
    ensures chunkSize != 0 && PagesFetched(pages) ==>
              var chunks := ChunksOf(job, PagesUpTo(pages, PagesRead(pages)), chunkSize);
              && sent <= |chunks| && SendEnds(deliveries, |chunks|, sent, fetched.Orders?)
              && broker.results == old(broker.results) + multiset(chunks[..sent])
    ensures fetched.Orders? ==> InPageOrder(pages, fetched.orders) && !SomePageFails(pages)
    ensures chunkSize == 0 || SomePageFails(pages) ==> fetched == FetchRaised && broker.results == old(broker.results)
    ensures chunkSize < 0 ==> broker.results == old(broker.results)
    ensures 1 <= chunkSize && !SomePageFails(pages) ==>
              exists chunks ::
                && CutOfPages(job, pages, chunkSize, chunks)
                && sent <= |chunks| && (fetched.Orders? ==> sent == |chunks|)
                && broker.results == old(broker.results) + multiset(chunks[..sent])
  {
    hide InPageOrder, SomePageFails, PagesUpTo, IsCut;
    sent := 0;
    fetched := FetchOrders(pages);
    PagesReadInOrder(pages);
    PagesReadAreAll(pages);
    NoMoreChunks(job, PagesUpTo(pages, PagesRead(pages)), chunkSize);
    if 1 <= chunkSize {
      ChunksAreCut(job, PagesUpTo(pages, PagesRead(pages)), chunkSize);
      assert CutOfPages(job, pages, chunkSize, ChunksOf(job, PagesUpTo(pages, PagesRead(pages)), chunkSize));
    }
    if fetched == FetchRaised {
      return;
    }
    if chunkSize == 0 {
      return FetchRaised, 0;
    }
    var ok;
    ok, sent := PublishChunks(broker, job, fetched.orders, chunkSize, deliveries);
    if !ok {
      return FetchRaised, sent;
    }
  }

  method PublishChunks(broker: Broker, job: Job, orders: seq<Order>, chunkSize: int, deliveries: nat -> Delivery)
    returns (ok: bool, ghost sent: nat)
    requires chunkSize != 0
    modifies broker`results
    ensures var chunks := ChunksOf(job, orders, chunkSize);
      && sent <= |chunks| && SendEnds(deliveries, |chunks|, sent, ok)
      && broker.results == old(broker.results) + multiset(chunks[..sent])
  {
    hide ChunksOf, AllConfirmed, SendEnds;
    NoneSent(deliveries);
    NoMoreChunks(job, orders, chunkSize);
    if chunkSize < 0 {
      AllSent(deliveries, 0);
      return true, 0;
    }
    ghost var chunks := ChunksOf(job, orders, chunkSize);
    var start, i := 0, 0;
    assert Rest(orders, 0) == orders;
    while start < |orders|
      invariant 0 <= start && 0 <= i <= |chunks|
      invariant AllConfirmed(deliveries, i)
      invariant broker.results == old(broker.results) + multiset(chunks[..i])
      invariant chunks[..i] + ChunksOf(job, Rest(orders, start), chunkSize) == chunks
    {
      var end := if start + chunkSize <= |orders| then start + chunkSize else |orders|;
      ChunksSplit(job, orders, chunkSize, start);
      assert orders[end..] == Rest(orders, start + chunkSize);
      var chunk := Chunk(job.regionId, job.runId, orders[start..end]);
      NextChunk(chunks, i, chunk, ChunksOf(job, Rest(orders, start + chunkSize), chunkSize));
      ok := broker.PublishChunk(chunk, deliveries(i));
      if !ok {
        SendStops(deliveries, |chunks|, i);
        sent := SentBefore(deliveries, i);
        return;
      }
      OneMoreConfirmed(deliveries, i);
      start, i := start + chunkSize, i + 1;
    }
    AllSent(deliveries, i);
    ok, sent := true, i;
  }

  lemma NextChunk(chunks: seq<Chunk>, i: nat, chunk: Chunk, rest: seq<Chunk>)
    requires i <= |chunks| && chunks[..i] + ([chunk] + rest) == chunks
    ensures i < |chunks| && chunks[..i + 1] == chunks[..i] + [chunk] && chunks[..i + 1] + rest == chunks
  {
    assert |chunks| == i + 1 + |rest|;
    assert (chunks[..i] + ([chunk] + rest))[i] == chunk;
    assert chunks[..i] + ([chunk] + rest) == (chunks[..i] + [chunk]) + rest;
  }

  ghost function Rest(orders: seq<Order>, start: nat): seq<Order> {
    if start < |orders| then orders[start..] else []
  }

  lemma NoMoreChunks(job: Job, orders: seq<Order>, size: int)
    ensures ChunksOf(job, [], size) == [] && (size < 0 ==> ChunksOf(job, orders, size) == [])
  {
  }
}
