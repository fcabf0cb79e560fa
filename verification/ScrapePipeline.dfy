/** The scrape pipeline as a state machine: any number of fetch and write workers over two
    at-least-once queues, each acknowledging after its work, with crashes and redeliveries at any
    point. What a job fetches may differ from one attempt to the next. */
module ScrapePipeline {
  import opened MarketOrders

  /** `unique` says whether market_orders has the unique (order_id, scrape_run_id) index. */
  datatype Config = Config(unique: bool, chunkSize: int)

  datatype Fetch = Fetch(job: Job, orders: seq<Order>)

  datatype FetchWork = Fetching(job: Job) | Publishing(job: Job, orders: seq<Order>, sent: nat)

  datatype WriteWork = WriteWork(chunk: Chunk, applied: bool)

  /** The queues, the unacknowledged deliveries by tag, the collection, and a history: the jobs ever
      dispatched, the chunks ever published, and the fetches that succeeded or were acknowledged. */
  datatype Sys = Sys(jobs: multiset<Job>, results: multiset<Chunk>,
                     fetching: map<nat, FetchWork>, writing: map<nat, WriteWork>, rows: seq<Row>,
                     dispatched: set<Job>, published: set<Chunk>, fetched: set<Fetch>, completed: set<Fetch>)

  datatype Event =
    | Dispatch(job: Job)
    | TakeJob(tag: nat, job: Job)
    | FetchDone(tag: nat, orders: seq<Order>)
    | PublishNext(tag: nat)
    | AckJob(tag: nat)
    | CrashFetch(tag: nat)
    | RedeliverJob(job: Job)
    | TakeChunk(tag: nat, chunk: Chunk)
    | InsertSome(tag: nat, docs: seq<Row>, now: int)
    | InsertAll(tag: nat, docs: seq<Row>, now: int)
    | AckChunk(tag: nat)
    | CrashWrite(tag: nat)
    | RedeliverChunk(chunk: Chunk)

  const START: Sys := Sys(multiset{}, multiset{}, map[], map[], [], {}, {}, {}, {})

  function ChunksFor(cfg: Config, work: FetchWork): seq<Chunk>
    requires work.Publishing?
  {
    ChunksOf(work.job, work.orders, cfg.chunkSize)
  }

  predicate Enabled(cfg: Config, s: Sys, e: Event) {
    match e
    case Dispatch(job) => true
    case TakeJob(tag, job) => job in s.jobs && tag !in s.fetching
    case FetchDone(tag, orders) => tag in s.fetching && s.fetching[tag].Fetching?
    case PublishNext(tag) =>
      tag in s.fetching && s.fetching[tag].Publishing? && s.fetching[tag].sent < |ChunksFor(cfg, s.fetching[tag])|
    case AckJob(tag) =>  // a zero chunk size raises before the acknowledgement
      tag in s.fetching && s.fetching[tag].Publishing? && cfg.chunkSize != 0 &&
      s.fetching[tag].sent == |ChunksFor(cfg, s.fetching[tag])|
    case CrashFetch(tag) => tag in s.fetching
    case RedeliverJob(job) => job in s.dispatched
    case TakeChunk(tag, chunk) => chunk in s.results && tag !in s.writing
    case InsertSome(tag, docs, now) =>
      tag in s.writing && forall doc :: doc in docs ==> doc in Docs(s.writing[tag].chunk, now)
    case InsertAll(tag, docs, now) =>
      tag in s.writing && multiset(docs) == multiset(Docs(s.writing[tag].chunk, now))
    case AckChunk(tag) => tag in s.writing && s.writing[tag].applied
    case CrashWrite(tag) => tag in s.writing
    case RedeliverChunk(chunk) => chunk in s.published
  }

  function Apply(cfg: Config, s: Sys, e: Event): Sys
    requires Enabled(cfg, s, e)
  {
    match e
    case Dispatch(job) => s.(jobs := s.jobs + multiset{job}, dispatched := s.dispatched + {job})
    case TakeJob(tag, job) => s.(jobs := s.jobs - multiset{job}, fetching := s.fetching[tag := Fetching(job)])
    case FetchDone(tag, orders) =>
      var job := s.fetching[tag].job;
      s.(fetching := s.fetching[tag := Publishing(job, orders, 0)], fetched := s.fetched + {Fetch(job, orders)})
    case PublishNext(tag) =>
      var work := s.fetching[tag];
      var chunk := ChunksFor(cfg, work)[work.sent];
      s.(results := s.results + multiset{chunk}, published := s.published + {chunk},
         fetching := s.fetching[tag := work.(sent := work.sent + 1)])
    case AckJob(tag) =>
      var work := s.fetching[tag];
      s.(fetching := s.fetching - {tag}, completed := s.completed + {Fetch(work.job, work.orders)})
    case CrashFetch(tag) => s.(jobs := s.jobs + multiset{s.fetching[tag].job}, fetching := s.fetching - {tag})
    case RedeliverJob(job) => s.(jobs := s.jobs + multiset{job})
    case TakeChunk(tag, chunk) =>
      s.(results := s.results - multiset{chunk}, writing := s.writing[tag := WriteWork(chunk, false)])
    case InsertSome(tag, docs, now) => s.(rows := Inserted(cfg.unique, s.rows, docs))
    case InsertAll(tag, docs, now) =>
      s.(rows := Inserted(cfg.unique, s.rows, docs),
         writing := s.writing[tag := WriteWork(s.writing[tag].chunk, true)])
    case AckChunk(tag) => s.(writing := s.writing - {tag})
    case CrashWrite(tag) =>
      s.(results := s.results + multiset{s.writing[tag].chunk}, writing := s.writing - {tag})
    case RedeliverChunk(chunk) => s.(results := s.results + multiset{chunk})
  }

  // Runs

  predicate ValidRun(cfg: Config, events: seq<Event>)
    decreases |events|, 0
  {
    events == [] ||
    var front, last := events[..|events| - 1], events[|events| - 1];
    ValidRun(cfg, front) && Enabled(cfg, After(cfg, front), last)
  }

  function After(cfg: Config, events: seq<Event>): Sys
    requires ValidRun(cfg, events)
    decreases |events|, 1
  {
    if events == [] then START
    else Apply(cfg, After(cfg, events[..|events| - 1]), events[|events| - 1])
  }

  // What every reachable state satisfies

  ghost predicate Waiting(s: Sys, chunk: Chunk) {
    chunk in s.results || exists tag :: tag in s.writing && s.writing[tag].chunk == chunk
  }

  ghost predicate Carries(chunk: Chunk, k: Key) {
    chunk.runId == k.runId && exists o :: o in chunk.orders && o.orderId == k.orderId
  }

  /** The order has its row, or is on its way to one. */
  ghost predicate Covered(s: Sys, k: Key) {
    HasKey(s.rows, k) || exists chunk :: Waiting(s, chunk) && Carries(chunk, k)
  }

  ghost predicate CoveredAll(s: Sys, orders: seq<Order>, runId: string) {
    forall o :: o in orders ==> Covered(s, Key(o.orderId, runId))
  }

  ghost predicate SomeFetchSaw(s: Sys, job: Job, o: Order) {
    exists f :: f in s.fetched && f.job == job && o in f.orders
  }

  ghost predicate InHand(s: Sys, job: Job) {
    job in s.jobs || exists tag :: tag in s.fetching && s.fetching[tag].job == job
  }

  /** Every dispatched job is still queued or in a worker's hands, or was acknowledged with all the
      orders of that fetch covered. */
  ghost predicate LossFree(s: Sys) {
    && (forall job :: job in s.dispatched ==> InHand(s, job) || exists f :: f in s.completed && f.job == job)
    && (forall f :: f in s.completed ==> CoveredAll(s, f.orders, f.job.runId))
  }

  ghost predicate JobsKnown(s: Sys) {
    && (forall job :: job in s.jobs ==> job in s.dispatched)
    && (forall tag :: tag in s.fetching ==> s.fetching[tag].job in s.dispatched)
  }

  ghost predicate SentCovered(cfg: Config, s: Sys, work: FetchWork)
    requires work.Publishing?
  {
    && work.sent <= |ChunksFor(cfg, work)|
    && forall i :: 0 <= i < work.sent ==> CoveredAll(s, ChunksFor(cfg, work)[i].orders, work.job.runId)
  }

  ghost predicate Progress(cfg: Config, s: Sys) {
    && (forall tag :: tag in s.fetching && s.fetching[tag].Publishing? ==>
                        && SentCovered(cfg, s, s.fetching[tag])
                        && Fetch(s.fetching[tag].job, s.fetching[tag].orders) in s.fetched)
    && (forall tag :: tag in s.writing && s.writing[tag].applied ==>
                        forall o :: o in s.writing[tag].chunk.orders ==>
                                      HasKey(s.rows, Key(o.orderId, s.writing[tag].chunk.runId)))
  }

  /** Chunks and rows hold only what some fetch of that region saw in that run. */
  ghost predicate Traced(s: Sys) {
    && (forall chunk, o :: (chunk in s.published || Waiting(s, chunk)) && o in chunk.orders ==>
                             SomeFetchSaw(s, Job(chunk.regionId, chunk.runId), o))
    && (forall row :: row in s.rows ==> SomeFetchSaw(s, Job(row.regionId, row.runId), row.order))
  }

  ghost predicate Safe(cfg: Config, s: Sys) {
    && JobsKnown(s)
    && Progress(cfg, s)
    && Traced(s)
    && (0 <= cfg.chunkSize ==> LossFree(s))
    && (cfg.unique ==> DistinctKeys(s.rows))
  }

  // One step at a time

  lemma RowsKept(cfg: Config, s: Sys, e: Event)
    requires Enabled(cfg, s, e)
    ensures s.rows <= Apply(cfg, s, e).rows
  {
    if e.InsertSome? || e.InsertAll? {
      InsertedRows(cfg.unique, s.rows, e.docs);
    }
  }

  /** A waiting chunk keeps waiting, unless it is acknowledged with all its rows in place. */
  lemma WaitingKept(cfg: Config, s: Sys, e: Event, chunk: Chunk)
    requires Enabled(cfg, s, e) && Waiting(s, chunk)
    ensures Waiting(Apply(cfg, s, e), chunk)
         || (e.AckChunk? && s.writing[e.tag] == WriteWork(chunk, true))
  {
    hide Apply;
    if chunk in s.results {
      QueuedKept(cfg, s, e, chunk);
    } else {
      var tag :| tag in s.writing && s.writing[tag].chunk == chunk;
      HeldKept(cfg, s, e, tag);
    }
  }

  lemma QueuedKept(cfg: Config, s: Sys, e: Event, chunk: Chunk)
    requires Enabled(cfg, s, e) && chunk in s.results
    ensures Waiting(Apply(cfg, s, e), chunk)
  {
    if e.TakeChunk? && chunk == e.chunk {
      assert Apply(cfg, s, e).writing[e.tag].chunk == chunk;
    }
  }

  lemma HeldKept(cfg: Config, s: Sys, e: Event, tag: nat)
    requires Enabled(cfg, s, e) && tag in s.writing
    ensures Waiting(Apply(cfg, s, e), s.writing[tag].chunk)
         || (e == AckChunk(tag) && s.writing[tag] == WriteWork(s.writing[tag].chunk, true))
  {
    var s' := Apply(cfg, s, e);
    if e != AckChunk(tag) && e != CrashWrite(tag) {
      assert tag in s'.writing && s'.writing[tag].chunk == s.writing[tag].chunk;
    }
  }

  lemma CoveredKept(cfg: Config, s: Sys, e: Event, k: Key)
    requires Enabled(cfg, s, e) && Progress(cfg, s) && Covered(s, k)
    ensures Covered(Apply(cfg, s, e), k)
  {
    hide Apply;
    hide Enabled;
    hide Waiting;
    RowsKept(cfg, s, e);
    if HasKey(s.rows, k) {
      KeyKept(s.rows, Apply(cfg, s, e).rows, k);
    } else {
      var chunk :| Waiting(s, chunk) && Carries(chunk, k);
      WaitingKept(cfg, s, e, chunk);
      if !Waiting(Apply(cfg, s, e), chunk) {
        AckedHasRows(cfg, s, e, k);
      }
    }
  }

  lemma AckedHasRows(cfg: Config, s: Sys, e: Event, k: Key)
    requires Enabled(cfg, s, e) && Progress(cfg, s) && e.AckChunk? && Carries(s.writing[e.tag].chunk, k)
    ensures HasKey(s.rows, k)
  {
    var o :| o in s.writing[e.tag].chunk.orders && o.orderId == k.orderId;
    assert Key(o.orderId, s.writing[e.tag].chunk.runId) == k;
  }

  lemma CoveredAllKept(cfg: Config, s: Sys, e: Event)
    requires Enabled(cfg, s, e) && Progress(cfg, s)
    ensures forall orders, runId :: CoveredAll(s, orders, runId) ==> CoveredAll(Apply(cfg, s, e), orders, runId)
  {
    forall orders: seq<Order>, runId | CoveredAll(s, orders, runId)
      ensures CoveredAll(Apply(cfg, s, e), orders, runId)
    {
      forall o | o in orders
        ensures Covered(Apply(cfg, s, e), Key(o.orderId, runId))
      {
        CoveredKept(cfg, s, e, Key(o.orderId, runId));
      }
    }
  }

  lemma JobsKnownKept(cfg: Config, s: Sys, e: Event)
    requires Enabled(cfg, s, e) && JobsKnown(s)
    ensures JobsKnown(Apply(cfg, s, e))
  {
  }

  lemma HistoryGrows(cfg: Config, s: Sys, e: Event)
    requires Enabled(cfg, s, e)
    ensures s.fetched <= Apply(cfg, s, e).fetched
    ensures forall job, o :: SomeFetchSaw(s, job, o) ==> SomeFetchSaw(Apply(cfg, s, e), job, o)
  {
  }

  lemma JobInHandKept(cfg: Config, s: Sys, e: Event, job: Job)
    requires Enabled(cfg, s, e) && InHand(s, job)
    ensures InHand(Apply(cfg, s, e), job)
         || exists f :: f in Apply(cfg, s, e).completed && f.job == job
  {
    hide Apply, Enabled;
    if job in s.jobs {
      QueuedJobKept(cfg, s, e, job);
    } else {
      var tag :| tag in s.fetching && s.fetching[tag].job == job;
      HeldJobKept(cfg, s, e, tag);
    }
  }

  lemma QueuedJobKept(cfg: Config, s: Sys, e: Event, job: Job)
    requires Enabled(cfg, s, e) && job in s.jobs
    ensures InHand(Apply(cfg, s, e), job)
  {
    hide ChunksFor, Inserted, Docs;
    if e.TakeJob? && e.job == job {
      assert Apply(cfg, s, e).fetching[e.tag].job == job;
    }
  }

  lemma HeldJobKept(cfg: Config, s: Sys, e: Event, tag: nat)
    requires Enabled(cfg, s, e) && tag in s.fetching
    ensures InHand(Apply(cfg, s, e), s.fetching[tag].job)
         || exists f :: f in Apply(cfg, s, e).completed && f.job == s.fetching[tag].job
  {
    hide ChunksFor, Inserted, Docs;
    var s', job := Apply(cfg, s, e), s.fetching[tag].job;
    if e.AckJob? && e.tag == tag {
      assert Fetch(job, s.fetching[tag].orders) in s'.completed;
    } else if !(e.CrashFetch? && e.tag == tag) {
      assert tag in s'.fetching && s'.fetching[tag].job == job;
    }
  }

  /** All chunks of a fetch sent: with a proper chunk size, all its orders are covered. */
  lemma AllSentAllCovered(cfg: Config, s: Sys, work: FetchWork)
    requires work.Publishing? && SentCovered(cfg, s, work) && 1 <= cfg.chunkSize
    requires work.sent == |ChunksFor(cfg, work)|
    ensures CoveredAll(s, work.orders, work.job.runId)
  {
    hide Covered;
    var chunks := ChunksFor(cfg, work);
    ChunksCarryOrders(work.job, work.orders, cfg.chunkSize);
    forall o | o in work.orders
      ensures Covered(s, Key(o.orderId, work.job.runId))
    {
      var i := InSomeChunk(chunks, o);
      assert CoveredAll(s, chunks[i].orders, work.job.runId);
    }
  }

  lemma {:induction false} InSomeChunk(chunks: seq<Chunk>, o: Order) returns (i: nat)
    requires o in Flattened(chunks)
    ensures i < |chunks| && o in chunks[i].orders
  {
    if o in chunks[0].orders {
      i := 0;
    } else {
      var j := InSomeChunk(chunks[1..], o);
      i := j + 1;
    }
  }

  lemma CompletedGrows(cfg: Config, s: Sys, e: Event)
    requires Enabled(cfg, s, e)
    ensures s.completed <= Apply(cfg, s, e).completed
    ensures !e.AckJob? ==> Apply(cfg, s, e).completed == s.completed
    ensures e.AckJob? ==>
              e.tag in s.fetching &&
              var work := s.fetching[e.tag];
              && work.Publishing? && cfg.chunkSize != 0 && work.sent == |ChunksFor(cfg, work)|
              && Apply(cfg, s, e).completed == s.completed + {Fetch(work.job, work.orders)}
  {
  }

  lemma CompletedCovered(cfg: Config, s: Sys, e: Event, f: Fetch)
    requires Enabled(cfg, s, e) && Progress(cfg, s) && LossFree(s) && 0 <= cfg.chunkSize
    requires f in Apply(cfg, s, e).completed
    ensures CoveredAll(Apply(cfg, s, e), f.orders, f.job.runId)
  {
    hide Apply;
    hide Enabled;
    hide CoveredAll;
    hide InHand;
    CoveredAllKept(cfg, s, e);
    CompletedGrows(cfg, s, e);
    if f !in s.completed {
      AllSentAllCovered(cfg, s, s.fetching[e.tag]);
    }
  }

  lemma LossFreeKept(cfg: Config, s: Sys, e: Event)
    requires Enabled(cfg, s, e) && Progress(cfg, s) && LossFree(s) && 0 <= cfg.chunkSize
    ensures LossFree(Apply(cfg, s, e))
  {
    hide Apply;
    hide Enabled;
    hide CoveredAll;
    hide InHand;
    hide Progress;
    var s' := Apply(cfg, s, e);
    CompletedGrows(cfg, s, e);
    NewlyDispatched(cfg, s, e);
    forall f | f in s'.completed
      ensures CoveredAll(s', f.orders, f.job.runId)
    {
      CompletedCovered(cfg, s, e, f);
    }
    forall job | job in s'.dispatched
      ensures InHand(s', job) || exists f :: f in s'.completed && f.job == job
    {
      if job in s.dispatched && InHand(s, job) {
        JobInHandKept(cfg, s, e, job);
      }
    }
  }

  lemma NewlyDispatched(cfg: Config, s: Sys, e: Event)
    requires Enabled(cfg, s, e)
    ensures e.Dispatch? ==>
              InHand(Apply(cfg, s, e), e.job) && Apply(cfg, s, e).dispatched == s.dispatched + {e.job}
    ensures !e.Dispatch? ==> Apply(cfg, s, e).dispatched == s.dispatched
  {
  }

  /** A chunk just published covers its orders. */
  lemma PublishedCovers(cfg: Config, s: Sys, e: Event)
    requires Enabled(cfg, s, e) && e.PublishNext?
    ensures var work := s.fetching[e.tag];
      CoveredAll(Apply(cfg, s, e), ChunksFor(cfg, work)[work.sent].orders, work.job.runId)
  {
    var work, s' := s.fetching[e.tag], Apply(cfg, s, e);
    var chunk := ChunksFor(cfg, work)[work.sent];
    assert Waiting(s', chunk);
    ChunksCarryOrders(work.job, work.orders, cfg.chunkSize);
    assert chunk in ChunksFor(cfg, work);
    forall o | o in chunk.orders
      ensures Covered(s', Key(o.orderId, work.job.runId))
    {
      assert Carries(chunk, Key(o.orderId, work.job.runId));
    }
  }

  /** A publishing worker was publishing before, with the same orders, or has just fetched. */
  lemma FetchingMoves(cfg: Config, s: Sys, e: Event, tag: nat)
    requires Enabled(cfg, s, e)
    requires tag in Apply(cfg, s, e).fetching && Apply(cfg, s, e).fetching[tag].Publishing?
    ensures var work := Apply(cfg, s, e).fetching[tag];
      || (e == FetchDone(tag, work.orders) && work.sent == 0 &&
          Fetch(work.job, work.orders) in Apply(cfg, s, e).fetched)
      || (tag in s.fetching && s.fetching[tag] == work && e != PublishNext(tag))
      || (e == PublishNext(tag) && tag in s.fetching && s.fetching[tag].Publishing? &&
          work == s.fetching[tag].(sent := s.fetching[tag].sent + 1) && work.sent <= |ChunksFor(cfg, work)|)
  {
  }

  lemma FetchProgressKept(cfg: Config, s: Sys, e: Event, tag: nat)
    requires Enabled(cfg, s, e) && Progress(cfg, s)
    requires tag in Apply(cfg, s, e).fetching && Apply(cfg, s, e).fetching[tag].Publishing?
    ensures var s' := Apply(cfg, s, e); var work := s'.fetching[tag];
      SentCovered(cfg, s', work) && Fetch(work.job, work.orders) in s'.fetched
  {
    hide Covered;
    hide CoveredAll;
    hide ChunksOf;
    hide Apply;
    hide Enabled;
    FetchingMoves(cfg, s, e, tag);
    HistoryGrows(cfg, s, e);
    CoveredAllKept(cfg, s, e);
    if e == PublishNext(tag) {
      PublishedCovers(cfg, s, e);
    }
  }

  lemma AppliedKept(cfg: Config, s: Sys, e: Event, tag: nat, o: Order)
    requires Enabled(cfg, s, e) && Progress(cfg, s)
    requires var s' := Apply(cfg, s, e);
      tag in s'.writing && s'.writing[tag].applied && o in s'.writing[tag].chunk.orders
    ensures var s' := Apply(cfg, s, e); HasKey(s'.rows, Key(o.orderId, s'.writing[tag].chunk.runId))
  {
    var s' := Apply(cfg, s, e);
    var chunk := s'.writing[tag].chunk;
    if e.InsertAll? && e.tag == tag {
      InsertedRows(cfg.unique, s.rows, e.docs);
      var i :| 0 <= i < |chunk.orders| && chunk.orders[i] == o;
      var doc := Docs(chunk, e.now)[i];
      assert doc in multiset(Docs(chunk, e.now));
      assert doc in e.docs;
      assert KeyOf(doc) == Key(o.orderId, chunk.runId);
    } else {
      RowsKept(cfg, s, e);
      assert tag in s.writing && s.writing[tag] == s'.writing[tag];
      KeyKept(s.rows, s'.rows, Key(o.orderId, chunk.runId));
    }
  }

  lemma ProgressKept(cfg: Config, s: Sys, e: Event)
    requires Enabled(cfg, s, e) && Progress(cfg, s)
    ensures Progress(cfg, Apply(cfg, s, e))
  {
    hide SentCovered;
    hide Apply;
    hide Enabled;
    hide HasKey;
    var s' := Apply(cfg, s, e);
    forall tag | tag in s'.fetching && s'.fetching[tag].Publishing?
      ensures SentCovered(cfg, s', s'.fetching[tag])
      ensures Fetch(s'.fetching[tag].job, s'.fetching[tag].orders) in s'.fetched
    {
      FetchProgressKept(cfg, s, e, tag);
    }
    forall tag, o | tag in s'.writing && s'.writing[tag].applied && o in s'.writing[tag].chunk.orders
      ensures HasKey(s'.rows, Key(o.orderId, s'.writing[tag].chunk.runId))
    {
      AppliedKept(cfg, s, e, tag, o);
    }
  }

  /** Only publishing brings a chunk in; its orders come from the fetch being published. */
  lemma ChunkTraced(cfg: Config, s: Sys, e: Event, chunk: Chunk, o: Order)
    requires Enabled(cfg, s, e) && Progress(cfg, s) && Traced(s) && o in chunk.orders
    requires var s' := Apply(cfg, s, e); chunk in s'.published || Waiting(s', chunk)
    ensures SomeFetchSaw(s, Job(chunk.regionId, chunk.runId), o)
  {
    hide SomeFetchSaw;
    hide HasKey;
    if chunk in s.published || Waiting(s, chunk) {
    } else {
      NewChunk(cfg, s, e, chunk);
      var work := s.fetching[e.tag];
      var chunks := ChunksFor(cfg, work);
      ChunksCarryOrders(work.job, work.orders, cfg.chunkSize);
      assert chunk in chunks;
      ChunkOrdersFlatten(chunks, work.sent, o);
      PositiveSize(work.job, work.orders, cfg.chunkSize);
      FetchSaw(s, Fetch(work.job, work.orders), o);
    }
  }

  lemma FetchSaw(s: Sys, f: Fetch, o: Order)
    requires f in s.fetched && o in f.orders
    ensures SomeFetchSaw(s, f.job, o)
  {
  }

  lemma PositiveSize(job: Job, orders: seq<Order>, size: int)
    ensures ChunksOf(job, orders, size) != [] ==> 1 <= size
  {
  }

  lemma NewChunk(cfg: Config, s: Sys, e: Event, chunk: Chunk)
    requires Enabled(cfg, s, e) && !(chunk in s.published || Waiting(s, chunk))
    requires var s' := Apply(cfg, s, e); chunk in s'.published || Waiting(s', chunk)
    ensures e.PublishNext? && chunk == ChunksFor(cfg, s.fetching[e.tag])[s.fetching[e.tag].sent]
  {
  }

  lemma {:induction false} ChunkOrdersFlatten(chunks: seq<Chunk>, i: nat, o: Order)
    requires i < |chunks| && o in chunks[i].orders
    ensures o in Flattened(chunks)
  {
    if i > 0 {
      ChunkOrdersFlatten(chunks[1..], i - 1, o);
    }
  }

  lemma RowTraced(cfg: Config, s: Sys, e: Event, row: Row)
    requires Enabled(cfg, s, e) && Traced(s) && row in Apply(cfg, s, e).rows
    ensures SomeFetchSaw(s, Job(row.regionId, row.runId), row.order)
  {
    if row !in s.rows {
      InsertedRows(cfg.unique, s.rows, e.docs);
      var chunk := s.writing[e.tag].chunk;
      assert Waiting(s, chunk);
      if e.InsertAll? {
        assert row in multiset(e.docs);
      }
      assert row in Docs(chunk, e.now);
      var i :| 0 <= i < |chunk.orders| && row == Docs(chunk, e.now)[i];
      assert row.order in chunk.orders;
    }
  }

  lemma TracedKept(cfg: Config, s: Sys, e: Event)
    requires Enabled(cfg, s, e) && Progress(cfg, s) && Traced(s)
    ensures Traced(Apply(cfg, s, e))
  {
    hide Apply;
    hide Enabled;
    hide SomeFetchSaw;
    hide Waiting;
    hide Progress;
    var s' := Apply(cfg, s, e);
    HistoryGrows(cfg, s, e);
    forall chunk: Chunk, o | (chunk in s'.published || Waiting(s', chunk)) && o in chunk.orders
      ensures SomeFetchSaw(s', Job(chunk.regionId, chunk.runId), o)
    {
      ChunkTraced(cfg, s, e, chunk, o);
    }
    forall row | row in s'.rows
      ensures SomeFetchSaw(s', Job(row.regionId, row.runId), row.order)
    {
      RowTraced(cfg, s, e, row);
    }
  }

  lemma SafeStep(cfg: Config, s: Sys, e: Event)
    requires Enabled(cfg, s, e) && Safe(cfg, s)
    ensures Safe(cfg, Apply(cfg, s, e))
  {
    hide Progress;
    hide Traced;
    hide LossFree;
    hide JobsKnown;
    JobsKnownKept(cfg, s, e);
    ProgressKept(cfg, s, e);
    TracedKept(cfg, s, e);
    if 0 <= cfg.chunkSize {
      LossFreeKept(cfg, s, e);
    }
    if cfg.unique && (e.InsertSome? || e.InsertAll?) {
      InsertedRows(cfg.unique, s.rows, e.docs);
    }
  }

  // Whole runs

  lemma {:induction false} EveryRunIsSafe(cfg: Config, events: seq<Event>)
    requires ValidRun(cfg, events)
    ensures Safe(cfg, After(cfg, events))
    ensures cfg.unique ==> OneRowPerOrder(After(cfg, events).rows)
  {
    if events != [] {
      EveryRunIsSafe(cfg, events[..|events| - 1]);
      SafeStep(cfg, After(cfg, events[..|events| - 1]), events[|events| - 1]);
    }
    KeysAreOrderAndRun(After(cfg, events).rows);
  }

  /** Once inserted, a row never changes, moves or disappears. */
  lemma {:induction false} RowsNeverChange(cfg: Config, events: seq<Event>, k: nat)
    requires k <= |events| && ValidRun(cfg, events)
    ensures ValidRun(cfg, events[..k]) && After(cfg, events[..k]).rows <= After(cfg, events).rows
    decreases |events|
  {
    if k < |events| {
      var front := events[..|events| - 1];
      RowsNeverChange(cfg, front, k);
      assert front[..k] == events[..k];
      RowsKept(cfg, After(cfg, front), events[|events| - 1]);
    } else {
      assert events[..k] == events;
    }
  }

  ghost predicate Drained(s: Sys) {
    s.jobs == multiset{} && s.results == multiset{} && s.fetching == map[] && s.writing == map[]
  }

  /** Each dispatched job has an acknowledged fetch all of whose orders have rows. */
  ghost predicate AllDelivered(s: Sys) {
    forall job :: job in s.dispatched ==>
      exists f :: f in s.completed && f.job == job &&
        forall o :: o in f.orders ==> HasRow(s.rows, o.orderId, job.runId)
  }

  lemma DrainedDelivers(s: Sys)
    requires LossFree(s) && Drained(s)
    ensures AllDelivered(s)
  {
    forall job | job in s.dispatched
      ensures exists f :: f in s.completed && f.job == job &&
                forall o :: o in f.orders ==> HasRow(s.rows, o.orderId, job.runId)
    {
      assert !InHand(s, job);
      var f :| f in s.completed && f.job == job;
      assert CoveredAll(s, f.orders, job.runId);
      forall o | o in f.orders
        ensures HasRow(s.rows, o.orderId, job.runId)
      {
        assert Covered(s, Key(o.orderId, job.runId));
        KeysAreOrderAndRun(s.rows);
      }
    }
  }

  // Exactly when the promises hold

  lemma OneMoreEvent(cfg: Config, events: seq<Event>, e: Event)
    requires ValidRun(cfg, events) && Enabled(cfg, After(cfg, events), e)
    ensures ValidRun(cfg, events + [e])
    ensures After(cfg, events + [e]) == Apply(cfg, After(cfg, events), e)
  {
    assert (events + [e])[..|events + [e]| - 1] == events;
  }

  const JOB: Job := Job(1, "run")
  const ORDER: Order := Order(7, 34, 60003760, false, 5.5, 100, 200, 1, 90, "now", "region")
  const CHUNK: Chunk := Chunk(1, "run", [ORDER])

  /** The job is fetched; with a negative chunk size that already completes it. */
  lemma FetchOneOrder(cfg: Config) returns (events: seq<Event>)
    ensures ValidRun(cfg, events)
    ensures After(cfg, events) == START.(fetching := map[0 := Publishing(JOB, [ORDER], 0)], dispatched := {JOB},
                                         fetched := {Fetch(JOB, [ORDER])})
  {
    hide ValidRun;
    NoEvents(cfg);
    OneMoreEvent(cfg, [], Dispatch(JOB));
    events := [] + [Dispatch(JOB)];
    OneMoreEvent(cfg, events, TakeJob(0, JOB));
    events := events + [TakeJob(0, JOB)];
    OneMoreEvent(cfg, events, FetchDone(0, [ORDER]));
    events := events + [FetchDone(0, [ORDER])];
  }

  lemma NoEvents(cfg: Config)
    ensures ValidRun(cfg, []) && After(cfg, []) == START
  {
  }

  lemma NegativeSizeLosesOrders(cfg: Config) returns (events: seq<Event>)
    requires cfg.chunkSize < 0
    ensures ValidRun(cfg, events) && Drained(After(cfg, events)) && !AllDelivered(After(cfg, events))
  {
    events := FetchOneOrder(cfg);
    OneMoreEvent(cfg, events, AckJob(0));
    events := events + [AckJob(0)];
    var s := After(cfg, events);
    assert s.completed == {Fetch(JOB, [ORDER])} && s.rows == [];
    assert ORDER in [ORDER];
  }

  /** When both queues have drained, every order of an acknowledged fetch has its row: on every run
      exactly when the chunk size is not negative. */
  lemma NoOrderLostExactlyWhen(cfg: Config)
    ensures (forall events :: ValidRun(cfg, events) && Drained(After(cfg, events)) ==> AllDelivered(After(cfg, events)))
       <==> 0 <= cfg.chunkSize
  {
    hide Drained;
    hide AllDelivered;
    hide ValidRun;
    if 0 <= cfg.chunkSize {
      forall events | ValidRun(cfg, events) && Drained(After(cfg, events))
        ensures AllDelivered(After(cfg, events))
      {
        EveryRunIsSafe(cfg, events);
        DrainedDelivers(After(cfg, events));
      }
    } else {
      var events := NegativeSizeLosesOrders(cfg);
    }
  }

  lemma ChunkPublished(cfg: Config) returns (events: seq<Event>)
    requires 1 <= cfg.chunkSize
    ensures ValidRun(cfg, events)
    ensures var s := After(cfg, events); CHUNK in s.results && s.writing == map[] && s.rows == []
  {
    hide ValidRun;
    hide After;
    events := FetchOneOrder(cfg);
    assert ChunksOf(JOB, [ORDER], cfg.chunkSize) == [CHUNK];
    events := Extended(cfg, events, PublishNext(0));
  }

  /** One delivery that is applied in full but never acknowledged. */
  lemma ApplyThenCrash(cfg: Config, before: seq<Event>, now: int) returns (events: seq<Event>)
    requires !cfg.unique && ValidRun(cfg, before)
    requires var s := After(cfg, before); CHUNK in s.results && s.writing == map[]
    ensures ValidRun(cfg, events)
    ensures var s := After(cfg, events);
      CHUNK in s.results && s.writing == map[] && s.rows == After(cfg, before).rows + Docs(CHUNK, now)
  {
    hide ValidRun;
    hide After;
    OneDoc(cfg, After(cfg, before).rows, now);
    events := Extended(cfg, before, TakeChunk(0, CHUNK));
    events := Extended(cfg, events, InsertAll(0, Docs(CHUNK, now), now));
    events := Extended(cfg, events, CrashWrite(0));
  }

  /** Without the index, a write worker that dies before its acknowledgement leaves duplicates. */
  lemma RedeliveryDuplicates(cfg: Config) returns (events: seq<Event>)
    requires !cfg.unique && 1 <= cfg.chunkSize
    ensures ValidRun(cfg, events) && !OneRowPerOrder(After(cfg, events).rows)
  {
    hide ValidRun;
    hide After;
    events := ChunkPublished(cfg);
    events := ApplyThenCrash(cfg, events, 0);
    events := ApplyThenCrash(cfg, events, 1);
    var rows := After(cfg, events).rows;
    OneDoc(cfg, [], 0);
    OneDoc(cfg, [], 1);
    assert KeyOf(rows[0]) == KeyOf(rows[1]);
  }

  lemma Extended(cfg: Config, events: seq<Event>, e: Event) returns (more: seq<Event>)
    requires ValidRun(cfg, events) && Enabled(cfg, After(cfg, events), e)
    ensures ValidRun(cfg, more) && After(cfg, more) == Apply(cfg, After(cfg, events), e)
  {
    OneMoreEvent(cfg, events, e);
    more := events + [e];
  }

  lemma OneDoc(cfg: Config, rows: seq<Row>, now: int)
    requires !cfg.unique
    ensures Docs(CHUNK, now) == [Row(ORDER, 1, "run", now)]
    ensures Inserted(cfg.unique, rows, Docs(CHUNK, now)) == rows + Docs(CHUNK, now)
  {
    var docs := Docs(CHUNK, now);
    assert |docs| == 1 && docs[..0] == [];
  }

  lemma {:induction false} NothingWithoutChunks(cfg: Config, events: seq<Event>)
    requires cfg.chunkSize <= 0 && ValidRun(cfg, events)
    ensures var s := After(cfg, events);
      s.results == multiset{} && s.writing == map[] && s.published == {} && s.rows == []
  {
    if events != [] {
      NothingWithoutChunks(cfg, events[..|events| - 1]);
    }
  }

  /** At most one row per order and run, on every run: exactly when the index exists (or nothing is
      ever published). */
  lemma OneRowPerOrderExactlyWhen(cfg: Config)
    ensures (forall events :: ValidRun(cfg, events) ==> OneRowPerOrder(After(cfg, events).rows))
       <==> cfg.unique || cfg.chunkSize <= 0
  {
    hide ValidRun;
    hide OneRowPerOrder;
    if cfg.unique {
      forall events | ValidRun(cfg, events)
        ensures OneRowPerOrder(After(cfg, events).rows)
      {
        EveryRunIsSafe(cfg, events);
      }
    } else if cfg.chunkSize <= 0 {
      forall events | ValidRun(cfg, events)
        ensures OneRowPerOrder(After(cfg, events).rows)
      {
        NothingWithoutChunks(cfg, events);
        NoRows();
      }
    } else {
      var events := RedeliveryDuplicates(cfg);
    }
  }

  lemma NoRows()
    ensures OneRowPerOrder([])
  {
  }
}
