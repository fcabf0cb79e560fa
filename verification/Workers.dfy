/** The dispatcher and the message loops of the two workers, and why what they do is a run of the pipeline. */
module Workers {
  import opened MarketOrders
  import opened ScrapePipeline

  /** The queues and the collection are those of the state `s`. */
  ghost predicate Mirrors(broker: Broker, db: OrdersCollection, s: Sys)
    reads broker, db
  {
    broker.jobs == s.jobs && broker.results == s.results && db.rows == s.rows
  }

  /** The state after the jobs were put into their queue. */
  function Dispatched(s: Sys, jobs: seq<Job>): Sys {
    s.(jobs := s.jobs + multiset(jobs), dispatched := s.dispatched + set job | job in jobs)
  }

  /** Publishing jobs one by one, to the end or until a publish raises, is a run of the pipeline. */
  lemma {:induction false} DispatchIsRun(cfg: Config, events: seq<Event>, jobs: seq<Job>) returns (more: seq<Event>)
    requires ValidRun(cfg, events)
    ensures ValidRun(cfg, more) && After(cfg, more) == Dispatched(After(cfg, events), jobs)
    decreases |jobs|
  {
    hide ValidRun, After;
    var s := After(cfg, events);
    if jobs == [] {
      more := events;
      assert Dispatched(s, jobs) == s;
    } else {
      var front, last := jobs[..|jobs| - 1], jobs[|jobs| - 1];
      more := DispatchIsRun(cfg, events, front);
      more := Extended(cfg, more, Dispatch(last));
      assert jobs == front + [last];
      assert Dispatched(s, jobs).dispatched == Dispatched(s, front).dispatched + {last};
    }
  }

  /** The dispatcher, to the end or to the first publish that raises. */
  method Dispatcher(cfg: Config, broker: Broker, db: OrdersCollection, regions: seq<int>, runId: string,
                    deliveries: nat -> Delivery, ghost events: seq<Event>)
    returns (ok: bool, ghost more: seq<Event>, ghost sent: nat)
    requires ValidRun(cfg, events) && Mirrors(broker, db, After(cfg, events))
    modifies broker
    ensures ValidRun(cfg, more) && Mirrors(broker, db, After(cfg, more)) && Safe(cfg, After(cfg, more))
    ensures sent <= |regions| && SendEnds(deliveries, |regions|, sent, ok)
    ensures After(cfg, more) == Dispatched(After(cfg, events), JobsFor(regions, runId)[..sent])
  {
    hide ValidRun, After, Safe, SendEnds;
    ok, sent := DispatchScrape(broker, regions, runId, deliveries);
    more := DispatchIsRun(cfg, events, JobsFor(regions, runId)[..sent]);
    EveryRunIsSafe(cfg, more);
  }

  function Published(chunks: seq<Chunk>): set<Chunk> {
    set chunk | chunk in chunks
  }

  /** The state after a job was taken, fetched, published and acknowledged. */
  function Consumed(cfg: Config, s: Sys, job: Job, orders: seq<Order>): Sys {
    var chunks := ChunksOf(job, orders, cfg.chunkSize);
    s.(jobs := s.jobs - multiset{job}, results := s.results + multiset(chunks),
       published := s.published + Published(chunks),
       fetched := s.fetched + {Fetch(job, orders)}, completed := s.completed + {Fetch(job, orders)})
  }

  /** The worker `tag` has taken the job, fetched it and published `sent` chunks. */
  function HalfPublished(cfg: Config, s: Sys, tag: nat, job: Job, orders: seq<Order>, sent: nat): Sys
    requires sent <= |ChunksOf(job, orders, cfg.chunkSize)|
  {
    var chunks := ChunksOf(job, orders, cfg.chunkSize)[..sent];
    s.(jobs := s.jobs - multiset{job}, results := s.results + multiset(chunks),
       published := s.published + Published(chunks), fetched := s.fetched + {Fetch(job, orders)},
       fetching := s.fetching[tag := Publishing(job, orders, sent)])
  }

  lemma {:induction false} PublishedSoFar(cfg: Config, events: seq<Event>, tag: nat, job: Job, orders: seq<Order>,
                                          sent: nat)
    returns (more: seq<Event>)
    requires ValidRun(cfg, events) && job in After(cfg, events).jobs && tag !in After(cfg, events).fetching
    requires sent <= |ChunksOf(job, orders, cfg.chunkSize)|
    ensures ValidRun(cfg, more)
    ensures After(cfg, more) == HalfPublished(cfg, After(cfg, events), tag, job, orders, sent)
    decreases sent
  {
    hide ValidRun, After, Apply, Enabled, HalfPublished;
    var s := After(cfg, events);
    if sent == 0 {
      FetchedNow(cfg, s, tag, job, orders);
      more := Extended(cfg, events, TakeJob(tag, job));
      more := Extended(cfg, more, FetchDone(tag, orders));
    } else {
      more := PublishedSoFar(cfg, events, tag, job, orders, sent - 1);
      PublishedNow(cfg, s, tag, job, orders, sent);
      more := Extended(cfg, more, PublishNext(tag));
    }
  }

  lemma FetchedNow(cfg: Config, s: Sys, tag: nat, job: Job, orders: seq<Order>)
    requires job in s.jobs && tag !in s.fetching
    ensures Enabled(cfg, s, TakeJob(tag, job)) && Enabled(cfg, Apply(cfg, s, TakeJob(tag, job)), FetchDone(tag, orders))
    ensures Apply(cfg, Apply(cfg, s, TakeJob(tag, job)), FetchDone(tag, orders))
         == HalfPublished(cfg, s, tag, job, orders, 0)
  {
    var chunks := ChunksOf(job, orders, cfg.chunkSize);
    assert s.fetching[tag := Fetching(job)][tag := Publishing(job, orders, 0)]
        == s.fetching[tag := Publishing(job, orders, 0)];
    assert s.results + multiset(chunks[..0]) == s.results;
    assert s.published + Published(chunks[..0]) == s.published;
  }

  lemma PublishedNow(cfg: Config, s: Sys, tag: nat, job: Job, orders: seq<Order>, sent: nat)
    requires 0 < sent <= |ChunksOf(job, orders, cfg.chunkSize)|
    ensures var half := HalfPublished(cfg, s, tag, job, orders, sent - 1);
      && Enabled(cfg, half, PublishNext(tag))
      && Apply(cfg, half, PublishNext(tag)) == HalfPublished(cfg, s, tag, job, orders, sent)
  {
    hide Published, ChunksOf;
    var chunks := ChunksOf(job, orders, cfg.chunkSize);
    var before := s.fetching[tag := Publishing(job, orders, sent - 1)];
    var after := s.fetching[tag := Publishing(job, orders, sent)];
    assert before[tag := Publishing(job, orders, sent)] == after;
    assert chunks[..sent] == chunks[..sent - 1] + [chunks[sent - 1]];
    assert s.results + multiset(chunks[..sent - 1]) + multiset{chunks[sent - 1]}
        == s.results + multiset(chunks[..sent]);
    OneMorePublished(chunks[..sent - 1], chunks[sent - 1], s.published);
  }

  lemma OneMorePublished(chunks: seq<Chunk>, chunk: Chunk, published: set<Chunk>)
    ensures published + Published(chunks + [chunk]) == published + Published(chunks) + {chunk}
  {
  }

  /** A job consumed without a crash is a run of the pipeline. */
  lemma JobIsRun(cfg: Config, events: seq<Event>, tag: nat, job: Job, orders: seq<Order>) returns (more: seq<Event>)
    requires ValidRun(cfg, events) && job in After(cfg, events).jobs && tag !in After(cfg, events).fetching
    requires cfg.chunkSize != 0
    ensures ValidRun(cfg, more) && After(cfg, more) == Consumed(cfg, After(cfg, events), job, orders)
  {
    hide ValidRun, After;
    var s, chunks := After(cfg, events), ChunksOf(job, orders, cfg.chunkSize);
    more := PublishedSoFar(cfg, events, tag, job, orders, |chunks|);
    assert chunks[..|chunks|] == chunks;
    more := Extended(cfg, more, AckJob(tag));
    assert s.fetching[tag := Publishing(job, orders, |chunks|)] - {tag} == s.fetching;
  }

  /** So is one that raised: the job is back in its queue. */
  lemma FailedJobIsRun(cfg: Config, events: seq<Event>, tag: nat, job: Job) returns (more: seq<Event>)
    requires ValidRun(cfg, events) && job in After(cfg, events).jobs && tag !in After(cfg, events).fetching
    ensures ValidRun(cfg, more) && After(cfg, more) == After(cfg, events)
  {
    hide ValidRun, After;
    var s := After(cfg, events);
    more := Extended(cfg, events, TakeJob(tag, job));
    more := Extended(cfg, more, CrashFetch(tag));
    assert s.fetching[tag := Fetching(job)] - {tag} == s.fetching;
    assert s.jobs - multiset{job} + multiset{job} == s.jobs;
  }

  /** A chunk applied and acknowledged. */
  lemma AppliedChunkIsRun(cfg: Config, events: seq<Event>, tag: nat, chunk: Chunk, now: int) returns (more: seq<Event>)
    requires ValidRun(cfg, events) && chunk in After(cfg, events).results && tag !in After(cfg, events).writing
    ensures ValidRun(cfg, more)
    ensures var s := After(cfg, events);
      After(cfg, more) == s.(results := s.results - multiset{chunk},
                             rows := Inserted(cfg.unique, s.rows, Docs(chunk, now)))
  {
    hide ValidRun, After, Inserted;
    var s := After(cfg, events);
    more := Extended(cfg, events, TakeChunk(tag, chunk));
    more := Extended(cfg, more, InsertAll(tag, Docs(chunk, now), now));
    more := Extended(cfg, more, AckChunk(tag));
    assert s.writing[tag := WriteWork(chunk, false)][tag := WriteWork(chunk, true)] - {tag} == s.writing;
  }

  /** A chunk refused in part and put back. */
  lemma RefusedChunkIsRun(cfg: Config, events: seq<Event>, tag: nat, chunk: Chunk, now: int, faults: set<nat>)
    returns (more: seq<Event>)
    requires ValidRun(cfg, events) && chunk in After(cfg, events).results && tag !in After(cfg, events).writing
    ensures ValidRun(cfg, more)
    ensures var s := After(cfg, events);
      After(cfg, more) == s.(rows := Inserted(cfg.unique, s.rows, WithoutFaults(Docs(chunk, now), faults)))
  {
    hide ValidRun, After, Inserted, WithoutFaults, Enabled, Apply;
    var docs := WithoutFaults(Docs(chunk, now), faults);
    KeptDocs(Docs(chunk, now), faults);
    RefusedNow(cfg, After(cfg, events), tag, chunk, docs, now);
    more := Extended(cfg, events, TakeChunk(tag, chunk));
    more := Extended(cfg, more, InsertSome(tag, docs, now));
    more := Extended(cfg, more, CrashWrite(tag));
  }

  lemma RefusedNow(cfg: Config, s: Sys, tag: nat, chunk: Chunk, docs: seq<Row>, now: int)
    requires chunk in s.results && tag !in s.writing && forall doc :: doc in docs ==> doc in Docs(chunk, now)
    ensures Enabled(cfg, s, TakeChunk(tag, chunk))
    ensures var s1 := Apply(cfg, s, TakeChunk(tag, chunk));
      && Enabled(cfg, s1, InsertSome(tag, docs, now))
      && var s2 := Apply(cfg, s1, InsertSome(tag, docs, now));
      && Enabled(cfg, s2, CrashWrite(tag))
      && Apply(cfg, s2, CrashWrite(tag)) == s.(rows := Inserted(cfg.unique, s.rows, docs))
  {
    hide Inserted, Docs;
    assert s.writing[tag := WriteWork(chunk, false)] - {tag} == s.writing;
    assert s.results - multiset{chunk} + multiset{chunk} == s.results;
  }

  /** The state after the job was fetched and `sent` of its chunks published when the worker died. */
  function Interrupted(cfg: Config, s: Sys, job: Job, orders: seq<Order>, sent: nat): Sys
    requires sent <= |ChunksOf(job, orders, cfg.chunkSize)|
  {
    var chunks := ChunksOf(job, orders, cfg.chunkSize)[..sent];
    s.(results := s.results + multiset(chunks), published := s.published + Published(chunks),
       fetched := s.fetched + {Fetch(job, orders)})
  }

  /** So is one whose publishing raised part-way. */
  lemma InterruptedJobIsRun(cfg: Config, events: seq<Event>, tag: nat, job: Job, orders: seq<Order>, sent: nat)
    returns (more: seq<Event>)
    requires ValidRun(cfg, events) && job in After(cfg, events).jobs && tag !in After(cfg, events).fetching
    requires sent <= |ChunksOf(job, orders, cfg.chunkSize)|
    ensures ValidRun(cfg, more) && After(cfg, more) == Interrupted(cfg, After(cfg, events), job, orders, sent)
  {
    hide ValidRun, After, Published, ChunksOf;
    var s := After(cfg, events);
    more := PublishedSoFar(cfg, events, tag, job, orders, sent);
    more := Extended(cfg, more, CrashFetch(tag));
    assert s.fetching[tag := Publishing(job, orders, sent)] - {tag} == s.fetching;
    assert s.jobs - multiset{job} + multiset{job} == s.jobs;
  }

  /** One message of the fetch worker; an exception ends the worker and the job is redelivered. */
  method ConsumeJob(cfg: Config, broker: Broker, db: OrdersCollection, job: Job, pages: int -> PageResponse,
                    deliveries: nat -> Delivery, ghost events: seq<Event>, ghost tag: nat)
    returns (acked: bool, ghost more: seq<Event>, ghost sent: nat)
    requires ValidRun(cfg, events) && Mirrors(broker, db, After(cfg, events))
    requires job in broker.jobs && tag !in After(cfg, events).fetching
    modifies broker
    ensures ValidRun(cfg, more) && Mirrors(broker, db, After(cfg, more))
    ensures cfg.chunkSize == 0 || !PagesFetched(pages) ==> !acked && After(cfg, more) == After(cfg, events)
    ensures cfg.chunkSize != 0 && PagesFetched(pages) ==>
              var orders := PagesUpTo(pages, PagesRead(pages));
              && sent <= |ChunksOf(job, orders, cfg.chunkSize)|
              && SendEnds(deliveries, |ChunksOf(job, orders, cfg.chunkSize)|, sent, acked)
              && After(cfg, more) == if acked then Consumed(cfg, After(cfg, events), job, orders)
                                     else Interrupted(cfg, After(cfg, events), job, orders, sent)
    ensures acked ==> !SomePageFails(pages) && broker.jobs == old(broker.jobs) - multiset{job}
    ensures !acked ==> broker.jobs == old(broker.jobs)
    ensures acked && 1 <= cfg.chunkSize ==> exists chunks ::
              CutOfPages(job, pages, cfg.chunkSize, chunks) &&
              broker.results == old(broker.results) + multiset(chunks)
    ensures acked && 1 <= cfg.chunkSize ==> forall o :: OnSomePage(pages, o) ==> Carried(broker.results, job, o)
  {
    hide SomePageFails, OnSomePage, CutOfPages, Carried, InPageOrder;
    hide ValidRun, After, ChunksOf, PagesFetched, PagesUpTo, SendEnds, Consumed, Interrupted;
    broker.jobs := broker.jobs - multiset{job};
    var fetched;
    fetched, sent := RunFetchJob(broker, job, pages, cfg.chunkSize, deliveries);
    acked := fetched.Orders?;
    if !acked {
      broker.jobs := broker.jobs + multiset{job};
    }
    ghost var orders := PagesUpTo(pages, PagesRead(pages));
    if acked && 1 <= cfg.chunkSize {
      CutCarries(job, pages, cfg.chunkSize, old(broker.results), sent, broker.results);
    }
    if acked {
      AllSentQueues(cfg, After(cfg, events), job, orders, deliveries, sent);
      more := JobIsRun(cfg, events, tag, job, orders);
    } else if cfg.chunkSize != 0 && PagesFetched(pages) {
      InterruptedQueues(cfg, After(cfg, events), job, orders, sent);
      more := InterruptedJobIsRun(cfg, events, tag, job, orders, sent);
    } else {
      more := FailedJobIsRun(cfg, events, tag, job);
    }
  }

  /** Some chunk under the job's region and run carries the order. */
  ghost predicate Carried(results: multiset<Chunk>, job: Job, o: Order) {
    exists chunk :: chunk in results && chunk.regionId == job.regionId && chunk.runId == job.runId && o in chunk.orders
  }

  /** Once all chunks of a job are sent, every order of every announced page is in one. */
  lemma CutCarries(job: Job, pages: int -> PageResponse, size: int, before: multiset<Chunk>, sent: nat,
                   after: multiset<Chunk>)
    requires exists chunks :: CutOfPages(job, pages, size, chunks) && sent == |chunks| &&
                              after == before + multiset(chunks[..sent])
    ensures exists chunks :: CutOfPages(job, pages, size, chunks) && after == before + multiset(chunks)
    ensures forall o :: OnSomePage(pages, o) ==> Carried(after, job, o)
  {
    hide OnSomePage, InPageOrder;
    var chunks :| CutOfPages(job, pages, size, chunks) && sent == |chunks| &&
                  after == before + multiset(chunks[..sent]);
    assert chunks[..sent] == chunks;
    var orders :| InPageOrder(pages, orders) && IsCut(job, orders, size, chunks);
    forall o | OnSomePage(pages, o)
      ensures Carried(after, job, o)
    {
      InOrderHasAll(pages, orders, o);
      var i := InSomeChunk(chunks, o);
      assert chunks[i] in multiset(chunks);
    }
  }

  /** What is on an announced page is among the orders in page order. */
  lemma InOrderHasAll(pages: int -> PageResponse, orders: seq<Order>, o: Order)
    requires InPageOrder(pages, orders) && OnSomePage(pages, o)
    ensures o in orders
  {
    var n, offsets :| Announced(pages, n) && PagesAt(pages, n, orders, offsets);
    var p: nat :| 1 <= p <= n && pages(p).PageOk? && o in pages(p).entries;
    assert o in orders[offsets[p - 1]..offsets[p]];
  }

  lemma AllSentQueues(cfg: Config, s: Sys, job: Job, orders: seq<Order>, deliveries: nat -> Delivery, sent: nat)
    requires sent <= |ChunksOf(job, orders, cfg.chunkSize)|
    requires SendEnds(deliveries, |ChunksOf(job, orders, cfg.chunkSize)|, sent, true)
    ensures var s', chunks := Consumed(cfg, s, job, orders), ChunksOf(job, orders, cfg.chunkSize);
      && s'.jobs == s.jobs - multiset{job} && s'.results == s.results + multiset(chunks[..sent]) && s'.rows == s.rows
      && s'.fetching == s.fetching && s'.writing == s.writing
  {
    hide ChunksOf;
    assert ChunksOf(job, orders, cfg.chunkSize)[..sent] == ChunksOf(job, orders, cfg.chunkSize);
  }

  lemma InterruptedQueues(cfg: Config, s: Sys, job: Job, orders: seq<Order>, sent: nat)
    requires sent <= |ChunksOf(job, orders, cfg.chunkSize)|
    ensures var s', chunks := Interrupted(cfg, s, job, orders, sent), ChunksOf(job, orders, cfg.chunkSize);
      && s'.jobs == s.jobs && s'.results == s.results + multiset(chunks[..sent]) && s'.rows == s.rows
      && s'.fetching == s.fetching && s'.writing == s.writing
  {
  }

  /** The loop over the queue, for as many messages as arrive, in any order. */
  method FetchWorker(cfg: Config, broker: Broker, db: OrdersCollection, messages: nat,
                     pages: (nat, Job) -> int -> PageResponse, deliveries: (nat, nat) -> Delivery,
                     ghost events: seq<Event>, ghost tag: nat)
    returns (ghost more: seq<Event>)
    requires ValidRun(cfg, events) && Mirrors(broker, db, After(cfg, events)) && tag !in After(cfg, events).fetching
    modifies broker
    ensures ValidRun(cfg, more) && Mirrors(broker, db, After(cfg, more)) && Safe(cfg, After(cfg, more))
    ensures After(cfg, more).fetching == After(cfg, events).fetching
    ensures After(cfg, more).writing == After(cfg, events).writing
  {
    hide ValidRun, After, Safe;
    more := events;
    var i := 0;
    while i < messages && broker.jobs != multiset{}
      invariant ValidRun(cfg, more) && Mirrors(broker, db, After(cfg, more))
      invariant After(cfg, more).fetching == After(cfg, events).fetching
      invariant After(cfg, more).writing == After(cfg, events).writing
    {
      var job :| job in broker.jobs;
      var acked;
      ghost var sent;
      var n := i;
      acked, more, sent := ConsumeJob(cfg, broker, db, job, pages(n, job), (k: nat) => deliveries(n, k), more, tag);
      if !acked {
        break;
      }
      i := i + 1;
    }
    EveryRunIsSafe(cfg, more);
  }

  /** One message of the write worker. */
  method ConsumeChunk(cfg: Config, broker: Broker, db: OrdersCollection, chunk: Chunk, now: int, faults: set<nat>,
                      ghost events: seq<Event>, ghost tag: nat)
    returns (acked: bool, ghost more: seq<Event>)
    requires ValidRun(cfg, events) && Mirrors(broker, db, After(cfg, events)) && db.unique == cfg.unique
    requires chunk in broker.results && tag !in After(cfg, events).writing
    modifies broker, db
    ensures ValidRun(cfg, more) && Mirrors(broker, db, After(cfg, more))
    ensures After(cfg, more).fetching == After(cfg, events).fetching
    ensures After(cfg, more).writing == After(cfg, events).writing
    ensures db.rows == Inserted(cfg.unique, old(db.rows), WithoutFaults(Docs(chunk, now), faults))
    ensures broker.results == if acked then old(broker.results) - multiset{chunk} else old(broker.results)
    ensures acked <==> forall i: nat :: i < |chunk.orders| ==> i !in faults
    ensures acked ==> forall o :: o in chunk.orders ==> HasRow(db.rows, o.orderId, chunk.runId)
    ensures forall row :: row in db.rows ==> row in old(db.rows) || IsRowFor(chunk, now, row)
    ensures db.unique && OneRowPerOrder(old(db.rows)) ==> OneRowPerOrder(db.rows)
  {
    hide HasRow, OneRowPerOrder;
    hide ValidRun, After, Inserted, WithoutFaults;
    broker.results := broker.results - multiset{chunk};
    var outcome := ApplyOrdersChunk(db, chunk, now, faults);
    acked := outcome.Done?;
    if acked {
      KeptDocs(Docs(chunk, now), faults);
      more := AppliedChunkIsRun(cfg, events, tag, chunk, now);
    } else {
      broker.results := broker.results + multiset{chunk};
      more := RefusedChunkIsRun(cfg, events, tag, chunk, now, faults);
    }
  }

  method WriteWorker(cfg: Config, broker: Broker, db: OrdersCollection, messages: nat, now: nat -> int,
                     faults: nat -> set<nat>,
                     ghost events: seq<Event>, ghost tag: nat)
    returns (ghost more: seq<Event>)
    requires ValidRun(cfg, events) && Mirrors(broker, db, After(cfg, events)) && db.unique == cfg.unique
    requires tag !in After(cfg, events).writing
    modifies broker, db
    ensures ValidRun(cfg, more) && Mirrors(broker, db, After(cfg, more)) && Safe(cfg, After(cfg, more))
    ensures old(db.rows) <= db.rows
  {
    hide ValidRun, After, Safe, Inserted, WithoutFaults;
    more := events;
    var i := 0;
    while i < messages && broker.results != multiset{}
      invariant ValidRun(cfg, more) && Mirrors(broker, db, After(cfg, more))
      invariant tag !in After(cfg, more).writing && old(db.rows) <= db.rows
    {
      var chunk :| chunk in broker.results;
      ghost var docs := WithoutFaults(Docs(chunk, now(i)), faults(i));
      InsertedRows(cfg.unique, db.rows, docs);
      var acked;
      acked, more := ConsumeChunk(cfg, broker, db, chunk, now(i), faults(i), more, tag);
      if !acked {
        break;
      }
      i := i + 1;
    }
    EveryRunIsSafe(cfg, more);
  }
}
