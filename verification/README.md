# Verification of eve-build

Dafny models of the parts of eve-build whose correctness does not show from any single function, and
proofs about them. Loops that update variables are `method`s with invariants, objects updated in place
are classes, and each is tied by its contract to a pure function or predicate about which the laws are
proved as lemmas; other clauses and lemmas say the same result in terms of rows, fields, paths, positions and
literal constants, without that function. `dafny verify dfyconfig.toml` checks everything.

**Build chains** (`Recipes`, `LevelWalk`, `Chains`, `ChainResolver`, `WalkLaws`, `ResolutionLaws`, `DepthGuard`,
`Planners`, `StepOrder`, `StepDistance`). The level-by-level resolver, its depth guard at 15, the leftover fold and the
depth-first ordering of the steps. A request fixes the catalogue (the blueprint that makes each type), the
target, the quantity (any integer) and the build set. Dictionaries are walked in an arbitrary order, so
every result holds for all insertion orders. `After(rq, tally, d, x)` is what the walk has booked for
`x` after `d` levels; a law for every `d` is a law at every head of the loop. `ChainTo` and `WithinChain` speak of the
chains of materials from the target, without the walk.

**Planetary tiers** (`TierExpansion`, `TierPaths`, `SchematicPage`). `_expand_to_tier`, the merge of its results and
the floor loop of the schematic page, wherever the recursion ends (`Ends`: some number of rounds suffices).
`Value` is the worth of an expansion under an arbitrary weight for the types left over: prices give its cost,
the indicator of a type gives that type's amount. `TierPaths` says what an expansion is without computing it: by paths
of inputs, and by the prices under which it costs what was expanded.

**Market-order scrape** (`MarketOrders`, `EsiClient`, `ScrapePipeline`, `Workers`). Dispatch, fetch with
pages and chunks, bulk insert; the workers and queues as a state machine with any number of workers and
with crashes and redeliveries at any point; and the dispatcher and the workers' message loops, proved to be
runs of that machine. The unique (order_id, scrape_run_id) index is the parameter `unique`: the service's comment
relies on it (app/services/market_orders.py:59), while the configured indexes
(app/config/mongo_indexes/market_orders.json:3-8) do not contain it.

**Migrations** (`SdeData`, `MigrationState`, `ReactionOrder`, `MigrationConvergence`, `MigrationContents`,
`MigrationRunner`, `MigrationList`, `MigrationListInstance`). The runner and migrations 0001, 0002 and 0008 as lists of
writes, each of which may stop after any part of its effect; the concurrent updates of a batch of 0008 take effect in
any order, given by a function `finish`, so that a run has several possible ends (`MayEnd`); what a completed run leaves,
row by row (`MigrationContents`); the loops themselves over a database changed in place; and the runner over any list of
migrations that absorb their own partial effects, as these three are shown to.

**Index reconciler** (`IndexConfig`, `IndexSync`, `IndexRefusal`, `IndexReconciler`). Loading the configuration and
bringing the indexes to it through the side table of records, with a crash between any two writes. The server refuses
an index that the collection already has under another name: the same keys, and unique and sparse alike; other
refusals are arbitrary.

**Containers, asset totals, tiered lookups** (`Containers`, `AssetTotals`, `TieredLookup`). The
container chase with its cycle guard, the quantities grouped by it on the three asset pages, and Redis
in front of Mongo in front of ESI. The four tiered resolvers of app/services/locations.py repeat one
algorithm with another prefix, collection and value; `ResolveTiered` is that algorithm once, with the
Mongo filter on names (app/services/locations.py:53) as the flag `namedOnly`.

`Sums`, `Maps` and `Optional` hold finite sums, extensionality of maps and the option type.

Where the code and its documentation disagree, the model follows the code, and the difference is proved:

- A comment at app/services/build_chain.py:107-108 treats leftovers of the guard as raw. They are conserved,
  but a buildable type pending there is flagged unbuildable (`DepthGuard.FlagsExactWhen`).
- app/services/build_chain.py:158-159 promises components before their consumers. That holds exactly when the
  steps have no cycle (`StepOrder.TopologicalOrder`); for a request with a cycle no order could do better
  (`StepOrder.LoopHasNoOrder`).
- app/services/build_chain.py:137-138 promises steps ordered by minimum distance from the raw materials. The traversal
  keeps that exactly when nearer steps are components of farther ones (`StepDistance.ByDistanceExactlyWhen`); a
  request for which it need not is `StepDistance.UNEVEN`.
- app/services/market_orders.py:59 relies on a unique index that the index configuration does not create
  (`ScrapePipeline.OneRowPerOrderExactlyWhen`).
- app/scripts/market_orders_fetch_worker.py:47 mentions a region-complete marker; nothing publishes one.
- A negative chunk size is accepted and drops every order of a region (`ScrapePipeline.NoOrderLostExactlyWhen`).
- The overview goes by the last copy of an item id, the item page by every copy. They count locations alike when
  the copies of each id are at one place (`AssetTotals.OnePlacePerIdAgrees`, `AssetTotals.PageAgreesExactlyWhen`).
- The row just below a schematic's own tier need not be its direct inputs when a later schematic has the same
  output (`SchematicPage.HighestFloorDirectExactlyWhen`).
- With different documents for one reaction in a batch of 0008, the last of the concurrent updates to finish wins, so
  that one dump may be migrated in several ways (`MigrationConvergence.OneEndExactlyWhen`).
- An index that is only renamed in the configuration blocks every later sync (`IndexRefusal.RenameNeverCompletes`).
- A changed index configuration that is taken back after a crash may leave an index missing for good
  (`IndexSync.TakenBackExactlyWhen`).

## Model

| member | source | states |
|---|---|---|
| ChainResolver.ResolveBuildChain | app/services/build_chain.py:60-111 | the resolver's loops, with steps updated in place and dicts walked in any order, end with exactly the steps, raw totals and flags of the pure level walk; a type is a step exactly when it has a blueprint, is the target or in the build set, and some chain of at most 14 materials leads to it, and then holds its recipe times its runs; raw is what such a chain reaches otherwise, and whatever a chain of 15 reaches; it counts as buildable exactly when it has a blueprint, is neither target nor in the build set, and a chain of at most 14 reaches it |
| ChainResolver.ResultInChains | app/services/build_chain.py:66-111 | the same of the pure walk, type by type |
| ChainResolver.RunLevels | app/services/build_chain.py:64-105 | stopping early when a level is empty gives the same result as running to the depth guard |
| ChainResolver.ProcessLevel | app/services/build_chain.py:74-105 | one level, in any order of its types, is one step of the pure walk |
| ChainResolver.ProcessType | app/services/build_chain.py:74-102 | one type of a level: with a blueprint, and being the target or in the build set, its step takes on the demand and nothing is booked as raw; otherwise its raw total grows by the demand, its flag says whether it has a blueprint, and nothing is passed down |
| ChainResolver.AddMaterials | app/services/build_chain.py:98-102 | the step's materials and the next level grow by the same demand, repeated material lines included |
| ChainResolver.FoldLeftover | app/services/build_chain.py:107-111 | what is still pending is added to raw, flagged unbuildable unless it was flagged before |
| Recipes.CeilDiv | app/services/build_chain.py:83 | the rounding is the integer ceiling, for negative demand too |
| Recipes.RunsFor | app/services/build_chain.py:83 | the least number of runs, at least one, that covers the demand |
| Recipes.RunsSubadditive | app/services/build_chain.py:83 | merging two demands never needs more runs |
| Recipes.LineTotalOfMultiset | app/services/build_chain.py:98-102 | what a recipe uses does not depend on the order of its lines |
| WalkLaws.DemandConserved | app/services/build_chain.py:60-105 | after any number of levels, cycles included: target demand plus everything steps consumed of a type is its step's demand plus its raw total plus what is pending |
| ResolutionLaws.LoopHeadConserves | app/services/build_chain.py:66-105 | the same law read off the step objects at every head of the loop |
| ResolutionLaws.ResolutionConserves | app/services/build_chain.py:60-111 | at the end nothing is pending: demand equals step demand plus raw, also when the guard cut a cycle |
| WalkLaws.LevelsPositive | app/services/build_chain.py:64-105 | every pending demand of a real order is at least one |
| WalkLaws.SurplusBounded | app/services/build_chain.py:83-96 | runs cover the demand, and the surplus is below one batch for each level in which the type was expanded |
| WalkLaws.SingleBatchExact | app/services/build_chain.py:83-96 | a type expanded in one level only is rounded exactly once |
| ResolutionLaws.StepArithmetic | app/services/build_chain.py:81-102 | each step's materials are its runs times the recipe; surplus between 0 and 15 * (product_quantity - 1); exact rounding when only one level asked |
| WalkLaws.WalkMonotone | app/services/build_chain.py:64-105 | a larger order lowers no tally and meets the same types, cyclic graphs included |
| WalkLaws.WalkSubadditive | app/services/build_chain.py:64-105 | one order for a sum takes no more of anything than two orders |
| ResolutionLaws.LargerOrder | app/services/build_chain.py:60-111 | the same steps and raw materials, none of them smaller |
| ResolutionLaws.SplitOrder | app/services/build_chain.py:60-111 | runs, step demand and raw demand of a combined order are at most the sums of two orders |
| WalkLaws.WalkLocal | app/services/build_chain.py:66-105 | the walk depends only on the recipes of the types it meets |
| Chains.LevelsAreChains | app/services/build_chain.py:64-105 | a type is pending at level d exactly when some recipe chain of d edges from the target ends in it |
| DepthGuard.DrainsExactlyWithinDepth | app/services/build_chain.py:66-111 | nothing is pending at the guard if and only if no chain, leaves included, has more than 14 edges |
| Chains.PlacedByExpansion | app/services/build_chain.py:74-96 | a type met before the guard is a step exactly when it is expanded, a raw leaf exactly when it is not |
| DepthGuard.ResultKeys | app/services/build_chain.py:74-111 | every raw material has a flag; which types are steps and which are raw, in terms of the chains; the target is a step exactly when it has a blueprint |
| DepthGuard.WithinDepth | app/services/build_chain.py:66-111 | within the depth limit steps and raw materials are disjoint and is_buildable is true exactly for types with a blueprint |
| DepthGuard.FlagsExactWhen | app/services/build_chain.py:78-111 | is_buildable is right for every raw material if and only if whatever ends a chain of 15 edges has no blueprint, or is neither target nor in the build set and also ends a chain of at most 14 |
| DepthGuard.LoopMisreported | app/services/build_chain.py:107-111 | an item that consumes itself is listed as a step and as an unbuildable raw material |
| DepthGuard.BuildingALeaf | app/services/build_chain.py:74-79 | adding a buildable raw material to the build set makes it a step if and only if it is met before the guard, and takes it off the raw list if and only if the larger walk does not leave it pending at the guard; both when the larger chain stays within the limit |
| DepthGuard.BuildSetLocality | app/services/build_chain.py:76 | build sets that agree on the types met give the same resolution |
| DepthGuard.MaterialOrderIrrelevant | app/services/build_chain.py:98-102 | reordering the material lines of blueprints changes nothing in the result |
| Planners.WalkBelowTree | app/services/build_chain.py:66-105 | at every level, tallies so far plus the naive per-occurrence expansion of what is pending never exceed the naive expansion of the order; equal when every product_quantity is 1 |
| Planners.TotalBelowTree | app/services/build_chain.py:60-111 | no final tally exceeds that of naive expansion cut at the same depth |
| Planners.TreeIsWhole | app/services/build_chain.py:66 | within the depth limit the naive expansion is not cut at all |
| Planners.RoundingOncePossible | app/services/build_chain.py:81-102 | within the depth limit a plan that rounds each type's total demand once exists |
| Planners.OnceBelowWalk | app/services/build_chain.py:81-102 | that plan never runs a step more often than the walk |
| Planners.Sandwich | app/services/build_chain.py:64-111 | runs and raw demand of every type: rounded once <= level walk <= naive expansion; all equal when every product_quantity is 1 |
| StepOrder.StepSorter.Visit | app/services/build_chain.py:163-172 | the recursive visit terminates and does what the pure traversal does for the given order of the dicts; it only extends the order, and leaves the type visited and, if it was a new step, last |
| StepOrder.TopologicalOrder | app/services/build_chain.py:155-175 | the steps in the post-order of the traversal: every step exactly once, the target last; components precede all their consumers if and only if the steps have no cycle |
| StepOrder.PostOrderPromises | app/services/build_chain.py:155-175 | the same of the pure traversal, whatever the order in which the dicts are walked |
| StepDistance.ByDistanceExactlyWhen | app/services/build_chain.py:137-139 | for steps without a cycle: they come by minimum distance from the raw materials, in whatever order the dicts are walked, if and only if every step that is nearer to the raw materials than another is a direct or indirect component of it |
| StepDistance.FartherStepFirst | app/services/build_chain.py:137-139 | for example a target made of a two-stage and a one-stage component: some order of the dicts lists the farther step first |
| StepOrder.ComponentsFirstNeedsAcyclic | app/services/build_chain.py:158-159 | no order at all puts components first when the steps have a cycle |
| StepOrder.LoopHasNoOrder | app/services/build_chain.py:155-175 | the item that consumes itself is such a request |
| StepOrder.WithinDepthIsAcyclic | app/services/build_chain.py:66 | a chain that drains before the guard has no cycle among its steps |
| StepOrder.StepsReachable | app/services/build_chain.py:101-104 | every step is reachable from the target through step materials |
| StepOrder.ResolveInOrder | app/services/build_chain.py:60-141 | resolution and ordering together: all steps of the walk in the post-order of the traversal, once each, target last, components first within the depth limit |
| SchematicPage.ExpandToTier | app/routes/planetary.py:55-79 | wherever the recursion ends, the dict holds exactly the types at the end of a path of inputs through types with a schematic and a tier above the floor; under any prices at which the opened schematics cost what their outputs cost, the dict costs what was expanded; no other dict does both |
| SchematicPage.GradedPageEnds | app/routes/planetary.py:62-68 | when every input sits below its output the recursions of the page end |
| SchematicPage.ExpandLines | app/routes/planetary.py:68-79 | the same for a list of input lines, repeated types merged |
| SchematicPage.MergeInto | app/routes/planetary.py:77-78 | merging adds amounts key by key, in any order, and keeps the keys of both |
| TierPaths.LeavesByPaths | app/routes/planetary.py:62-68 | the types left over are those at the end of a path of inputs through opened types, and no others |
| TierPaths.TypeIsExpanded | app/routes/planetary.py:55-79 | the recursion gives a dict of those types that costs what was expanded, under any prices at which every schematic opened on the way costs what its output costs |
| TierPaths.ExpansionIsDecided | app/routes/planetary.py:55-79 | for every type, quantity and floor where the recursion ends, only one dict does that |
| TierPaths.LinesExpansionIsDecided | app/routes/planetary.py:316-328 | nor do the paths and even prices of a list of lines leave a choice |
| TierPaths.EndsByPaths | app/routes/planetary.py:62-68 | the recursion is over after n rounds if and only if no path opens more than n types in a row |
| TierExpansion.ValueScales | app/routes/planetary.py:55-79 | expansion is homogeneous in the quantity, at every floor and for every weight |
| TierExpansion.ValueSplits | app/routes/planetary.py:55-79 | expansion is linear in the weights: pricing and counting are one computation |
| TierExpansion.ExpansionWorth | app/routes/planetary.py:55-79 | pricing the lines of an expansion one by one gives the value defined by recursion, for every price list |
| TierExpansion.ValueComposes | app/routes/planetary.py:55-79 | valuing at a low floor is valuing at a higher floor with each leaf valued at the low floor |
| TierExpansion.ExpansionComposes | app/routes/planetary.py:55-79 | expanding to floor f, expanding every line to g <= f and merging equals expanding to g |
| SchematicPage.ExpandedCost | app/routes/planetary.py:55-79 | if every schematic preserves value so does every expansion; if inputs never cost more, no expansion costs more than buying |
| SchematicPage.DeeperIsCheaper | app/routes/planetary.py:316-332 | under that condition lowering the floor never raises the cost |
| SchematicPage.CheaperDeeperExactlyWhen | app/routes/planetary.py:316-332 | lowering the floor never raises a cost, for every type and amount, if and only if no schematic whose expansion ends costs more than its output when its inputs are taken down to just below the tier of the output |
| SchematicPage.GradedCheaperDeeperExactlyWhen | app/routes/planetary.py:316-332 | when every input sits below its output: if and only if no schematic's direct inputs cost more than its output |
| SchematicPage.CostOf | app/routes/planetary.py:329-332 | the cost is the sum of amount times price over the materials that have a price |
| SchematicPage.BuildRow | app/routes/planetary.py:317-334 | a row holds the merged expansion of the inputs of one run and its exact cost; the profit is the priced output less that cost, and the daily profit times the cycle is the profit times 86400 |
| SchematicPage.SchematicDetail | app/routes/planetary.py:258-334 | 404 exactly when no schematic has the id; otherwise one row for each floor below the tier that the group of the output gives (1042, 1034, 1040, 1041: 1 to 4), and no tier data when it gives none; among schematics with one output the last is opened |
| SchematicPage.LastOutputWins | app/routes/planetary.py:274-276 | every output is listed, with the last schematic that has it |
| SchematicPage.RowsCompare | app/routes/planetary.py:316-334 | re-expanding a higher row's materials gives the lower row's; the lower row is no dearer when inputs never cost more, and equally dear when value is preserved |
| SchematicPage.DirectExactlyWhen | app/routes/planetary.py:316-332 | a floor's row costs the direct inputs under every price list if and only if the floor opens none of them |
| SchematicPage.HighestFloorDirectExactlyWhen | app/routes/planetary.py:316-334 | the row just below the schematic's own tier costs exactly the direct inputs, whatever the prices, if and only if every input that has a schematic sits below the own tier |
| SchematicPage.HighestFloorIsDirect | app/routes/planetary.py:274-334 | when every input sits below its output, it always does for a schematic that no later one with the same output replaces |
| SchematicPage.ShadowedSchematicIsNotDirect | app/routes/planetary.py:274-276 | three schematics, two with one output: the first one's row just below its own tier costs nothing although its direct input costs something |
| MarketOrders.DispatchScrape | app/services/market_orders.py:18-30 | one job per region under one run id, in order, up to the first publish that raises |
| MarketOrders.FetchOrders | app/services/market_orders.py:36-43 | the orders of the first page and of every page it announces, page after page, and no others; raises exactly when the first request or one for an announced page failed |
| MarketOrders.PagesReadAreAll | app/services/market_orders.py:36-43 | an order is read if and only if it is on the first page or on one that the first announces |
| MarketOrders.ChunksCarryOrders | app/services/market_orders.py:45-54 | the chunks carry exactly the fetched orders, in order, if and only if the chunk size is positive or there are none |
| MarketOrders.ChunksAreCut | app/services/market_orders.py:45-54 | with a positive size the chunks are the orders cut into pieces of that size, the last one smaller if need be, under the region and run of the job |
| MarketOrders.RunFetchJob | app/services/market_orders.py:31-54 | publishes the orders of all announced pages, cut into chunks, in order, up to the first publish that raises; a failed page or a zero chunk size raises before anything is published; a negative size publishes nothing |
| MarketOrders.OrdersCollection.InsertMany | app/services/market_orders.py:72-78 | an unordered bulk insert: duplicates are skipped only under the unique index, other refusals are reported |
| MarketOrders.ApplyOrdersChunk | app/services/market_orders.py:57-80 | raises exactly on an error other than a duplicate key; raised or not, all earlier rows stay, every order that was not refused for another reason has a row in the chunk's run, and every new row is one of those orders under the chunk's region and run; under the index no order gets a second row, and without it every order of a chunk that does not raise gets one more |
| MarketOrders.InsertedRows | app/services/market_orders.py:72-78 | rows are only appended; every document has a row for its key afterwards; with the index keys stay unique |
| MarketOrders.KnownKeysIgnored | app/services/market_orders.py:72-78 | with the index, documents whose keys are present change nothing, whatever else differs |
| MarketOrders.RedeliveryIsHarmless | app/services/market_orders.py:57-80 | with the index, applying a chunk again at any later time, after any other inserts, changes nothing |
| EsiClient.GetWithRetry | app/services/esi.py:108-135 | stops at the first response other than status 420, 429, 500, 502, 503 or 504, or at the last allowed attempt; that attempt is unique (`EsiClient.StopsOnce`); at most max(1, configured) requests |
| EsiClient.GetMarketOrdersPage | app/services/esi.py:492-529 | a success is its entries and page count, a 404 an empty region, everything else is raised |
| ScrapePipeline.SafeStep | app/services/market_orders.py:18-80 | every dispatch, delivery, publish, insert, acknowledgement, crash and redelivery keeps the pipeline invariant |
| ScrapePipeline.EveryRunIsSafe | app/scripts/market_orders_fetch_worker.py:43-51 | in every reachable state: each dispatched job is queued, in hand or acknowledged; every order of an acknowledged fetch is in a waiting chunk or has a row; every row and chunk comes from a fetch of its region and run; with the index keys are unique |
| ScrapePipeline.RowsNeverChange | app/scripts/market_orders_write_worker.py:40-45 | on every run, rows once inserted stay where and as they are |
| ScrapePipeline.NoOrderLostExactlyWhen | app/services/market_orders.py:45-54 | once drained, every dispatched job has an acknowledged fetch all of whose orders have rows: on every run if and only if the chunk size is not negative |
| ScrapePipeline.NegativeSizeLosesOrders | app/services/market_orders.py:45-54 | with a negative chunk size a job is acknowledged although none of its orders was published |
| ScrapePipeline.OneRowPerOrderExactlyWhen | app/services/market_orders.py:57-80 | at most one row per order and run, on every run, if and only if the unique index exists or nothing can be published |
| ScrapePipeline.RedeliveryDuplicates | app/scripts/market_orders_write_worker.py:40-45 | without the index, a worker that dies before its acknowledgement leaves two rows for one order |
| Workers.DispatchIsRun | app/services/market_orders.py:24-28 | publishing the jobs one by one, to the end or until a publish raises, is a run of the pipeline that puts exactly those jobs into the queue |
| Workers.Dispatcher | app/services/market_orders.py:18-30 | the dispatcher is such a run and ends in a safe state: one job per region under one run id, up to the first publish that raises |
| Workers.JobIsRun | app/scripts/market_orders_fetch_worker.py:43-51 | taking, fetching, publishing and acknowledging a job is a run of the pipeline with that effect |
| Workers.InterruptedJobIsRun | app/scripts/market_orders_fetch_worker.py:43-51 | so is one whose publishing raised part-way: the job is back in its queue, the chunks sent stay |
| Workers.AppliedChunkIsRun | app/scripts/market_orders_write_worker.py:40-45 | so is applying and acknowledging a chunk |
| Workers.RefusedChunkIsRun | app/scripts/market_orders_write_worker.py:40-45 | and so is a chunk refused in part and redelivered |
| Workers.ConsumeJob | app/scripts/market_orders_fetch_worker.py:44-51 | one message: acknowledged exactly when every announced page was fetched, the chunk size is not zero and every publish was confirmed; with a positive size every order of every announced page is then in a chunk of its region and run; otherwise the job is back in its queue and the chunks sent before the exception are in theirs |
| Workers.FetchWorker | app/scripts/market_orders_fetch_worker.py:43-51 | the whole message loop, in any order of delivery, is a run of the pipeline and ends in a safe state |
| Workers.ConsumeChunk | app/scripts/market_orders_write_worker.py:41-45 | one message: acknowledged exactly when no document was refused for another reason than its key; every order of an acknowledged chunk has a row in its run |
| Workers.WriteWorker | app/scripts/market_orders_write_worker.py:40-45 | the whole message loop is a run of the pipeline, ends in a safe state and loses no row |
| SdeData.ReadTimes | app/migrations/0002_build_sde_lookup_collections.py:38-42 | the time of a blueprint is that of its last row of the activity, none when it has no row |
| SdeData.ReadMaterials | app/migrations/0002_build_sde_lookup_collections.py:44-51 | a blueprint's materials are its rows of the activity, each once, in table order |
| SdeData.ReadBlueprints | app/migrations/0002_build_sde_lookup_collections.py:53-67 | one document per product row of the activity, in table order, with the row's product and quantity, the last time and the material rows of its blueprint |
| SdeData.ReadTypes | app/migrations/0002_build_sde_lookup_collections.py:24-36 | one document per type row, field by field |
| SdeData.MaterialsListed | app/migrations/0002_build_sde_lookup_collections.py:44-51 | the collected materials are exactly the rows of blueprint and activity, by position |
| SdeData.TimeOfIsLast | app/migrations/0002_build_sde_lookup_collections.py:38-42 | and the time is that of the last such row |
| MigrationRunner.ImportTable | app/migrations/0001_import_raw_sde_tables.py:36-46 | whatever was in the table, afterwards it holds exactly the rows of the file |
| MigrationRunner.ApplyImport | app/migrations/0001_import_raw_sde_tables.py:49-75 | each table with a file and no step record ends with the rows of its file, every other as it was; exactly the tables with a file get records |
| MigrationRunner.ReplaceAll | app/migrations/0002_build_sde_lookup_collections.py:13-20 | ends with exactly the documents, and succeeds exactly when no two share an id |
| MigrationState.AddedExactlyWhen | app/migrations/0002_build_sde_lookup_collections.py:13-20 | a bulk insert goes through if and only if no id is taken, neither before nor twice in the batch, and then holds exactly the old and new ids |
| MigrationRunner.ApplyLookups | app/migrations/0002_build_sde_lookup_collections.py:23-70 | rebuilds both lookup collections from the raw tables: one document per type row, and one for each blueprint with a product row of activity 1; or raises in a state the crash model allows |
| MigrationRunner.ApplyReactions | app/migrations/0008_add_reaction_formulas_to_sde_blueprints.py:14-58 | upserts the reaction documents batch after batch, those of a batch in whatever order their concurrent updates finish, then fills activity 1 into documents without one: each blueprint with a product row of activity 11 gets the document of one of those rows, one of the last 500 that list it, and every other keeps its own |
| ReactionOrder.BatchOrderIrrelevantExactlyWhen | app/migrations/0008_add_reaction_formulas_to_sde_blueprints.py:47-54 | the order in which one batch's concurrent updates finish is irrelevant if and only if documents that share an id are equal |
| ReactionOrder.ReactionOrderIrrelevantExactlyWhen | app/migrations/0008_add_reaction_formulas_to_sde_blueprints.py:46-58 | the order of all updates of 0008 is irrelevant to what it leaves if and only if two different documents for one reaction id in a batch of 500 are always followed by one in a later batch |
| ReactionOrder.SettledByPosition | app/migrations/0008_add_reaction_formulas_to_sde_blueprints.py:46-54 | that condition is the one the batch-by-batch recursion arrives at |
| MigrationRunner.RunMigrations | app/migrations/runner.py:33-45 | applies unrecorded migrations in order and records each after it; an exception leaves a state the crash model allows. After any history of crashed runs it completes exactly when the dump lists no type twice and no blueprint twice among the products of activity 1; then tables, lookup collections and records are those of the dump, row by row |
| MigrationContents.CompletedContents | app/migrations/runner.py:33-45 | every end that completes, after any history, has exactly the contents the dump asks for |
| MigrationContents.RaisesOverDuplicates | app/migrations/runner.py:33-45 | an end that raises is one over a dump with duplicates |
| MigrationContents.ManufacturingAdded | app/migrations/0002_build_sde_lookup_collections.py:53-70 | what 0002 puts into sde_blueprints: exactly the blueprints with a product row of activity 1, each with its row, its last time and its material rows |
| MigrationContents.ReactionsAreAdded | app/migrations/0008_add_reaction_formulas_to_sde_blueprints.py:14-58 | what 0008 makes of it, in whatever order its updates finish |
| MigrationList.AnyListConverges | app/migrations/runner.py:33-45 | for any list of migrations that absorb their partial effects, also ones that may end in several ways: after any history of crashed runs the recorded ones are a prefix and only grow, a complete run does end, and it may end only as one uninterrupted run from the start might have; in all those ways when each recorded migration has one end |
| MigrationList.DyingConverges | app/migrations/runner.py:36-44 | one run that dies anywhere leaves a recorded prefix no shorter, from which completing has the ends it might have had |
| MigrationList.NothingReapplied | app/migrations/runner.py:37-39 | when every migration of the list is recorded, no run changes anything |
| MigrationListInstance.ModelledMigrationsAbsorb | app/migrations/runner.py:33-45 | 0001, 0002 and 0008, with its updates finishing in any order, meet that condition from an empty database on; 0001 and 0002 have one end each |
| ReactionOrder.UpsertAbsorbs | app/migrations/0008_add_reaction_formulas_to_sde_blueprints.py:47-54 | upserting again, in any order, over any part of the same upserts ends as that order would have ended the first time |
| ReactionOrder.FillAbsorbs | app/migrations/0008_add_reaction_formulas_to_sde_blueprints.py:47-58 | and so does the whole of 0008 over upserts in one order and any part of its fill |
| MigrationConvergence.ImportMigration | app/migrations/0001_import_raw_sde_tables.py:49-75 | however 0001 dies, every recorded table holds its file's rows; when it completes all do |
| MigrationConvergence.LookupMigration | app/migrations/0002_build_sde_lookup_collections.py:23-70 | however 0002 dies the invariant holds; it completes exactly when the dump lists no type twice and no blueprint's manufacturing product twice |
| MigrationConvergence.ReactionsAbsorb | app/migrations/0008_add_reaction_formulas_to_sde_blueprints.py:46-58 | wherever 0008 dies or ends, whatever order its updates took until then, running it again in any order has the effect that order would have had the first time |
| MigrationConvergence.ReactionsMigration | app/migrations/0008_add_reaction_formulas_to_sde_blueprints.py:14-58 | 0008 keeps the invariant, crashed or complete, and completes in the closed form for the order of its updates |
| MigrationConvergence.HistoryInv | app/migrations/runner.py:33-45 | the invariant holds after any history of runs that died anywhere, with updates finishing in any order |
| MigrationConvergence.CrashConvergence | app/migrations/runner.py:33-45 | after any such history the possible ends of a complete run are exactly those of one uninterrupted run on an empty database, until 0008 is recorded; then the only end is what is there, which is one of them. There is always an end, and it is an exception exactly when the dump lists a type twice or a blueprint's manufacturing product twice |
| MigrationConvergence.OneEndExactlyWhen | app/migrations/runner.py:33-45 | until 0008 is recorded there is exactly one end if and only if the dump has such duplicates or different documents for one reaction id in a batch of 500 are always followed by one in a later batch |
| MigrationConvergence.TwoProductsTwoEnds | app/migrations/0008_add_reaction_formulas_to_sde_blueprints.py:47-54 | a dump that gives one reaction two products: nothing raises, and two ends are possible from an empty database, one with each product |
| MigrationConvergence.RepeatedTypeNeverCompletes | app/migrations/0002_build_sde_lookup_collections.py:69 | a dump that lists one type twice: no run ever completes |
| MigrationConvergence.RecordedPrefix | app/migrations/runner.py:36-44 | the recorded ones of the three modelled migrations are always a prefix of their sorted list |
| MigrationConvergence.RecordedNeverReapplied | app/migrations/runner.py:37-39 | records only grow; imported tables, built lookups and a fully migrated database are left alone by every later run |
| IndexConfig.CheckFile | app/db/index_sync.py:22-35 | accepts exactly the files in which no spec lacks a name or keys or repeats an earlier name |
| IndexConfig.LoadIndexConfigs | app/db/index_sync.py:15-38 | succeeds exactly when every file is accepted; then there is one list for each collection, in the order of first mention, with the specs of all its files, file after file |
| IndexConfig.ExtendAt | app/db/index_sync.py:37 | extending one collection's list leaves the others and keeps one list per collection |
| IndexReconciler.SyncOneSpec | app/db/index_sync.py:56-72 | one spec: nothing if its record has it, else the index gets exactly its keys, unique, sparse and expireAfterSeconds and the record holds it; unless the server refuses the index, as there under another name or for reasons of its own; then it stays dropped and its record as it was. No other index or record changes |
| IndexReconciler.DropStale | app/db/index_sync.py:74-83 | records no longer configured go with their indexes, in any order |
| IndexReconciler.SyncIndexes | app/db/index_sync.py:50-83 | the whole sync; a configuration error, that is a spec without name or keys or with a repeated name, changes nothing; it gets through exactly when no entry is refused at its turn, and a refused index ends it where a crash after the drop would. When it gets through, each record holds the last spec configured under its id and there are no others; from trusted records the indexes are then as configured too, field by field |
| IndexRefusal.CompletesExactlyWhen | app/db/index_sync.py:60-72 | a sync gets through if and only if no entry that is not done is refused at its turn: for the server's own reasons, over an earlier entry that is the same index under another name, or over such an index that was there and that no earlier entry replaces |
| IndexRefusal.TakenIsElsewhere | app/db/index_sync.py:66-67 | an index is taken exactly when the collection has, under another name, the same keys, and unique and sparse alike |
| IndexRefusal.RefusalIsCrash | app/db/index_sync.py:65-72 | a refusal leaves what a crash may leave, so the convergence results hold after refusals too |
| IndexRefusal.RenameNeverCompletes | app/db/index_sync.py:60-83 | an index renamed in the configuration, its keys and options kept: no sync ever gets through, however often it is tried, because the old index goes only after the loop |
| IndexSync.CompleteSyncReaches | app/db/index_sync.py:50-83 | records are exactly the configured ones, each configured index has the keys and options of its spec, the indexes of records no longer configured are gone, all others are untouched |
| IndexSync.LastSpecWins | app/db/index_sync.py:55-72 | whatever the database held, of several specs under one record id the last is the one recorded |
| IndexSync.ReachedIsAsConfigured | app/db/index_sync.py:50-83 | the closed form says that, field by field, whatever the database was |
| IndexSync.ReachedOnce | app/db/index_sync.py:50-83 | at most one database state meets that description |
| IndexSync.CrashTrusted | app/db/index_sync.py:65-83 | wherever a sync dies, an index recorded as done is done and the same end is still to reach |
| IndexSync.SyncConverges | app/db/index_sync.py:50-83 | after any history of crashed syncs to one configuration a complete sync ends where it would have ended without them, and there every index and record is as configured, field by field |
| IndexSync.SyncedIsSound | app/db/index_sync.py:50-83 | a complete sync leaves every record matching a real index, ready for the next configuration |
| IndexSync.QuietWritesNothing | app/db/index_sync.py:60-76 | a sync with nothing to do writes nothing, even if it dies half-way |
| IndexSync.IdempotentExactlyWhen | app/db/index_sync.py:60-72 | from any database, a second sync finds nothing to do if and only if specs under one record id agree, across files too |
| IndexSync.NoDotsNoCollision | app/db/index_sync.py:57 | record ids of collections without a dot in their names are unambiguous |
| IndexSync.DotFreeIsUnambiguous | app/db/index_sync.py:57 | so with dot-free collection names the convergence theorem needs no further assumption on ids |
| IndexSync.ReachedExactlyWhen | app/db/index_sync.py:50-83 | from well-kept records a complete sync reaches an unambiguous configuration if and only if every entry recorded as done is done |
| IndexSync.CrashPoints | app/db/index_sync.py:60-83 | the ways a sync can die: between specs, after dropping or creating one index, or with some stale indexes dropped and some of their records gone |
| IndexSync.RepairedExactlyWhen | app/db/index_sync.py:60-83 | a crashed sync to one configuration is repaired by a complete sync to another if and only if that one asks for no index, as recorded before, that the crash had in hand; unless it had just been created alike |
| IndexSync.TakenBackExactlyWhen | app/db/index_sync.py:60-83 | the same when the change is taken back to the configuration that was in place |
| IndexSync.RevertedConfigStaysBroken | app/db/index_sync.py:60-72 | for example a crash between drop and create, after which the change is taken back, leaves the index missing for good |
| Containers.ResolveContainerChain | app/services/locations.py:11-24 | terminates; follows assets whose location_type is item to where the path leaves the assets, sits in no other item, or meets an item again; returns the recursive root of a chain that leaves the containers, and the cycle's entry of one that never does |
| Containers.ComesOutOnce | app/services/locations.py:11-24 | from every location there is such a path, and all end at one place |
| Containers.MeetsItself | app/services/locations.py:18 | the first location met twice is where the chain enters its cycle, and such a chain never ends |
| Containers.RootIsWhereItLeaves | app/services/locations.py:18-23 | the iterative and the recursive reading of a chain agree |
| AssetTotals.GroupsAddUp | app/routes/assets.py:131-140 | grouping assets by any key loses and repeats nothing: the groups add up to the whole |
| AssetTotals.ItemPageTotal | app/routes/assets.py:267-293 | an item page's locations add up to everything owned of the type |
| AssetTotals.LocationPageTotal | app/routes/assets.py:363-399 | a location page's types add up to everything kept there |
| AssetTotals.PagesAddUp | app/routes/assets.py:211 | all item pages together and all location pages together both add up to the overview's grand total |
| AssetTotals.ItemDetail | app/routes/assets.py:267-293 | 404 exactly when no asset is of the type; otherwise exactly the places where the walk from one of its assets comes out, each with the quantities of those assets, and their total |
| AssetTotals.LocationDetail | app/routes/assets.py:363-399 | 404 exactly when no asset's walk comes out there; otherwise exactly the types of those that do, each with their quantities, and the total |
| AssetTotals.ItemPageIs | app/routes/assets.py:272-277 | the grouped sums are the sums over positions of the assets that walks bring to a place |
| AssetTotals.LocationPageIs | app/routes/assets.py:363-388 | and so are those of the location page |
| AssetTotals.ByItemIdIsLast | app/routes/assets.py:198 | each item id stands for the last asset that has it |
| AssetTotals.CategoryRows | app/routes/assets.py:131-140 | per wanted type: everything owned of it and the set of its resolved locations |
| AssetTotals.OverviewCategory | app/routes/assets.py:131-140 | exactly the wanted types that are owned; each quantity is what its item page adds up to, the quantities of all its assets; its places are where the last copies of their ids come out |
| AssetTotals.OverviewTotals | app/routes/assets.py:198-218 | the headline total is the sum of all quantities and of all item pages; the headline count is that of the places where last copies come out, never too high, and right if and only if every place holds a current copy of some item id |
| AssetTotals.OwnPlaceExactlyWhen | app/routes/assets.py:198-202 | the overview counts every asset at its own place if and only if no item id occurs at two places |
| AssetTotals.OnePlacePerIdAgrees | app/routes/assets.py:131-140 | then, as with unique item ids (`AssetTotals.UniqueIdsOnePlace`), it counts for each type exactly the locations the item page lists |
| AssetTotals.PageAgreesExactlyWhen | app/routes/assets.py:131-140 | while copies of an item id are of one type, the overview counts no location the item page does not list, and all of them if and only if each holds a current copy of the type |
| AssetTotals.DuplicateIdsDisagree | app/routes/assets.py:198-202 | for example one item id at two places: the item page lists both, the overview counts one |
| TieredLookup.DecimalInjective | app/services/sde.py:10-11 | distinct ids, negative ones included, print differently |
| TieredLookup.CacheKeyInjective | app/services/sde.py:10-11 | two lookups share a cache key only when they share prefix and id, whatever characters the prefixes contain |
| TieredLookup.CacheKeyReads | app/services/sde.py:10-11 | the key is the prefix, a colon and the id in decimal digits without leading zeros, after a minus sign if it is negative |
| TieredLookup.Stores.GetManyCached | app/services/cache.py:13-28 | a missing client and a Redis error read as an empty cache |
| TieredLookup.Stores.SetManyCached | app/services/cache.py:31-41 | exactly the SETs that took effect are in Redis, and no error is reported |
| TieredLookup.Stores.CachedDocsById | app/services/sde.py:14-38 | Redis first, Mongo for the rest, Mongo's values written back where their SET takes effect, nothing else changed |
| TieredLookup.Stores.StoreReply | app/services/locations.py:71-87 | only a reply that resolved is stored, in Mongo and in Redis |
| TieredLookup.Stores.ResolveTiered | app/services/locations.py:33-210 | every requested id is answered from Redis, else Mongo, else ESI, which is asked for exactly the ids the stores lack; raises exactly when such a request raised; raised or not, the replies that are not null are in Mongo, and in Redis where their SET takes effect, and nothing else changed |
| TieredLookup.AnswersByTier | app/services/locations.py:33-210 | the answer is what Redis has if it was readable, else what Mongo has unless a filtering lookup finds null there, else ESI's |
| TieredLookup.SettledIsLeft | app/services/locations.py:33-210 | what a call leaves in Mongo and Redis, entry by entry and key by key |
| TieredLookup.LookupAgrees | app/services/locations.py:33-210 | with stores in agreement, whichever Redis calls fail, an id gets the source's value if and only if a readable store holds it or ESI gave that value; stored nulls that a lookup filters out may say anything |
| TieredLookup.KnownAnswersAgree | app/services/locations.py:33-210 | with nothing but the known stored values in agreement, no resolved value is wrong |
| TieredLookup.AgreementKept | app/services/locations.py:33-210 | every call keeps the agreement, of all stored values or of the known ones, under all prefixes, also a call that raised half-way |
| TieredLookup.FailuresNotStored | app/services/locations.py:57-88 | a failed lookup is stored nowhere: an unresolved value after a call was in Mongo before, unchanged, and in Redis before, or copied from Mongo by a lookup that does not filter |
| TieredLookup.StoredNullIsReplaced | app/services/locations.py:52-88 | a stored null name is asked of ESI again by a lookup that filters, and a resolved reply replaces it for the rest of the session |
| TieredLookup.NoSessionAnswersWrong | app/services/locations.py:33-210 | through any sequence of lookups under any prefixes, with Redis failing or dropping entries at will and ESI failing at will, no resolved value is ever wrong; only the resolved values stored at the start need be right |
| TieredLookup.AskedOnce | app/services/locations.py:33-210 | in such a session, what came from Mongo or was learned from ESI is never asked of ESI again: every later lookup finds the source's value in the stores |
| TieredLookup.DocsAreTheCollections | app/services/sde.py:14-38 | with a cache that agrees with the collection, the result is the collection's documents for the requested ids, whichever Redis calls fail |
| TieredLookup.ResolveLocationInfo | app/services/locations.py:213-234 | each location gets its own name and its own system's status when ESI answers; when ESI fails at will and only the resolved stored values are right, a named location still gets nothing wrong |

## Left out

- `math.ceil(quantity / product_quantity)` divides floats; the model uses the exact integer ceiling, so it does not capture rounding for quotients beyond 2^53.
- Planetary quantities and prices are exact reals; float rounding is not modelled.
- StepDistance.ByDistanceExactlyWhen: about steps without a cycle; when the steps have one, which never happens within the depth limit, their order by distance is not characterised.
- Names, unit prices, raw material cost, output value and the sorting of raw materials in a resolution: one lookup or product each.
- Blueprint lookups are a fixed partial function with positive quantities; a database that changes during a resolution is not modelled.
- HTML, formatting, navigation, query strings, sorting of page rows, volumes and values on the asset pages.
- Name searches and JSON decoding of ESI payloads.
- ScrapePipeline.EveryRunIsSafe: acknowledgements that the broker loses appear as redeliveries; message encoding and prefetch limits are not modelled.
- MarketOrders.OrdersCollection.InsertMany: an unordered insert is taken in document order; the state machine allows every order.
- EsiClient.GetWithRetry: sleeps between attempts and the error-limit pause are not modelled, nor is the other use of the function for region ids.
- MigrationConvergence.RecordedPrefix: about migrations 0001, 0002 and 0008. What 0003 to 0007 (volumes, categories, planet schematics), 0009 and 0010 do is not modelled; `MigrationList.AnyListConverges` holds of the whole list as far as they absorb their partial effects.
- MigrationRunner.RunMigrations: about the same three migrations.
- The duplicate-key error that two concurrent upserts of one new id may raise: the server is taken to retry it.
- A recursion of the schematic page that does not end (`SchematicPage.ExpandToTier` requires that it ends).
- Several runners at once: the runner assumes it is alone.
- The file order of the SDE dump and Mongo's natural order are taken to be the order of insertion.
- Indexes that Mongo creates by itself and options other than unique, sparse and expireAfterSeconds.
- TieredLookup.Stores.ResolveTiered: concurrent lookups, a Redis entry expiring in the middle of a call, timestamps in the stored documents, cache metrics and a Mongo write that raises are not modelled.
- The delete-and-refill cache of character data (app/services/esi_cache.py), sign-in, token refresh and jobs.
