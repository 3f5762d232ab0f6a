# Replay and persistence helpers of cointrader, in Dafny

This project models two classes of the cointrader trading platform.

`Replay` replays stored market data (trades and order books) into an event-processing context. It works like this:

- It resolves a replay interval from the stored data or from the caller.
- It cuts a long interval into 28-day windows and queues one step per window on a single-thread executor.
- Each step fetches the window's trades and books, merges them by a stable sort on the effective timestamp, publishes them in order, and then advances the context clock to the window's end.

`PersistUtil` supplies the database helpers these steps rest on:

- positional parameter binding;
- a cursor-paged visitor over a result list;
- the single-result and zero-or-one rules;
- the life-cycle of the process-wide entity manager factory.

Instants are integer milliseconds. A stored event is a `RemoteEvent` with an occurrence time `time` and a receipt time `timeReceived`. The flag `orderByTimeReceived` (`recv` in the proofs) chooses which of the two is the *effective timestamp*, used both to filter and to sort. The database is two sequences, trades and books. The context is an object with a clock and a ghost log (`trace`) of the `publish` and `advanceTime` calls made on it.

Modules:

- `Events`: the event type, the two comparators, the ordering column and `EventTimeManager.nextTime`.
- `Store`: the closed-interval filter and the `min` and `max` queries.
- `Ranges`: `getEventsStart` and `getEventsEnd`, and the `all`/`since`/`until`/`between` factories.
- `Windows`: the window plan of `run`.
- `Ordering`: stable sorting, including the in-place sort of `queryEvents`.
- `Runtime`: the context.
- `ReplayEngine`: `queryEvents`, `replayStep`, `run`, the executor queue and `ReplayStepRunnable`.
- `PersistUtil`: the helpers above.
- `Wrappers`: `Option` and `Result`.

Four behaviours of the code are modelled as written, and proved as lemmas:

- **The window loop does not clamp.** The loop runs while the window start is not after `end`. So the last window always ends after `end`, and a window starting exactly at `end` is added when the interval length is a multiple of 28 days (`Windows.PlanWindowsBounds`).
- **Events after the interval end are replayed.** Because the last window runs past `end`, a long replay publishes exactly the stored events between the interval start and the end of the last window, including those after `end` (`ReplayEngine.RunGuarantees`). For example, an interval of 28 days plus one millisecond gets a second window that ends at 56 days, so a trade at 56 days is published (`ReplayEngine.RunPublishesPastEnd`).
- **An empty store still gives a replay.** With no stored events, `all()` builds `new Interval(null, null)`, which Joda reads as "now to now". Running it then replays one inline step that publishes nothing and advances the clock to now (`ReplayEngine.EmptyStoreReplay`).
- **Boundary events are published twice.** The fetch is closed at both ends. So a stored event whose timestamp is exactly the boundary between two windows is fetched and published by both, so twice for each stored copy (`ReplayEngine.BoundaryEventReplayedTwice`). Every other event of the run's span is published exactly as often as it is stored (`ReplayEngine.RunGuarantees`). The comment at Replay.java:141 speaks of exclusive range ends, but no query uses them.

## Model

| member | source | states |
|---|---|---|
| Events.TimeFieldForOrdering | src/main/java/org/cryptocoinpartners/util/Replay.java:153-155 | the column is "timeReceived" exactly when ordering by receipt time, and otherwise "time"; either way it is one of the two timestamp columns |
| Events.ColumnOfOrderingField | src/main/java/org/cryptocoinpartners/util/Replay.java:116-118 | the column the queries filter on holds exactly the effective timestamp of the ordering mode |
| Events.CompareInstants | src/main/java/org/cryptocoinpartners/util/Replay.java:160 | `Instant.compareTo` is negative, zero or positive exactly when the first instant is before, equal to or after the second |
| Events.TimeReceivedCompare | src/main/java/org/cryptocoinpartners/util/Replay.java:157-162 | the sign of the comparison is the order of the two receipt times, in all three directions |
| Events.TimeHappenedCompare | src/main/java/org/cryptocoinpartners/util/Replay.java:164-169 | the sign of the comparison is the order of the two occurrence times, in all three directions |
| Events.ComparatorMatchesEffectiveTime | src/main/java/org/cryptocoinpartners/util/Replay.java:122 | the comparator selected at line 122 says "not after" or "equal" exactly when the effective timestamps are so ordered, and it is antisymmetric |
| Events.NextTime | src/main/java/org/cryptocoinpartners/util/Replay.java:177-184 | `nextTime` gives the receipt time only for a remote event when ordering by receipt time; it is the effective timestamp for remote events and the occurrence time for all other events |
| Store.Select | src/main/java/org/cryptocoinpartners/util/Replay.java:117-121 | the `field >= ?1 and field <= ?2` query returns exactly the rows whose column lies in the closed interval, and no more rows than the table holds |
| Store.SelectCounts | src/main/java/org/cryptocoinpartners/util/Replay.java:117-121 | each in-range row is returned as often as the table holds it; out-of-range rows are never returned |
| Store.MinOf | src/main/java/org/cryptocoinpartners/util/Replay.java:128-129 | `select min(field)` is null exactly on an empty table; otherwise it is a stored value no larger than any other |
| Store.MaxOf | src/main/java/org/cryptocoinpartners/util/Replay.java:142-143 | `select max(field)` is null exactly on an empty table; otherwise it is a stored value no smaller than any other |
| Ranges.EarlierOf | src/main/java/org/cryptocoinpartners/util/Replay.java:130-136 | null exactly when both minimums are null; otherwise one of the non-null inputs, and no later than either |
| Ranges.LaterOf | src/main/java/org/cryptocoinpartners/util/Replay.java:144-150 | null exactly when both maximums are null; otherwise one of the non-null inputs, and no earlier than either |
| Ranges.GetEventsStart | src/main/java/org/cryptocoinpartners/util/Replay.java:126-137 | null exactly when both tables are empty; otherwise the effective timestamp of some stored trade or book, and no later than any other |
| Ranges.GetEventsEnd | src/main/java/org/cryptocoinpartners/util/Replay.java:139-151 | null exactly when both tables are empty; otherwise the effective timestamp of some stored trade or book, and no earlier than any other |
| Ranges.MakeInterval | src/main/java/org/cryptocoinpartners/util/Replay.java:29 | an interval is built exactly when its ends, with null read as now, are in order; its ends are those instants |
| Ranges.All | src/main/java/org/cryptocoinpartners/util/Replay.java:28-30 | always an interval; on a non-empty store it runs from the earliest to the latest stored effective timestamp (both attained, and every stored timestamp lies between them); on an empty store it is now-to-now |
| Ranges.Since | src/main/java/org/cryptocoinpartners/util/Replay.java:32-34 | starts at the given instant and ends at the latest stored timestamp (attained, and no later stored timestamp exists), or at now on an empty store; it fails exactly when every stored timestamp precedes the start, or the store is empty and the start is in the future |
| Ranges.Until | src/main/java/org/cryptocoinpartners/util/Replay.java:36-38 | ends at the given instant and starts at the earliest stored timestamp (attained, and no earlier stored timestamp exists), or at now on an empty store; it fails exactly when every stored timestamp follows the end, or the store is empty and the end is in the past |
| Ranges.Between | src/main/java/org/cryptocoinpartners/util/Replay.java:40-46 | the given interval, refused exactly when its end precedes its start |
| Windows.PlanWindows | src/main/java/org/cryptocoinpartners/util/Replay.java:70-75 | the loop plans at least one window exactly when its start is not after the end |
| Windows.PlanWindowsShape | src/main/java/org/cryptocoinpartners/util/Replay.java:70-75 | window i is [start + i*step, start + (i+1)*step], and there are (end-start)/step + 1 windows |
| Windows.PlanWindowsChain | src/main/java/org/cryptocoinpartners/util/Replay.java:70-75 | the planned windows are contiguous and start at the interval start; every window starts no later than the end, and the last ends after it |
| Windows.PlanWindowsLast | src/main/java/org/cryptocoinpartners/util/Replay.java:70-75 | the last planned window starts exactly at the end when the interval length is a multiple of the step, and only then |
| Windows.PlanWindowsBounds | src/main/java/org/cryptocoinpartners/util/Replay.java:70-75 | the windows are contiguous (each `stepEnd` is the next `now`) and start at the interval start; every window starts no later than the end; the last ends after the end; the last starts at the end exactly when the length is a multiple of the step |
| Windows.PlanWindowsCover | src/main/java/org/cryptocoinpartners/util/Replay.java:70-75 | every instant of the interval lies in some planned window |
| Windows.RunWindows | src/main/java/org/cryptocoinpartners/util/Replay.java:69-77 | `run` always replays at least one window: the 28-day plan for a longer interval, else the interval itself |
| Windows.ChainCovers | src/main/java/org/cryptocoinpartners/util/Replay.java:70-75 | contiguous windows cover every instant from the first window's start to the last window's end |
| Windows.RunWindowsChain | src/main/java/org/cryptocoinpartners/util/Replay.java:69-77 | the windows `run` replays are contiguous and start at the interval start |
| Windows.CountInBelow | src/main/java/org/cryptocoinpartners/util/Replay.java:70-75 | no window of a contiguous plan contains an instant before its start |
| Windows.CountInOnce | src/main/java/org/cryptocoinpartners/util/Replay.java:70-75 | an instant of the plan's span that is not the end of an inner window lies in exactly one window |
| Windows.CountInBoundary | src/main/java/org/cryptocoinpartners/util/Replay.java:70-75 | with windows longer than an instant, the end of an inner window lies in exactly two windows |
| Windows.PlanWindowsProper | src/main/java/org/cryptocoinpartners/util/Replay.java:70-75 | every planned window is one step long, so longer than an instant |
| Windows.RunWindowsProper | src/main/java/org/cryptocoinpartners/util/Replay.java:69-77 | the replayed windows are longer than an instant unless the interval is a single instant, in which case there is one window |
| Windows.RunWindowsCover | src/main/java/org/cryptocoinpartners/util/Replay.java:69-77 | the windows `run` replays are contiguous, start at the interval start and cover every instant of the interval |
| Ordering.Insert | src/main/java/org/cryptocoinpartners/util/Replay.java:122 | inserting grows the sequence by one; the result holds the inserted element and every element of the input, and nothing else |
| Ordering.InsertCounts | src/main/java/org/cryptocoinpartners/util/Replay.java:122 | inserting adds exactly one occurrence of the inserted element and keeps every other occurrence: the result is a permutation of the input plus that element |
| Ordering.InsertSorted | src/main/java/org/cryptocoinpartners/util/Replay.java:122 | inserting into a sorted sequence keeps it sorted |
| Ordering.InsertClasses | src/main/java/org/cryptocoinpartners/util/Replay.java:122 | the inserted element lands last in its timestamp class; every other class is unchanged |
| Ordering.StableSortCorrect | src/main/java/org/cryptocoinpartners/util/Replay.java:122 | the reference stable sort is sorted by effective timestamp and keeps the input order within each timestamp class |
| Ordering.SameKeyOrderIsPermutation | src/main/java/org/cryptocoinpartners/util/Replay.java:122 | a reordering that keeps every timestamp class in order is a permutation |
| Ordering.SortedUnique | src/main/java/org/cryptocoinpartners/util/Replay.java:122 | two sorted sequences with the same timestamp classes are equal, so a stable sort has exactly one result |
| Ordering.SwapKeepsKeyOrder | src/main/java/org/cryptocoinpartners/util/Replay.java:122 | swapping two neighbours with different timestamps keeps every timestamp class in order |
| Ordering.SinkLeft | src/main/java/org/cryptocoinpartners/util/Replay.java:122 | moving one element left past the strictly later ones extends the sorted prefix by one and keeps every class in order; the new prefix is the stable insertion of the old element into the old prefix, and the rest of the array is unchanged |
| Ordering.SinkLeftInserts | src/main/java/org/cryptocoinpartners/util/Replay.java:122 | a sorted prefix that keeps every class of the old one, over an unchanged rest, is the stable insertion of the old element, so sinking is one insertion step |
| Ordering.SortInPlace | src/main/java/org/cryptocoinpartners/util/Replay.java:122 | `Collections.sort` on the list leaves it sorted by effective timestamp, stable, and equal to the reference stable sort of the old contents |
| ReplayEngine.Fetched | src/main/java/org/cryptocoinpartners/util/Replay.java:119-121 | the trades then the books collected before sorting are exactly the stored events whose effective timestamp lies in [start, stop] |
| ReplayEngine.MergedEventsCorrect | src/main/java/org/cryptocoinpartners/util/Replay.java:115-124 | the `queryEvents` result is sorted, is a permutation of trades-in-range ++ books-in-range, keeps their order within each timestamp, and holds exactly the stored events in [start, stop] |
| ReplayEngine.TradesBeforeBooksOnTies | src/main/java/org/cryptocoinpartners/util/Replay.java:120-122 | among events with one timestamp, the fetched trades come before the fetched books, each in fetch order |
| ReplayEngine.ReplayTraceSingle | src/main/java/org/cryptocoinpartners/util/Replay.java:76-77 | replaying one window makes exactly that window's calls, as the inline `replayStep(start, end)` does |
| ReplayEngine.StepTraceShape | src/main/java/org/cryptocoinpartners/util/Replay.java:106-113 | a step publishes every fetched event in order, then makes exactly one `advanceTime`, to the window end, even when nothing was fetched |
| ReplayEngine.PublishesShape | src/main/java/org/cryptocoinpartners/util/Replay.java:108-111 | the publish loop publishes exactly the fetched events, in order, and advances nothing |
| ReplayEngine.StepsTraceShape | src/main/java/org/cryptocoinpartners/util/Replay.java:94-102 | running steps in queue order publishes the batches in order and advances the clock once per step, to the steps' ends |
| ReplayEngine.ConcatSorted | src/main/java/org/cryptocoinpartners/util/Replay.java:66-75 | sorted batches from contiguous windows, run one after another, publish a sorted stream |
| ReplayEngine.RunReplaysAll | src/main/java/org/cryptocoinpartners/util/Replay.java:63-124 | every stored event whose effective timestamp lies between the interval start and the end of the last planned window is fetched by some window `run` plans |
| ReplayEngine.ConcatMember | src/main/java/org/cryptocoinpartners/util/Replay.java:94-102 | an event published by a series of steps was fetched by one of them, and the lemma names which |
| ReplayEngine.RunReplaysOnly | src/main/java/org/cryptocoinpartners/util/Replay.java:63-124 | every event a run replays is a stored trade or book whose effective timestamp lies between the interval start and the end of the last planned window |
| ReplayEngine.ReplayedWithinChain | src/main/java/org/cryptocoinpartners/util/Replay.java:94-124 | an event replayed over contiguous windows is a stored trade or book lying within the windows' span |
| ReplayEngine.RunReplaysExactly | src/main/java/org/cryptocoinpartners/util/Replay.java:63-124 | a run replays a stored event exactly when its effective timestamp lies between the interval start and the end of the last planned window |
| ReplayEngine.RunReplaysSorted | src/main/java/org/cryptocoinpartners/util/Replay.java:63-124 | the events of the planned windows, replayed one window after another, form one stream sorted by effective timestamp |
| ReplayEngine.RunWindowsReachEnd | src/main/java/org/cryptocoinpartners/util/Replay.java:69-77 | the last window `run` replays ends no earlier than the interval end |
| ReplayEngine.RunGuarantees | src/main/java/org/cryptocoinpartners/util/Replay.java:63-124 | a whole replay publishes a stored event exactly when its effective timestamp lies between the interval start and the end of the last window (so every event of the interval, and also those up to the last window's end), in sorted order; each event is published once per window containing its timestamp for each stored copy, so exactly as often as it is stored unless its timestamp is the end of an inner window; it advances the clock once per window, to the window ends, non-decreasingly, each advance equal to the next window's start, and the last one not before the interval end |
| ReplayEngine.RunPublishesPastEnd | src/main/java/org/cryptocoinpartners/util/Replay.java:69-75 | with an interval of one step plus one millisecond, a stored trade two steps after the start, so after the interval end, is published |
| ReplayEngine.BoundaryEventReplayedTwice | src/main/java/org/cryptocoinpartners/util/Replay.java:70-75 | a stored event exactly on the boundary between two planned windows is published exactly twice for each stored copy, so at least twice |
| ReplayEngine.BoundaryCount | src/main/java/org/cryptocoinpartners/util/Replay.java:66-75 | over contiguous windows longer than an instant, an event stored on the end of an inner window is replayed exactly twice per stored copy |
| ReplayEngine.MergedCount | src/main/java/org/cryptocoinpartners/util/Replay.java:115-124 | a window's `queryEvents` result holds an event as often as the two tables do when the window contains its timestamp, and not at all otherwise |
| ReplayEngine.ConcatCounts | src/main/java/org/cryptocoinpartners/util/Replay.java:94-102 | steps run one after another publish an event once per window containing its timestamp, times the count each such window holds |
| ReplayEngine.ReplayedCounts | src/main/java/org/cryptocoinpartners/util/Replay.java:66-124 | replaying windows publishes each event (number of windows containing its timestamp) times (number of stored copies) times |
| ReplayEngine.RunReplaysCounts | src/main/java/org/cryptocoinpartners/util/Replay.java:63-124 | a run publishes each event once per containing window and stored copy; an event within the span and off every inner window end is published exactly as often as it is stored |
| ReplayEngine.EmptyStoreReplay | src/main/java/org/cryptocoinpartners/util/Replay.java:28-30 | with nothing stored, `all()` is now-to-now, `run` replays the single window [now, now], and the context receives exactly one `advanceTime(now)` and no publish |
| ReplayEngine.ReplayTraceStep | src/main/java/org/cryptocoinpartners/util/Replay.java:66 | running the oldest queued step moves exactly that step's calls from the still-to-do part of the replay into the context log |
| ReplayEngine.Replay.constructor | src/main/java/org/cryptocoinpartners/util/Replay.java:48-52 | a fresh context whose clock is the interval start (`getInitialTime`, lines 173-175), an empty log and an empty queue |
| ReplayEngine.Replay.QueryEvents | src/main/java/org/cryptocoinpartners/util/Replay.java:115-124 | the list built from both queries and sorted in place equals the stable sort of trades-in-range ++ books-in-range |
| ReplayEngine.Replay.ReplayStep | src/main/java/org/cryptocoinpartners/util/Replay.java:106-113 | the context log grows by the window's events published in order, then one `advanceTime(stop)`; the clock ends at stop |
| ReplayEngine.Replay.Run | src/main/java/org/cryptocoinpartners/util/Replay.java:63-78 | a long interval queues one step per planned window, in plan order, and touches nothing in the context; a short one queues nothing and replays the whole interval inline |
| ReplayEngine.Replay.Submit | src/main/java/org/cryptocoinpartners/util/Replay.java:66-75 | a fresh queue receives one new step per planned window, in plan order; the context is not touched |
| ReplayEngine.Replay.RunNext | src/main/java/org/cryptocoinpartners/util/Replay.java:66 | the single worker takes the oldest queued step off the queue and runs it to completion |
| ReplayEngine.Replay.DrainService | src/main/java/org/cryptocoinpartners/util/Replay.java:66 | draining the queue makes the context log grow by every queued step's calls, oldest first; the clock ends at the last step's end |
| ReplayEngine.Replay.RunAndDrain | src/main/java/org/cryptocoinpartners/util/Replay.java:63-78 | `run` followed by the executor finishing gives the context the calls of replaying the planned windows in order, whichever branch `run` took |
| ReplayEngine.ReplayStepRunnable.constructor | src/main/java/org/cryptocoinpartners/util/Replay.java:86-91 | a step holds the window's start and stop and the replay whose context it feeds |
| ReplayEngine.ReplayStepRunnable.Run | src/main/java/org/cryptocoinpartners/util/Replay.java:93-102 | a queued step makes the same calls on the replay's context as `replayStep(start, stop)` |
| Runtime.Context.Create | src/main/java/org/cryptocoinpartners/util/Replay.java:50 | a new context has an empty log and its clock at the initial time it is given |
| Runtime.Context.Publish | src/main/java/org/cryptocoinpartners/util/Replay.java:110 | one publish is logged; by assumption of this model the clock is left alone (see Left out) |
| Runtime.Context.AdvanceTime | src/main/java/org/cryptocoinpartners/util/Replay.java:112 | one advance is logged and the clock is set to the instant |
| Runtime.PublishedAppend | src/main/java/org/cryptocoinpartners/util/Replay.java:108-112 | the events published by two runs in a row are those of the first, then those of the second |
| Runtime.AdvancesAppend | src/main/java/org/cryptocoinpartners/util/Replay.java:108-112 | the clock advances of two runs in a row are those of the first, then those of the second |
| PersistUtil.BindParameters | src/main/java/org/cryptocoinpartners/util/PersistUtil.java:83-88 | parameter i is bound at position i + 1, for every i below the parameter count, and no other position is bound; a null array binds nothing |
| PersistUtil.Page | src/main/java/org/cryptocoinpartners/util/PersistUtil.java:89-92 | a page holds at most `batchSize` rows, those at the cursor position onwards in result order; it is empty exactly when the cursor is past the end; it is full when enough rows remain |
| PersistUtil.VisitDetermined | src/main/java/org/cryptocoinpartners/util/PersistUtil.java:123-131 | a visited prefix that was accepted all along and ends at the result's end or at a rejection is the one visit of the result, whatever the paging |
| PersistUtil.VisitPage | src/main/java/org/cryptocoinpartners/util/PersistUtil.java:128-131 | the rows of one page are handed over in order, and the loop stops right after the first rejected row |
| PersistUtil.QueryEach | src/main/java/org/cryptocoinpartners/util/PersistUtil.java:111-137 | pages are read at cursors 0, batchSize, 2*batchSize, …; every page but the last is non-empty; without a rejection the last page is past the end and every row was visited; with one, visiting stops right after the first rejected row, which lies in the last page; the rows seen are a prefix of the result, in order, and do not depend on the batch size |
| PersistUtil.Columns | src/main/java/org/cryptocoinpartners/util/PersistUtil.java:96-97 | an array row reaches the visitor as is; any other row arrives wrapped in a one-element array |
| PersistUtil.QueryEachRows | src/main/java/org/cryptocoinpartners/util/PersistUtil.java:78-105 | the untyped visitor sees the rows as column arrays, in result order; the visit is the one visit of those arrays, with the same cursors, accepted prefixes, early stop in the last page, and every row accepted when nothing stops it |
| PersistUtil.QueryEachDefault | src/main/java/org/cryptocoinpartners/util/PersistUtil.java:107-109 | without a batch size, pages are read at cursors 0, 20, 40, … (line 273); the visit is the one visit of the rows, with the same accepted prefixes, early stop in the last page, and every row accepted when nothing stops it |
| PersistUtil.QueryEachRowsDefault | src/main/java/org/cryptocoinpartners/util/PersistUtil.java:69-71 | the untyped visit without a batch size pages by 20 (line 273) and is the one visit of the rows as column arrays, under the same rules |
| PersistUtil.GetSingleResult | src/main/java/org/cryptocoinpartners/util/PersistUtil.java:171 | the one row when there is exactly one; `NoResult` exactly for none, `NonUniqueResult` exactly for several |
| PersistUtil.QueryOne | src/main/java/org/cryptocoinpartners/util/PersistUtil.java:157-176 | succeeds exactly with one row; no row raises `NoResult` |
| PersistUtil.QueryZeroOne | src/main/java/org/cryptocoinpartners/util/PersistUtil.java:178-201 | null exactly when there is no row, the row when there is one, and an error exactly when there are several; never `NoResult` |
| PersistUtil.EntityManagerFactory.constructor | src/main/java/org/cryptocoinpartners/util/PersistUtil.java:254 | a new factory is open and has the schema mode it was built with |
| PersistUtil.EntityManagerFactory.Close | src/main/java/org/cryptocoinpartners/util/PersistUtil.java:258 | afterwards the factory is not open; closing a factory that was already closed fails with `AlreadyClosed` (the JPA `IllegalStateException`), and only then |
| PersistUtil.Persistence.constructor | src/main/java/org/cryptocoinpartners/util/PersistUtil.java:272 | the process starts with no factory: the static field is null |
| PersistUtil.Persistence.Init | src/main/java/org/cryptocoinpartners/util/PersistUtil.java:225-263 | an open factory with no reset asked for is reused unchanged. Otherwise a successful build leaves a fresh open factory with schema mode "create" on reset and "update" otherwise. A failure leaves the field null. When building the factory fails, the old factory still in the field is closed. When the singleton bootstrap fails, the new factory is closed and a factory replaced on reset is left as it was, open and unreferenced |
| PersistUtil.Persistence.InitDefault | src/main/java/org/cryptocoinpartners/util/PersistUtil.java:216-218 | `init()` succeeds exactly when an open factory is already there, which it keeps, or the build succeeds, which leaves a fresh open factory in "update" mode; on failure the field is null |
| PersistUtil.Persistence.ResetDatabase | src/main/java/org/cryptocoinpartners/util/PersistUtil.java:212-214 | `resetDatabase()` succeeds exactly when building succeeds, and then leaves a fresh open factory in "create" mode; on failure the field is null. The factory it replaces is left as it was (an open one stays open, unreferenced) on success and on a singleton failure, and is closed when building fails |
| PersistUtil.Persistence.Shutdown | src/main/java/org/cryptocoinpartners/util/PersistUtil.java:220-223 | the factory, if there is one, is closed and stays in the field; it fails exactly when that factory was already closed, as on a second `shutdown` |

## Left out

- `insert` (PersistUtil.java:30-63): a transaction around `persist`, observable only through logging.
- `queryList` (PersistUtil.java:139-155): on an abstract database it returns the query's rows unchanged. The replay's two uses of it are `Store.Select`.
- `findById` (PersistUtil.java:203-205): it is `queryOne` on an id filter over an entity table; entity tables other than trades and books are not modelled.
- `createEntityManager` (PersistUtil.java:207-210) is modelled only through `init(false)`; entity managers, transactions and `em.close()` are JPA internals.
- `ensureSingletonsExist`: its only effect on this model is that it may fail. Failure is the `SingletonsFail` outcome of `PersistUtil.Persistence.Init`.
- Building a factory depends on the configuration read through `ConfigUtil` and on the database server. Its outcome is a parameter (`Construction`). The factory properties other than the schema mode are not modelled.
- Logging calls and the `Error` cause chain.
- `getContext` and the `EPRuntime` handed to each `ReplayStepRunnable`: that runtime is never used (its `sendEvent` call is commented out).
- The `Context` class and Esper are outside this model. The context is only a clock plus a log of `publish` and `advanceTime` calls.
- `Runtime.Context.Publish`: whether the real context moves its clock when an event is published (for example through `EventTimeManager.nextTime`) is decided in `Context`, which is not part of this model. The model assumes `publish` leaves the clock alone, so `Events.NextTime` is modelled and proved on its own but not called by the context.
- Failures of the store queries and of `publish`/`advanceTime` inside a step. In the inline branch of `run` (Replay.java:77) such an exception reaches the caller of `run`. In the queued branch (Replay.java:73) `submit` keeps it in a `Future` that nobody reads, and the worker goes on with the next window. The model has no failing query or publish, so every step runs to completion.
- Threads: the executor is a FIFO queue that one worker drains in order (`ReplayEngine.Replay.DrainService`). Concurrent access by the caller's thread is not modelled.
- `ReplayEngine.Replay.Run`: `service` is a static field in the source, so all `Replay` objects share one executor and `run` replaces it. The model keeps one queue per replay, and `run` starts from an empty queue. Steps left on an earlier, replaced executor are not modelled.
- `Store.Select`: JPA promises no row order for a query without `order by`. The model returns rows in table order. The sort makes the order of distinct timestamps irrelevant, but the order among equal timestamps follows this assumption.
- `PersistUtil.QueryEach`: `batchSize` must be positive. JPA rejects a negative maximum. For 0, providers differ: under the JPA reading of `setMaxResults(0)` the first page is empty (as `PersistUtil.Page` gives for a maximum of 0), so the loop would stop at once and visit nothing; a provider that reads 0 as "no limit" returns every row on each read, the cursor never moves, and the loop never ends unless the visitor stops it. The model leaves 0 out rather than pick one. The visitor's answer is a function of the rows seen so far, so visitors with other side effects are not modelled.
- `PersistUtil.QueryEachRows`: a primitive array row (for example `int[]`) fails the cast to `Object[]` in the source. A null row, as a single-item select of a nullable value such as `max` over an empty table gives, makes `row.getClass()` throw `NullPointerException` (PersistUtil.java:96). The model has only object arrays and scalar rows, so it does not capture either exception; a null value arrives as a scalar row. The same holds for `PersistUtil.QueryEachRowsDefault`.
- Joda `Duration`/`Interval` arithmetic uses 64-bit milliseconds. The model uses unbounded integers, so overflow of `now + timeStep` near the end of the `long` range is not modelled.
- `Ranges.All`, `Ranges.Since`, `Ranges.Until`: the current time that Joda substitutes for a null instant is a parameter `now`.
