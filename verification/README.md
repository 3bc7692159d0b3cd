# The WITSML ingestion pipeline, modelled and proved

The repository polls drilling logs from a paging WITSML store, keeps a cursor per log, hands new rows to a warm
in-memory store, streams them to browsers, and survives restarts through a small index cache. This project models
that pipeline in Dafny, from the text rows of the store to the buffer of the browser, and proves what it is for: every
row is delivered once and in order, paging loses nothing while a log grows, the workers of a tick do not disturb each
other, and what a browser shows is the newest part of the log itself (`EndToEnd.BrowserShowsLog`).

`dafny verify dfyconfig.toml` checks everything.

## How it is built

| layer | modules |
|---|---|
| numbers, indices, text, parsed blocks | `Numbers`, `Order`, `Text`, `Blocks` |
| polling kernel and the page loop | `Polling`, `LogPages`, `Client`, `FetchRun`, `Paging`, `FetchCost`, `PollCost` |
| the ingestion engine over whole runs | `Ingestion`, `ExactlyOnce`, `EngineRuns`, `Interleaving`, `SharedStore`, `Scheduler` |
| the index cache | `IndexCache`, `CacheRuns` |
| warm store, hub, browser | `RingBuffer`, `Backpressure`, `Hub`, `LiveView`, `Browser` |
| both together | `EndToEnd` |
| the store and its wire format | `MockStore`, `WriteRead`, `SparseMerge`, `LatestValues`, `Options` |
| export, formulas, strip track | `Export`, `Pivot`, `Formula`, `FormulaMeaning`, `StripTrack` |

Code that loops or updates state is a method or a class with the same branches, proved against a specification
function (`GetLogData` against `Drive`, `MergeBlocks` against `Merged`, `DoIngestLog` against `Polled`, `Publish`
against `Offer`, `BuildSegments` against `Bands`); the results are lemmas about those functions. Code that suspends is
a transition system: `Ingestion` has a step for every point at which a worker can wait, a step for the store growing,
and steps for failures, snapshots, stops and crashes, over what the workers share: the semaphore's permits and the
warm store's appends; `LiveView` has one for every hand-over between the scheduler,
the queue, the socket and the browser. `Hub` and `Browser` are the two ends of that socket as classes.

An index is an exact real number: a depth, or a UTC instant in milliseconds. Microseconds are its thousandths, so the
flooring of time cursors on the wire is `Floor`.

## Where the code does less than one might expect

Each of these is proved with an exact condition or a concrete case.

- A decreasing log with instants between milliseconds loses rows: the floored cursor lies beyond the cursor
  (`LogPages.RequeryCoversIffSafe`, `PollCost.FlooredCursorSkips`). Results about decreasing time logs therefore ask
  for aligned instants; increasing logs need nothing.
- A fetch cannot get past an instant that fills a page on the wire (`FetchCost.HowAFetchEnds`,
  `PollCost.CrowdedInstantStops`), and with pages of one row it never gets past the first
  (`FetchCost.OneRowPagesStall`).
- Two logs of a well that share a mnemonic share its buffer. The order of their workers shows in its stream exactly
  when both deliver a sample of it in the tick (`SharedStore.SharedCurveDependsOnOrder`); a curve with one feeder is
  the same in every interleaving (`SharedStore.SharedStoreIsSerial`).
- A snapshot transaction fails as a whole when a log repeats a mnemonic that has no row yet
  (`IndexCache.Database.SnapshotIndexState`, `IndexCache.RepeatedMnemonicClashes`).
- A column left out of a write reads back as the log's null value, which is null to the client only if it is one of
  the common sentinels (`WriteRead.OmittedReadsNull`); a row whose index token is such a sentinel loses its index
  (`WriteRead.RowsSurviveIffClear`, `WriteRead.SentinelDepthIsLost`).
- An export reads the oldest stored samples of all wanted curves under one limit (`Export.OldestAreRead`). It holds a
  curve's highest indices exactly when each of them is in the warm store or among those read (`Export.ExportIff`):
  always up to the limit (`Export.ExportHoldsHighest`), never beyond it for one curve with nothing warm
  (`Export.ColdExportIff`), and otherwise if the warm store makes up for it (`Export.WarmMakesUp`).
- A curve named like the spreadsheet's index heading overwrites the index of its rows (`Pivot.ColumnIsSeries`,
  `Pivot.DepthCurveClashes`).
- `convert` documents that it raises its own error and no other. Type errors of evaluation escape it, as for `sin()`
  or the sine of a complex root, and so does the overflow of an integer too large for a float. Which formulas do so
  can be read off their text (`Formula.PromiseIff`, with the instances `Formula.ArityIsNotChecked` and
  `Formula.HugeIntegerEscapes`), except where the kinds depend on the input (`Formula.RootDepends`). Text literals pass
  the checker and may convert (`Formula.LiteralsConvert`).
- The index-cache loader's documentation says identity comes from the index curve's row; the code takes the first row
  of the group. The rows always agree, so it makes no difference (`CacheRuns.RowsAlwaysAgree`,
  `CacheRuns.LoadIsDetermined`).

## Model

| member | source | states |
|---|---|---|
| EndToEnd.BrowserShowsLog | backend/app/ws/hub.py:77-131 | The whole pipeline: over every run of the engine, restarts included, and of the socket, when nothing is under way and no frame was dropped, each curve the browser shows that one increasing log feeds is the newest part of that log's own curve since the last start, up to its cursor. A point is in that curve if and only if a row of that span has a cell that is not null under the curve's name; it has the row's index, the cell's number or text and the column's unit; the points ascend. |
| EndToEnd.StreamIsLogCurve | backend/app/ingestion/scheduler.py:232-265 | The stream viewers follow of a curve one increasing log feeds holds exactly that log's cells of the curve from the cursor the engine started with to the present one, ascending, with index, number or text, and unit. |
| EndToEnd.LogCurveMeaning | backend/app/domain/models.py:129-150 | The points of a log's curve are its cells that are not null in the columns of that name, with index, number or text, and unit, strictly ascending if one column has the name. |
| EndToEnd.StartsContinue | backend/app/ingestion/scheduler.py:385-432 | With clean stops that curve continues the rows handed over before the start: together they are the log's curve from its first row. |
| EndToEnd.ViewersFollowStore | backend/app/ingestion/scheduler.py:249-265 | The frames of a well, from all its logs, carry of each curve exactly what was appended to its buffer. |
| EndToEnd.SnapshotOfStore | backend/app/ws/hub.py:57-61 | The hub's snapshot of the store an engine run leaves is the view's snapshot of the frames it published. |
| EngineRuns.ExactlyOnceOverRuns | backend/app/ingestion/scheduler.py:187-250 | Over every run of growth, polls, page suspensions, failures at any page and stops between ticks, the rows handed to the warm store are those of the log up to its cursor, each once; for an increasing log in order, and so are the samples. |
| EngineRuns.AtLeastOnce | backend/app/ingestion/scheduler.py:205-265 | Whatever crashes, failed loads and failed polls a run contains, every row at or before a log's cursor has been handed over. |
| EngineRuns.CrashRepeatsBetween | backend/app/ingestion/scheduler.py:385-495 | After a crash a row is handed over once more exactly when it lies beyond the snapshot cursor and at or before the new cursor; counted per row, so rows up to the snapshot never repeat. |
| EngineRuns.HandedOverOncePerLife | backend/app/ingestion/scheduler.py:385-495 | In any run, with any number of stops and crashes, a row was handed over exactly once in each life of the process whose cursor went past it, from where that life resumed: the exact count for every row, at most one more than there were restarts. |
| EngineRuns.NoSecondWorker | backend/app/ingestion/scheduler.py:147-178 | A tick creates a worker for a log only when that log has none. |
| EngineRuns.TickPollsEachLogOnce | backend/app/ingestion/scheduler.py:147-185 | A tick that ends has created exactly one worker for every log, and all of them have finished. |
| EngineRuns.RunKeeps | backend/app/ingestion/scheduler.py:147-203 | Every reachable state keeps the engine invariant: each semaphore permit is free or with a worker inside, so none is lost and the limit holds; each log's delivered rows exactly once since its last restart, nothing at or before a cursor missing. |
| Interleaving.LogsAreIsolated | backend/app/ingestion/scheduler.py:187-203 | Within a tick a log's cursor, its delivered rows and its appends to the shared store are a function of its own actions, whatever other logs do. |
| Interleaving.TickIsSerial | backend/app/ingestion/scheduler.py:147-203 | For any interleaving of the workers of a tick, running one log after another is possible, ends in the same state of every log and of the semaphore, and makes the same appends per log. |
| SharedStore.StoreGetsWhatIsDelivered | backend/app/ingestion/scheduler.py:236-265 | In every run each log's appends to the shared store since the start are the samples of the rows it handed over since then; nobody else appends. |
| SharedStore.SharedStoreIsSerial | backend/app/ingestion/store.py:86-91 | In every shared curve buffer's stream a log's part is the same in every interleaving as in the serial run and is the curve's part of its delivered samples; a curve no other log of the well has, and its buffer, are equal outright. |
| SharedStore.ViewersSeeSerialRun | backend/app/ingestion/store.py:172-185 | The viewers of a well with one log are sent the same frames in the same order as in the serial run. |
| SharedStore.BufferIsStreamTail | backend/app/ingestion/store.py:86-91 | A buffer is the newest part of everything appended to its curve, by whichever logs. |
| SharedStore.SharedCurveDependsOnOrder | backend/app/ingestion/store.py:86-91 | Two logs of a well that have a curve in common: both serial orders of one tick are runs of the engine, and they end in different streams of the curve if and only if each log delivers a sample of it; where the first samples differ the buffers differ too, given room for both. |
| ExactlyOnce.DeliverEffect | backend/app/ingestion/scheduler.py:232-250 | Delivering a finished fetch hands over exactly the rows between the old cursor and the new one. |
| ExactlyOnce.ActKeeps | backend/app/ingestion/scheduler.py:187-271 | Every step of a worker, the store or a failure keeps the per-log invariant. |
| ExactlyOnce.SavedKeeps | backend/app/ingestion/scheduler.py:434-495 | A snapshot keeps it. |
| ExactlyOnce.RestartKeeps | backend/app/ingestion/scheduler.py:385-432 | A restart, with or without a loaded snapshot, keeps it as well. |
| Scheduler.IngestionScheduler.DoIngestLog | backend/app/ingestion/scheduler.py:205-265 | One poll: a failed fetch changes nothing; otherwise the cursor, the curves of the well and every viewer's queue become what the fetched block implies. The state of a log that differs in server, well, wellbore or uid stays what it was. |
| Scheduler.IngestionScheduler.KeysTell | backend/app/ingestion/scheduler.py:206-211 | Two headers name the same state if and only if well, wellbore and uid are the same. |
| Scheduler.IngestionScheduler.GroupForWire | backend/app/ingestion/scheduler.py:252-264 | The grouping loop builds the frame's per-curve lists, each point with its sample's index, number, text and unit. |
| Scheduler.FrameIsWhatWasAppended | backend/app/ingestion/scheduler.py:249-265 | A published frame carries, per curve, the index, number, text and unit of exactly the samples appended to it, in order. |
| Scheduler.StateFromHeader | backend/app/ingestion/scheduler.py:273-294 | A new state has no cursor and the header's index type, direction, unit and growing flag; its index mnemonic is the one the header names, else the first, and leads; its mnemonics are the header's and the index. |
| Scheduler.OthersInOrder | backend/app/ingestion/scheduler.py:213-216 | The curves requested besides the index keep their order. |
| Scheduler.PollHandsOverSpan | backend/app/ingestion/scheduler.py:220-250 | A poll in one go of a log that grows between its pages hands over the samples of exactly the rows between its old and its new cursor, ascending. |
| Client.GetLogData | backend/app/witsml/client.py:285-343 | The page loop raises the first code that is not positive, and no other; a result means every reply had a positive code. It ends at the first reply that is not a +2 with a new last index, or after 1000, and returns the merge of all replies' blocks. |
| Client.FetchMeaning | backend/app/witsml/client.py:285-343 | The same of the loop's step function, which the paging and engine results are about. |
| Paging.PagedFetchIsOneRun | backend/app/witsml/client.py:285-343 | Against a store that grows between pages, in either direction, a fetch returns the ascending listing of one contiguous run of the final log from the first row at or after `start`; all rows between the two ends, ends included, as of the last page, when that page was +1. |
| Paging.DriveResumes | backend/app/witsml/client.py:285-325 | A fetch from a row that one page can regain still holds that row at its end, however the log grows. |
| FetchRun.StepKeepsFetch | backend/app/witsml/client.py:300-325 | One page keeps the fetched rows gap-free and never fails; a +1 page completes the range. |
| FetchRun.GrowthKeepsFetch | backend/app/witsml/client.py:285-325 | Growth beyond the frontier between two pages keeps them so. |
| FetchRun.CursorOnPage | backend/app/witsml/client.py:322-325 | Re-querying from the newest fetched index gets that index back: pages overlap and leave no gap. |
| FetchRun.PageFacts | mockstore/store.py:666-696 | A reply is the listing of a set closed towards the cursor: all that is in range, or exactly the node limit with +2. |
| FetchRun.OutcomeListsFetched | backend/app/witsml/client.py:327-343 | What a fetch returns is the ascending listing of what it fetched, under the requested headers even when empty. |
| LogPages.PageShape | mockstore/store.py:666-696 | The selected page, as a set: in range, closed towards the start, of the stated size. |
| LogPages.OnWireLaws | backend/app/witsml/queries.py:69-77 | Flooring to milliseconds is idempotent, keeps order, and never passes a row of an increasing log. |
| LogPages.RequeryCoversIffSafe | backend/app/witsml/queries.py:69-77 | A re-query from the cursor as sent returns every row beyond it, for every log, if and only if the log is increasing or the cursor is aligned. |
| FetchCost.HowAFetchEnds | backend/app/witsml/client.py:285-325 | Whatever the cap: with a crowd (a wire instant shared by a page of rows with more than a page left) a static fetch is never complete; without one it never stalls, it is complete or has used up the cap; complete means the whole range. |
| FetchCost.CompleteIffNoCrowd | backend/app/witsml/client.py:285-325 | It ends in +1 if and only if there is no crowd, once the cap lets every page after the first bring a single row. |
| FetchCost.SparseFetchCompletes | backend/app/witsml/client.py:285-325 | With at most s rows per wire instant and pages of k > s rows it has at least min(n, k + (cap-1)(k-s)) rows, and is complete when that is all n, for depths and floored instants alike. |
| FetchCost.SparseIsNotCrowded | backend/app/witsml/client.py:285-325 | Fewer rows than a page per wire instant are never a crowd. |
| FetchCost.CostOfFetch | backend/app/witsml/client.py:44 | With n rows of which no two share a wire form, and pages of k >= 2, a fetch issues min(cap, max(1, ceil((n-1)/(k-1)))) requests, returns min(n, 1 + cap(k-1)) rows, and never stalls. |
| FetchCost.OneEachIsSparse | backend/app/witsml/queries.py:69-77 | With exact cursors no two rows share a wire form and every log is safe, so the exact cost holds of every depth log. |
| FetchCost.OneRowPagesStall | backend/app/witsml/client.py:322-325 | With k = 1 and at least two rows the stall guard stops the fetch with exactly the first row, for any safe cursors. |
| PollCost.PollGain | backend/app/ingestion/scheduler.py:238-242 | With at most s rows per wire instant one poll of a log that stopped growing leaves at most max(0, unseen - cap(k-s)) rows unseen. |
| PollCost.PollGainExactly | backend/app/ingestion/scheduler.py:238-242 | With one, exactly that many. |
| PollCost.PollsCatchUp | backend/app/ingestion/scheduler.py:238-242 | Repeated polls, floored cursors included, reach the frontier after ceil(unseen / (cap(k-s))) polls at the latest. |
| PollCost.PollsCatchUpExactly | backend/app/ingestion/scheduler.py:238-242 | With one row per wire instant after exactly that many. |
| PollCost.UnlimitedFetch | mockstore/store.py:690-696 | Without a node limit the first page is the whole range. |
| PollCost.FlooredCursorSkips | backend/app/witsml/queries.py:69-77 | A concrete decreasing log with instants between milliseconds: the row in the cursor's own millisecond is on the fetch of no later poll, however many there are. |
| PollCost.CrowdedInstantStops | backend/app/witsml/client.py:322-325 | A concrete log with three rows in one millisecond and pages of two: no cap makes its fetch complete. |
| Polling.MergeBlocks | backend/app/witsml/polling.py:88-111 | Merging computes the ascending listing of the last write at each index, and raises exactly on no blocks or differing headers. |
| Polling.MergedMeaning | backend/app/witsml/polling.py:88-111 | Which blocks raise, whose headers and units the result has, and, index by index, that its rows are ascending and each is the last of all blocks at its index. |
| Polling.ByIndexConcat | backend/app/witsml/polling.py:99-104 | The merge of two batches is the right-biased union of their dictionaries. |
| Polling.ByIndexListing | backend/app/witsml/polling.py:105-111 | A listing read back is the dictionary it lists. |
| Polling.MergeOfMerged | backend/app/witsml/polling.py:88-111 | Merging already merged groups is merging everything. |
| Polling.MergedOfMerged | backend/app/witsml/polling.py:88-111 | Merging a merged batch with further blocks is merging everything, headers included, and raises in the same cases. |
| Polling.DedupeListing | backend/app/witsml/polling.py:65-85 | Boundary removal leaves the listing of exactly the rows strictly beyond the cursor. |
| Polling.DedupeIdempotent | backend/app/witsml/polling.py:65-85 | Removing the boundary twice is removing it once. |
| Blocks.Samples | backend/app/domain/models.py:129-150 | The nested loops produce exactly what the rows hold: a sample for each cell that is not null under a header after the first, with that row's index, number or text, and that column's unit. |
| Blocks.ExplodeRow | backend/app/domain/models.py:135-149 | The column loop produces exactly what one row holds, cell by cell. |
| Blocks.SamplesMeaning | backend/app/domain/models.py:129-150 | A sample is produced if and only if a row with its index has its number or text in a column with its mnemonic and unit. |
| Blocks.SamplesInOrder | backend/app/domain/models.py:129-150 | The samples come row by row and column by column, so no cell gives two. |
| Blocks.SamplesOfConcat | backend/app/domain/models.py:129-150 | The samples of rows one after the other are their samples one after the other. |
| IndexCache.Database.SnapshotIndexState | backend/app/ingestion/scheduler.py:434-495 | One transaction writes each cursor under each mnemonic; it fails, changing nothing, exactly when a log repeats a mnemonic that has no row yet. |
| IndexCache.Database.WriteState | backend/app/ingestion/scheduler.py:455-493 | The row loop of one log. |
| IndexCache.GroupByLog | backend/app/ingestion/scheduler.py:398-406 | Grouping gives each log exactly its rows, in whatever order the database returns them. |
| IndexCache.FoldGroup | backend/app/ingestion/scheduler.py:409-431 | One group of rows becomes one state: identity and cursor from its first row, all mnemonics in alphabetical order, the first as index mnemonic. |
| IndexCache.LoadIndexSnapshot | backend/app/ingestion/scheduler.py:385-432 | Loading restores one such state per stored log and nothing else. |
| IndexCache.RepeatedMnemonicClashes | backend/app/ingestion/scheduler.py:469-495 | A concrete log that repeats a mnemonic: no snapshot into an empty table succeeds with it. |
| IndexCache.NamesRoundTrip | backend/app/ingestion/scheduler.py:508-519 | Index type and direction names read back as written. |
| IndexCache.NamesAreLenient | backend/app/ingestion/scheduler.py:508-519 | Index type and direction names are recognised in any case, those of types with blanks around them. |
| IndexCache.OtherNames | backend/app/ingestion/scheduler.py:508-519 | Any other name is a time if it contains that word, else a depth if it contains that one, else neither; no name is a measured depth. |
| CacheRuns.RowRoundTrip | backend/app/ingestion/scheduler.py:522-525 | Cursor, direction, index type and uom of a row read back as written; a time index is in the instant column, any other in the float column. |
| CacheRuns.RowsAlwaysAgree | backend/app/ingestion/scheduler.py:398-495 | From an empty table, over any sequence of polls, discoveries, snapshots and restarts, all rows of a log agree. |
| CacheRuns.LoadIsDetermined | backend/app/ingestion/scheduler.py:408-428 | So two loads of a table restore identical states, whatever order its rows come in. |
| CacheRuns.SnapshotThenLoad | backend/app/ingestion/scheduler.py:385-495 | Snapshot then load restores exactly the logs that have a cursor and a named mnemonic, each with its cursor, direction, index type, uom and named mnemonics, alphabetical, the first as index mnemonic. |
| CacheRuns.SnapshotSaves | backend/app/ingestion/scheduler.py:434-495 | The transaction makes the table hold exactly what the engine's snapshot step saves. |
| CacheRuns.LoadRestores | backend/app/ingestion/scheduler.py:340-341 | Loading it and discovering the rest gives each log the cursor the engine's restart step goes on with. |
| RingBuffer.RingBufferStore.Append | backend/app/ingestion/store.py:86-91 | Appending pushes each sample on its curve's bounded buffer. |
| RingBuffer.AppendedCurve | backend/app/ingestion/store.py:86-91 | A curve then holds the newest part of what it held and gained; other wells are untouched. |
| RingBuffer.RingHoldsNewest | backend/app/ingestion/store.py:74-91 | After any appends a curve holds the newest part of everything appended to it. |
| RingBuffer.RingBufferStore.GetRecent | backend/app/ingestion/store.py:93-118 | Exactly the wanted curves that hold samples, each cut to those after `since` and the newest `limit`. |
| RingBuffer.RecentMeaning | backend/app/ingestion/store.py:108-116 | Of a curve a reader gets the newest samples strictly beyond `since`: all of them, or `limit`. |
| RingBuffer.NewerInOrder | backend/app/ingestion/store.py:112-113 | Those keep their order. |
| RingBuffer.RingBufferStore.PutLogState | backend/app/ingestion/store.py:157-158 | Storing a state changes that log's state alone. |
| RingBuffer.RingBufferStore.Subscribe | backend/app/ingestion/store.py:164-167 | A fresh empty queue joins the well's subscribers. |
| RingBuffer.RingBufferStore.Unsubscribe | backend/app/ingestion/store.py:169-170 | It leaves that well's subscribers and no other's. |
| RingBuffer.RingBufferStore.Publish | backend/app/ingestion/store.py:172-185 | Every queue of the well takes the payload, a full one giving up its oldest, and no other queue changes. |
| Backpressure.QueueIsNewestUnread | backend/app/ingestion/store.py:164-185 | For any history a queue is a suffix of what was published, bounded, ending in the newest; what was drained is in order and before it; the two are everything published exactly when no publish met a full queue. |
| Hub.Session.Subscribe | backend/app/ws/hub.py:98-107 | A subscription replaces the session's only registered queue by a new one and sends the snapshot first. |
| Hub.Session.Release | backend/app/ws/hub.py:89-96 | Nothing of the session stays subscribed; other sessions keep their queues. |
| Hub.Session.SnapshotFrame | backend/app/ws/hub.py:57-61 | The snapshot holds, of every curve of the well that has samples, the newest 300, each point with its sample's index, number, text and unit. |
| Hub.Session.StartDrain | backend/app/ws/hub.py:98-108 | When the drain starts, the last thing streamed is the snapshot of the current well. |
| Hub.Session.DrainOne | backend/app/ws/hub.py:77-81 | The drain forwards the oldest queued frame unchanged; what was streamed stays the snapshot followed by the drained frames in order. |
| Hub.Session.Receive | backend/app/ws/hub.py:110-125 | The dispatch of browser messages, unknown and empty ones ignored. |
| Hub.StreamIsWhatWasAppended | backend/app/ingestion/scheduler.py:249-265 | The live view's stream of a curve carries index, number, text and unit of exactly the samples the appends handed over. |
| Hub.SnapshotIsViewSnapshot | backend/app/ws/hub.py:57-61 | The hub's snapshot of the warm store is the snapshot of the live view's state machine. |
| LiveView.AppendWindowed | frontend/src/api/useWellStream.ts:32-50 | The loop replaces or extends each non-empty curve within the window and reports whether anything changed. |
| LiveView.BrowserShowsTail | frontend/src/api/useWellStream.ts:32-113 | Over any run of appends, publishes, drains, resubscriptions and reconnects without overflow, each curve shown from the first snapshot on is the newest part of the server's stream up to some append, at most the window long; of all of it once nothing is under way. |
| LiveView.SnapshotHeals | backend/app/ws/hub.py:98-107 | A snapshot makes the view such a tail again, whatever was dropped before it. |
| LiveView.ViewStepKeeps | backend/app/ws/hub.py:77-131 | Every step of the server, the socket and the browser keeps the invariant behind this. |
| Browser.WellStream.OnMessage | frontend/src/api/useWellStream.ts:83-110 | A snapshot replaces, data extends, frames for other wells and other messages change nothing; `rev` rises exactly when a curve changed. |
| Browser.ReconnectingWebSocket.OnOpen | frontend/src/api/ws.ts:70-77 | On every connection each remembered subscription is sent once, in the order they were added, so the server serves the last named one. |
| Browser.ReconnectingWebSocket.ScheduleReconnect | frontend/src/api/ws.ts:107-114 | At most one attempt is pending, after the delay the failures in a row call for, and none once closed. |
| Browser.ReconnectingWebSocket.OnClose | frontend/src/api/ws.ts:92-95 | A lost connection leads to a pending attempt exactly while the socket is wanted. |
| Browser.ReconnectingWebSocket.Close | frontend/src/api/ws.ts:148-163 | After closing nothing is pending and nothing reopens. |
| Browser.ReconnectingWebSocket.Subscribe | frontend/src/api/ws.ts:123-126 | A subscription is remembered behind those there are, and served if the socket is open. |
| Browser.ReconnectingWebSocket.Connect | frontend/src/api/ws.ts:50-53 | Connecting makes the socket wanted and opens it, or leaves an attempt pending when that throws. |
| Browser.ReconnectingWebSocket.TryOpen | frontend/src/api/ws.ts:55-69 | Opening does nothing once the socket is not wanted. |
| Browser.ReconnectingWebSocket.TimerFires | frontend/src/api/ws.ts:109-112 | A due attempt opens the socket again, or schedules the next. |
| Browser.ReconnectingWebSocket.Unsubscribe | frontend/src/api/ws.ts:128-131 | A subscription is forgotten, and the server serves nothing any more if the socket is open. |
| Browser.WithoutInOrder | frontend/src/api/ws.ts:128-131 | The other subscriptions keep their order. |
| Browser.BackoffDoubles | frontend/src/api/ws.ts:107-114 | The delay is min(minDelay * 2^failures, maxDelay). |
| MockStore.StoredLog.IngestLogData | mockstore/store.py:419-460 | Writing aligns columns by mnemonic and stores the whole row of every record that has an index, the last one winning. |
| MockStore.ElementIsStored | mockstore/store.py:419-460 | After an element each index it has a line for holds the last such line: the first cell, then under each stored column the cell at the last position with that header, or the null value; other indices keep their rows. The headers are the pieces of the element's list, or the log's own mnemonics. |
| MockStore.ElementsAreOneWrite | mockstore/store.py:419-460 | Writing any number of data elements one after another, each under its own headers, is one write of all their records in order, and the reported counts add up to the records with an index. |
| MockStore.AddedMeaning | mockstore/store.py:419-460 | The count reported for an element is that of its lines with an index. |
| MockStore.StoredLog.SelectRange | mockstore/store.py:684-696 | The range and cap loop computes the page. |
| MockStore.StoredLog.LatestOfColumn | mockstore/store.py:712-724 | The backward scan keeps the newest n rows with a value in the column. |
| MockStore.StoredLog.KeepIndices | mockstore/store.py:710-724 | The union over the columns. |
| MockStore.StoredLog.LatestValueRows | mockstore/store.py:698-742 | The emitted sparse rows, ascending, nulls written as the log's null value. |
| MockStore.StoredLog.Nulls | mockstore/store.py:744-749 | The null values are the log's, -999.25, the empty text and those of the curves. |
| LatestValues.LatestValuesSelected | mockstore/store.py:698-742 | Of the rows with a cell in a column that is neither blank nor a null value, every curve gets its min(n, available) newest; every row is among some curve's n newest; at most n times (columns-1) rows. |
| LatestValues.MergedReplyKeepsValues | backend/app/witsml/parse.py:310-330 | Parsing and merging the reply yields in every emitted row and column the stored cell as the client reads it, and the log's null value where the store holds a null. |
| WriteRead.RenderLogData | mockstore/store.py:648-664 | The data part of a reply; none without rows. |
| WriteRead.ParseLogData | backend/app/witsml/parse.py:252-307 | The row and cell loops of parsing. |
| WriteRead.ColumnsSurvive | backend/app/witsml/parse.py:270-274 | Joined and split mnemonics are the same mnemonics. |
| WriteRead.UnitsSurvive | backend/app/witsml/parse.py:275-282 | Joined, split and padded units are the same units, absent ones included. |
| WriteRead.ParsedUnitsMeaning | backend/app/witsml/parse.py:275-282 | A column has the listed unit without the blanks around it, none where that is blank or the list is too short. |
| WriteRead.RowsSurvive | backend/app/witsml/parse.py:287-295 | Rendered and parsed rows are the stored rows, decoded. |
| WriteRead.ReplyIsServed | mockstore/store.py:648-696 | The store's page of text rows, rendered and parsed, is the reply the paging results are about. |
| WriteRead.WritesAreWellStored | mockstore/store.py:419-460 | Any writes leave only rows that survive the wire. |
| WriteRead.LastWriteIsStored | mockstore/store.py:419-460 | A row is the last line written at its index, column by column. |
| WriteRead.WriteThenRead | backend/app/witsml/parse.py:252-307 | After any writes a query read back gives one row per written index, in log direction; in each column the cell the last line at that index has at the last position under that header, read as null, number or text; the log's null value if and only if there is no such position. |
| WriteRead.OmittedReadsNull | mockstore/store.py:455-457 | After any writes, a column the last write at an index left out is read as null if and only if the log's null value is one the reader knows. |
| WriteRead.RowsSurviveIffClear | backend/app/witsml/parse.py:242-249 | Stored rows read back as they are if and only if no index token among them is a null sentinel. |
| WriteRead.SentinelDepthIsLost | backend/app/witsml/parse.py:242-249 | A concrete row at depth -999 that the store keeps and the reader loses the index of. |
| SparseMerge.MergeSparseRows | backend/app/witsml/parse.py:310-330 | The loops compute the dense rows, ascending. |
| SparseMerge.FillRow | backend/app/witsml/parse.py:321-323 | The column loop overlays non-null cells. |
| SparseMerge.MergeTakesLastValues | backend/app/witsml/parse.py:310-330 | A merged cell is that of the last row with a cell that is not null at that index and column, or null. |
| SparseMerge.MergeOfMerged | backend/app/witsml/parse.py:310-330 | merge(merge(a) + b) = merge(a + b). |
| SparseMerge.MergeIdempotent | backend/app/witsml/parse.py:310-330 | Merging merged rows changes nothing. |
| SparseMerge.MergeOrderIrrelevant | backend/app/witsml/parse.py:310-330 | Order does not matter when rows at one index fill disjoint columns. |
| Options.OptionsIn | backend/app/witsml/constants.py:77-92 | The loop prints the present arguments. |
| Options.ParseOptions | mockstore/store.py:96-108 | The loop parses the pieces. |
| Options.ParseUndoesPrint | mockstore/store.py:96-108 | Parsing what was printed gives back every value, '=' signs included, under lower-cased keys. |
| Options.ExpectedFinds | backend/app/witsml/constants.py:77-92 | With keys that stay distinct when lower-cased, exactly the present arguments are found: texts as they are, booleans as words, numbers in decimal. |
| Options.DocumentedOptions | backend/app/witsml/constants.py:77-92 | The documented example prints as documented. |
| Text.SplitJoin | mockstore/store.py:658-663 | Splitting joined cells gives the cells. |
| Text.JoinSplit | mockstore/store.py:445 | Joining the pieces of a text gives the text. |
| Text.StripMeaning | mockstore/store.py:445 | Stripping takes white space off both ends and nothing else. |
| Export.GatherCurve | backend/app/api/export.py:135-150 | The union, sort and cut of one curve. |
| Export.SortIsSort | backend/app/api/export.py:145-147 | Sorting by distinct indices is an ascending permutation. |
| Export.GatheredMeaning | backend/app/api/export.py:133-150 | Of what was read: exactly the `limit` highest indices of warm over history, strictly ascending, the warm sample winning. |
| Export.HistorySamples | backend/app/api/export.py:87-109 | The history read: the loop gives every curve its samples among the first `limit` of the answer, in their order. |
| Export.OldestAreRead | backend/app/api/export.py:87-98 | Whatever order the database gives ties: what is read are `limit` of the well's stored samples of the wanted curves, or all of them, and none left out is older than one that was read. |
| Export.ExportIff | backend/app/api/export.py:112-150 | For any warm samples, stored samples and limit: an export equals the one that reads all of history if and only if each of the `limit` highest indices of warm and history together is in the warm store or was read. |
| Export.ExportHoldsHighest | backend/app/api/export.py:112-150 | With at most `limit` stored samples of all wanted curves an export holds the `limit` highest indices of everything there is. |
| Export.ColdExportIff | backend/app/api/export.py:100-102 | So for one curve with distinct stored indices and nothing in the warm store it is exact if and only if there are at most `limit` stored samples. |
| Export.WarmMakesUp | backend/app/api/export.py:112-150 | A concrete store beyond the limit whose export is exact with its newest sample warm and is not with nothing warm. |
| Pivot.AssembleRows | backend/app/export/excel.py:40-84 | The loops build the grid, its rows, columns and units. |
| Pivot.PresentMeaning | backend/app/export/excel.py:54-57 | The exported columns are those asked for that have data, or all that have data if none asked for has. |
| Pivot.PresentInOrder | backend/app/export/excel.py:54 | They keep the order they were asked for in. |
| Pivot.FirstUnitMeaning | backend/app/export/excel.py:67-68 | A column's unit is that of its first sample with one. |
| Pivot.FillCurve | backend/app/export/excel.py:65-73 | The inner loop adds one curve's samples to the grid. |
| Pivot.ListRows | backend/app/export/excel.py:75-82 | The last loop lists the grid's rows in index order. |
| Pivot.GridHolds | backend/app/export/excel.py:61-73 | A cell shows the number, else the text, of its curve's last sample at its index; there is a cell exactly where there is a sample. |
| Pivot.OneRowPerIndex | backend/app/export/excel.py:75-82 | One row per distinct index, ascending. |
| Pivot.ColumnIsSeries | backend/app/export/excel.py:54-84 | Reading any exported column back gives exactly its curve's series if and only if no exported curve named like the index heading has a sample at one of its indices. |
| Pivot.DepthCurveClashes | backend/app/export/excel.py:77-82 | A concrete export where a curve named Depth overwrites the index of another. |
| Formula.CheckAst | backend/app/units/engine.py:92-123 | The two worklist passes with the callee set return the first violation of the breadth-first walk. |
| Formula.WalkVisitsAll | backend/app/units/engine.py:102-119 | The walk visits every node of the tree and nothing else. |
| Formula.CalleesMark | backend/app/units/engine.py:98-114 | The callee set marks exactly the first children of calls. |
| Formula.AcceptsGrammar | backend/app/units/engine.py:92-137 | The passes accept a tree if and only if it is in the recursive grammar. |
| Formula.EvaluatesAsTyped | backend/app/units/engine.py:140-155 | An accepted formula never meets an unknown name or function, an unsupported node or the exponent guard; with a typing that fits it has no type error and a value of that kind, with one that clashes it fails. |
| Formula.TypeErrorIffClash | backend/app/units/engine.py:177-207 | A formula whose typing fits never ends in a type error; where no operator, function or formatting fails for another reason, any formula whose text does not leave it open ends in one if and only if its typing clashes. |
| Formula.OnlyArithmeticRemains | backend/app/units/engine.py:140-155 | A formula with numeric constants, the right numbers of arguments and whole exponents evaluates to a real number or fails in arithmetic, and in no other way. |
| Formula.LiteralsCombine | backend/app/units/engine.py:140-155 | Which literals can be added, subtracted, multiplied and divided: numbers always, texts only by joining and repeating. |
| Formula.LiteralCalls | backend/app/units/engine.py:140-155 | Which literals a function can be called with, and the kind of the result: one number, two for the logarithm, complex ones only for the absolute value. |
| FormulaMeaning.EvaluatesToMeaning | backend/app/units/engine.py:140-155 | Evaluating a formula with numeric constants, the right numbers of arguments and whole exponents gives the real number it denotes, its parts in their order and the input at the placeholder, and fails in arithmetic exactly where it denotes none. |
| FormulaMeaning.ConvertsToMeaning | backend/app/units/engine.py:177-214 | So converting returns that number, raises its own error where there is none, and overflows only beyond the floats. |
| Formula.IntegerFormula | backend/app/units/engine.py:151-155 | A formula typed as an integer has, whatever the input, the integer its text stands for. |
| Formula.RootDepends | backend/app/units/engine.py:152-155 | The text can leave it open: the sine of the square root of any real part, the input or another, is a type error exactly for its negative values. |
| Formula.Convert | backend/app/units/engine.py:177-214 | Conversion: the checker, evaluation, and the final conversion to a float, with every error it can end in. |
| Formula.PromiseIff | backend/app/units/engine.py:177-214 | It rejects exactly the trees outside the grammar; of the others, by their text alone: an integer formula breaks the promise if and only if the integer it stands for is beyond the floats, one of another fitting kind never does, and a clashing one does exactly when no operation fails for another reason. |
| Formula.LiteralsConvert | backend/app/units/engine.py:211-214 | A text literal converts when it reads as a number; other texts and `None` end in its own error. |
| Formula.ArityIsNotChecked | backend/app/units/engine.py:102-112 | A call without arguments is accepted, its typing clashes and its type error escapes. |
| Formula.HugeIntegerEscapes | backend/app/units/engine.py:196-214 | 16 to the 64th to the 4th stands for an integer beyond the floats, is accepted, and its overflow escapes. |
| StripTrack.BuildSegments | frontend/src/components/tracks/StripTrack.tsx:52-90 | The loop that extends or pushes segments and assigns colors. |
| StripTrack.SortIsStable | frontend/src/components/tracks/StripTrack.tsx:72 | Sorting is a rising permutation that keeps equal indices in order. |
| StripTrack.BandsTile | frontend/src/components/tracks/StripTrack.tsx:76-88 | After every sample the segments tile: each ends where the next begins and neighbours differ. |
| StripTrack.StripTiles | frontend/src/components/tracks/StripTrack.tsx:52-90 | The strip begins at the smallest index and tiles up to the end computed from the extent and the number of samples; every sample lies in a segment with its own key. |
| StripTrack.StripIsStepFunction | frontend/src/components/tracks/StripTrack.tsx:52-90 | Every position of the strip lies in exactly one segment, with the key of the last sample at or before it. |
| StripTrack.KeyBuckets | frontend/src/components/tracks/StripTrack.tsx:66-70 | Values with one key are less than a tenth apart. |
| StripTrack.KeysAgreeIff | frontend/src/components/tracks/StripTrack.tsx:66-70 | Two values share a key if and only if they are equal, or both fractional, of one sign and nearest to the same tenth. |
| StripTrack.ColorsTell | frontend/src/components/tracks/StripTrack.tsx:55-63 | Segments of one key share a color. |
| StripTrack.ColorsDiffer | frontend/src/components/tracks/StripTrack.tsx:55-63 | Up to ten keys have different colors. |
| StripTrack.ColorsOfPalette | frontend/src/components/tracks/StripTrack.tsx:55-63 | Every color is one of ten. |

## Left out

- Transport: SOAP, XML trees, HTTP, WebSocket framing and FastAPI routing. Queries, replies and messages are data, and
  a log query names one log by non-empty uids.
- Floating point: depths, values and arithmetic are exact reals, so rounding, NaN and infinities do not occur, and
  neither do instants finer than a microsecond or naive time zones.
- Number and instant parsing is a parameter (`WriteRead.Codec`, `MockStore.IndexParser`), the same on both sides of
  the wire.
- `strip` and `lower` are those of ASCII text.
- Growth only beyond the frontier: rows backfilled or overwritten behind a cursor are never read again, so nothing is
  claimed about them.
- Logs discovered after the first successful discovery, and the order in which a tick serves viewed wells.
- Cancellation in the middle of a tick during `stop`: a stop falls between ticks, a crash anywhere.
- The page size is the same before and after a restart.
- Sample persistence: the database write happens after the cursor moved and may fail, so nothing is claimed about
  stored samples beyond the worker's suspension while it runs.
- The SQL engine: the snapshot table is a map and a failing transaction leaves it as it was.
- Paging.PagedFetchIsOneRun: for a decreasing time log asks for indices aligned to the millisecond, because the code
  skips rows otherwise (see above).
- EngineRuns.ExactlyOnceOverRuns: for a decreasing log states the rows as a multiset, because each fetch is sorted
  ascending while successive fetches descend.
- FetchCost.CostOfFetch: gives the exact count when no two rows share a wire form, because otherwise the overlap of
  two pages depends on where the shared instants fall; `FetchCost.SparseFetchCompletes` bounds it for all logs.
- CacheRuns.SnapshotThenLoad: restores the set of mnemonics, because the loader sorts them and takes the first as the
  index mnemonic. Requests after a restart name the columns in that order; the store answers with all columns in its
  own.
- EndToEnd.BrowserShowsLog: is about a curve one log feeds and a browser opened since the engine's last start, because
  buffers ignore the log uid and the warm store is lost with its process.
- LiveView.BrowserShowsTail: follows one well and a server that stays up, because a restarted server begins with empty
  buffers.
- Hub.Session.Subscribe: ends at its first suspension; `StartDrain` is the rest, so that publishes can fall between.
- Browser.ReconnectingWebSocket.OnOpen: tracks the current socket only, because a second `connect` before the first
  socket closed does not occur.
- WriteRead.WriteThenRead: asks for cells without commas or surrounding blanks in headers and units and for index
  tokens that are no null sentinels, because the wire format has no quoting.
- LatestValues.MergedReplyKeepsValues: asks the same of the rows.
- Formula.PromiseIff: says nothing of formulas whose text leaves the kinds open: a fractional power under a remainder
  or under a function other than `abs`, and text formatting, because whether they clash depends on the values
  (`Formula.RootDepends`).
- Formula.EvaluatesAsTyped: takes the results of operators and functions as parameters of the kinds Python gives them;
  byte-string literals, literals too large for a float and rounding are not modelled.
- FormulaMeaning.EvaluatesToMeaning: is about formulas with numeric constants, the right numbers of arguments and whole
  exponents, because the others need not denote a real number; arithmetic is exact.
- `simpleeval` and Python's parser are not part of this model: evaluation follows the whitelisted operators, names and
  functions, and a tree has the shape the parser gives it (`Formula.Parsed`).
- StripTrack.KeyBuckets: keys stand for the printed numbers, which are injective on the values that occur.
- `_ordered_mnemonics`, the rendering of the workbook, PDF reports, charts, the unit table and hydraulics library, and
  the simulator: only easy claims.
- Authentication, roles, and the create, read, update and delete screens.
