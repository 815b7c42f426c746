# Verified model of the sensor gateway

The gateway takes measurements from sensor connections and hands each of them to
two readers, the data manager and the storage manager, through one shared buffer.
This project models that pipeline in Dafny and proves what holds for every list,
every select round and every interleaving of the threads.

`dafny verify dfyconfig.toml` checks all of it.

## Structure

| file | content |
|---|---|
| `Sequences.dfy`, `Measurements.dfy` | filters and sums over sequences; the measurement record |
| `SharedQueue.dfy` | the two-reader queue on values, and its meaning: one history with two cursors |
| `SharedBuffer.dfy` | `sbuffer.c` on the heap, proved to implement that queue |
| `ListOperations.dfy` | what the operations of `dplist.h` mean on sequences |
| `StableSorting.dfy` | stable sorting as a definition, as insertion sort and as bubble sort |
| `LinkedLists.dfy` | `lib/dplist.c` on the heap, proved to implement both |
| `SensorTable.dfy`, `RingBuffers.dfy` | averages, alerts, per-sensor projection; the ring of temperatures |
| `DataManager.dfy` | `datamgr.c` on the heap, proved to implement the table |
| `ClientScan.dfy` | the scan over the client list that removes while it walks |
| `ConnectionManager.dfy` | `connmgr.c` on the heap, proved to implement the scan |
| `ConnectionRuns.dfy`, `ConnectionProperties.dfy` | all runs of the connection manager, per connection |
| `ConnectionLogs.dfy` | what the log of a connection tells, and exactly when a round removes a client |
| `Gateway.dfy`, `GatewayProperties.dfy` | the threads and main, one step per critical section; all interleavings |
| `GatewayShutdown.dfy` | what shutdown delivers and loses, and that it ends |
| `Pipeline.dfy` | the product of both sides: from the sockets to the sensor table and the database |
| `PipelineDelivery.dfy` | that readings arrive: in the history before the connection manager ends, and at both readers |

The global invariant that makes the buffer right is written nowhere in the code:
the flags of each reader form a prefix of the list, and no node still linked
carries both. It is `SharedQueue.Shape`; `ShapeIffView` shows that exactly the
lists of that shape stand for an insertion history with two cursors.

## Where the code and its documentation differ

- `lib/dplist.h:126-130` asks for a sorted list and leaves the order of equal
  elements undefined. The code sorts any list first, and stably:
  `SortedInsertionIsStableSort`.
- `sbuffer.h:36` speaks of removing the element at the head. The code returns the
  first element that the calling reader has not read: `RemoveRefines`.
- `README.md:39-44` promises that the gateway closes after three failed attempts
  to reach the database. Only the storage thread ends: `GivingUpStopsNothing` is a
  run in which all three attempts fail and the gateway goes on,
  `ClosesWithConnmgrOnly` says that it closes only after the connection manager has
  ended, `CanAlwaysClose` that from then on it always can. Until an attempt succeeds
  the buffer keeps every measurement: `NothingLeavesWithoutDatabase`.
- The shutdown order in `main.c:117-122` can lose measurements: the readers stop
  at their run flag, not at an empty buffer. `ShutdownLoses` is a completed run
  that does, `ShutdownDeliversIff` says for every phase when a reader still gets
  everything.
- A client is recognised as new by the timestamp 0 (`connmgr.c:191`), so a reading
  with timestamp 0 repeats the "opened" message. `AnnouncedTwice` is such a run,
  `OpenedOnceIffTimestampsNonZero` gives the exact condition.

## Model

| member | source | states |
|---|---|---|
| SharedQueue.RemoveRefines | sbuffer.c:45-96 | a removal hands a reader the reading under its own cursor and moves that cursor alone, or reports no data exactly at the end of the history |
| SharedQueue.InsertRefines | sbuffer.c:99-119 | an insertion extends the history and neither cursor |
| SharedQueue.ReclaimedIsHead | sbuffer.c:84-94 | whenever both flags are set the node found is the first one, so the node freed is the node unlinked |
| SharedQueue.ShapeIffView | sbuffer.c:51-78 | prefix flags without a doubly read cell characterise exactly the lists that stand for a history with two cursors |
| SharedQueue.NothingLeavesEarly | sbuffer.c:83-94 | a reading that one reader still needs stays in the buffer, at the place its history position says |
| SharedQueue.RemovePaysOneDelivery | sbuffer.c:45-96 | a successful removal lowers the number of deliveries owed by one, a failed one changes nothing |
| SharedQueue.EmptyIffBothStarved | sbuffer.c:49-60 | the list is empty if and only if both readers are told there is no data |
| SharedBuffer.Buffer.constructor | sbuffer.c:15-23 | an empty buffer with an empty history |
| SharedBuffer.Buffer.Append | sbuffer.c:99-119 | on the heap: one fresh node behind the old ones, chain, flags and node accounting kept |
| SharedBuffer.Buffer.FindUnread | sbuffer.c:51-78 | the search loop ends at the node under the reader's cursor, or at NULL when the reader is up to date |
| SharedBuffer.Buffer.Reclaim | sbuffer.c:84-94 | moving `head` by one and freeing the node found keeps every created node either linked or freed once |
| SharedBuffer.Buffer.RemoveFor | sbuffer.c:45-96 | on the heap: result, history and cursors, and which node leaves the chain and is freed |
| SharedBuffer.Buffer.FreeNodes | sbuffer.c:33-38 | afterwards the list of freed nodes is the list of all nodes ever created, without a repetition |
| SharedBuffer.Buffer.Insert | sbuffer.c:99-119 | the C function: failure on NULL, else the buffer holds the old cells and the new one |
| SharedBuffer.Buffer.Remove | sbuffer.c:45-96 | the C function for any calling thread: failure on NULL or a foreign thread, the caller's record untouched unless a reading is returned |
| SharedBuffer.Buffer.Destroy | sbuffer.c:26-42 | the C function: failure on NULL, else all nodes and the buffer freed; the caller's pointer is NULL |
| SharedBuffer.Buffer.GetFirstNode | sbuffer.c:121-132 | NULL if and only if both readers have read everything, else the reading at the slower cursor |
| ListOperations.InsertRemoveRoundTrip | lib/dplist.c:88-188 | for every integer index a removal undoes an insertion and a lookup finds the inserted element |
| ListOperations.RemoveInsertRoundTrip | lib/dplist.c:88-188 | re-inserting what was removed at the same index restores the list |
| ListOperations.ReferenceIndexInverse | lib/dplist.c:206-219 | reference-at-index and index-of-reference are mutual inverses on the references of a list |
| ListOperations.PreviousOfNext | lib/dplist.c:280-318 | stepping forward and back returns to the start, also from the last node through NULL |
| ListOperations.WalkVisitsAll | lib/dplist.c:262-295 | repeated next-reference from the first visits every node once, in order, then gives NULL |
| ListOperations.StrangersAreNowhere | lib/dplist.c:359-398 | a reference that is not in the list has no index and no neighbours, and inserting or removing at it leaves the list as it is |
| LinkedLists.List.constructor | lib/dplist.c:50-64 | an empty valid list that keeps the comparison and copy callbacks |
| LinkedLists.List.Free | lib/dplist.c:66-86 | every node is freed exactly once front to back, every element released if asked, the list itself freed and the caller's pointer NULL |
| LinkedLists.List.InsertAtIndex | lib/dplist.c:88-140 | for every integer index the chain stays acyclic and consistent in both directions and gains one node at the clamped place; the node holds the callback's copy if one is asked for, the element itself if not |
| LinkedLists.LoadCopies | datamgr.c:43-57 | the loading loop on the heap list: indices counted from 1 and copies asked for leave exactly the copies of the records, in the order of the lines |
| LinkedLists.List.UnlinkAt | lib/dplist.c:150-180 | each unlinking case takes out the node at the clamped index and relinks its neighbours |
| LinkedLists.List.RemoveAtIndex | lib/dplist.c:142-188 | for every integer index one node leaves the chain and is freed, its element released if asked; an empty list is unchanged |
| LinkedLists.List.Size | lib/dplist.c:190-204 | the number of linked nodes |
| LinkedLists.List.GetReferenceAtIndex | lib/dplist.c:206-219 | the node at the clamped index, NULL for an empty list |
| LinkedLists.List.GetElementAtIndex | lib/dplist.c:221-234 | the element at the clamped index, none for an empty list |
| LinkedLists.List.GetIndexOfElement | lib/dplist.c:236-256 | the first index whose element compares as 0, or -1 |
| LinkedLists.List.GetFirstReference | lib/dplist.c:262-269 | the first node or NULL |
| LinkedLists.List.GetLastReference | lib/dplist.c:271-278 | the last node or NULL |
| LinkedLists.List.GetNextReference | lib/dplist.c:280-295 | the node behind a reference of the list; NULL for the last, for NULL and for a stranger |
| LinkedLists.List.GetPreviousReference | lib/dplist.c:297-318 | the node before a reference of the list; the last node for NULL; NULL for a stranger |
| LinkedLists.List.GetElementAtReference | lib/dplist.c:322-343 | the element of a reference of the list, of the last node for NULL, none for a stranger |
| LinkedLists.List.GetReferenceOfElement | lib/dplist.c:345-357 | the first node whose element compares as 0, or NULL |
| LinkedLists.List.GetIndexOfReference | lib/dplist.c:359-382 | the index of a reference, of the last node for NULL, -1 for a stranger |
| LinkedLists.List.InsertAtReference | lib/dplist.c:386-398 | on nodes and elements equals the insertion at the reference's index, at the end for NULL, nothing for a stranger |
| LinkedLists.List.RemoveAtReference | lib/dplist.c:482-499 | equals the removal at the reference's index, of the last for NULL; for a stranger nodes, elements, freed and released are all as before |
| LinkedLists.List.RemoveElement | lib/dplist.c:501-515 | equals the removal at the element's index; when no element compares as 0, nodes, elements, freed and released are all as before |
| LinkedLists.List.BubblePass | lib/dplist.c:441-454 | one pass never follows NULL, changes payloads only, and stops one node left of its end |
| LinkedLists.List.BubbleSort | lib/dplist.c:434-456 | the loop with its moving end stops within as many passes as there are nodes, links untouched |
| LinkedLists.List.FindPlace | lib/dplist.c:459-477 | the second loop finds the place of a stable insertion |
| LinkedLists.List.InsertSorted | lib/dplist.c:400-480 | the heap operation computes `SortedInsertion`, with the copy in place of the element if one is asked for; old nodes keep their order and identity |
| StableSorting.StableSortCharacterised | lib/dplist.h:126-130 | a list is the reference sort if and only if it is sorted, a permutation, and keeps the order of equal elements |
| StableSorting.PassSettles | lib/dplist.c:441-454 | after a pass the element at its end and all behind it are final; without a swap the whole list is sorted |
| StableSorting.BubbleIsStableSort | lib/dplist.c:434-456 | the bubble sort equals the reference stable sort under any strict weak order |
| StableSorting.BubblePermutes | lib/dplist.c:434-456 | whatever the callback answers, no element is lost or duplicated |
| StableSorting.SortedInsertionIsStableSort | lib/dplist.c:400-480 | from any list, sorted or not: the result is the stable sort of the old elements followed by the new one |
| StableSorting.SortedInsertionPermutes | lib/dplist.c:400-480 | for any comparison callback the result holds the old elements and the new one, nothing else |
| RingBuffers.ArrayPosition | datamgr.c:104-120 | the repeated-subtraction loop computes the count modulo the window length |
| RingBuffers.RingStores | datamgr.c:121-123 | storing there keeps the last readings in the array and drops only the oldest |
| RingBuffers.RingIsRotation | datamgr.c:104-123 | a full array is the window of the last readings, rotated |
| RingBuffers.RingSum | datamgr.c:322-327 | summing the array in slot order gives the sum of the window in arrival order |
| SensorTable.ReadingsAreProjection | datamgr.c:86-127 | after any stream the node of the first line that names an id holds exactly the readings with that id, in order; a node with id 0 or shadowed by an earlier line holds none |
| SensorTable.AlertsAreProjection | datamgr.c:88-127 | the alerts about an id are those of its own readings; unmapped ids give one "invalid" message per reading |
| SensorTable.InvalidIffUnmapped | datamgr.c:86-98 | "invalid" is logged for exactly the ids other than 0 that no line of the map names, once for each reading |
| SensorTable.OnlyOwnReadingsMatter | datamgr.c:86-127 | two streams that agree on one id agree on that sensor's state and alerts |
| SensorTable.RunIgnoresBlanks | datamgr.c:86 | readings with id 0 change nothing |
| SensorTable.AverageStep | datamgr.c:321-327 | consecutive averages of a full window differ by (newest - dropped) / length |
| SensorTable.AverageBetween | datamgr.c:321-327 | a full-window average lies between any bounds of the window |
| SensorTable.AlertHasCause | datamgr.c:329-348 | an alert needs a full window with a reading beyond the limit in it, and reports the window's average |
| SensorTable.LoggedAlertHasCause | datamgr.c:69-131 | after any stream, every temperature alert in the log reports the average of a full window of that sensor's own readings, and that window holds a reading beyond the limit |
| SensorTable.AlertsReport | datamgr.c:321-357 | before the window is full: average 0 and no alert; after: too hot if and only if the sum of the last readings is above the limit times their number, too cold if and only if it is below, the cold first, each with the mean |
| SensorTable.LoggedIff | datamgr.c:69-131 | after any stream an alert with some average is in the log if and only if a reading of that mapped sensor filled a window with that average and the average is beyond the limit |
| SensorTable.HotWindowIsLogged | datamgr.c:340-348 | when the last readings of a mapped sensor have all been above the limit, the alert with their average is in the log |
| SensorTable.BothAlertsIff | datamgr.c:329-348 | one reading raises both alerts if and only if the limits cross at its average |
| DataManager.SensorNode.Record | datamgr.c:103-123 | the array and the count agree with the readings including the new one |
| DataManager.SensorNode.Total | datamgr.c:322-326 | the summation loop yields the sum of the last readings |
| DataManager.Manager.GetSensorNodeWithId | datamgr.c:226-249 | NULL if and only if no entry of the list has the id, else the entry with the least index that has it |
| DataManager.Manager.GetAvg | datamgr.c:317-358 | 0 and no log message until the window is full, then the mean of the last readings, also stored in the node, and exactly the alerts that their sum calls for, the cold one first |
| DataManager.Manager.HandleReading | datamgr.c:86-127 | one reading changes the first matching node and the log as the table says, and no other node |
| DataManager.Manager.ProcessRecord | datamgr.c:86-128 | a record with id 0 is passed over |
| DataManager.Manager.LoadSensors | datamgr.c:43-57 | inserting with indices counted from 1 yields the sensor list in file order |
| ClientScan.ScanEffect | connmgr.c:150-220 | the scan leaves the original order without the clients looked at and closed; those passed over are untouched |
| ClientScan.LeaversAlternate | connmgr.c:150-220 | of consecutive leavers behind a visited client exactly every second one is passed over |
| ClientScan.ScanReports | connmgr.c:162-218 | what a scan reports about a client is what its single visit reports, nothing if it is passed over |
| ClientScan.ScanMoves | connmgr.c:150-220 | where each client ends up: gone if visited and leaving, never further back, strictly further front when passed over |
| ConnectionManager.Manager.Accept | connmgr.c:129-147 | a new client is appended with id and timestamp 0 |
| ConnectionManager.Manager.Visit | connmgr.c:162-218 | one client's visit: receive, announce, forward, close or time out; what that means for the log of a run is `LogTells` and `LeavesIff` |
| ConnectionManager.Manager.Scan | connmgr.c:150-220 | the loop over the shrinking list terminates and computes `ScanLoop` |
| ConnectionManager.Manager.SelectRound | connmgr.c:129-220 | accepting and scanning in one round are the round of `ConnectionRuns`, on list and log |
| ConnectionRuns.EveryRunIsGood | connmgr.c:80-222 | in every run every connection lives through its own conversation as if it were alone, then closes or times out |
| ConnectionProperties.ForwardedIsSentPrefix | connmgr.c:183-206 | what a connection has forwarded is the data of a prefix of what its peer sent |
| ConnectionProperties.OpenedOnceIffTimestampsNonZero | connmgr.c:191-202 | closed at most once; announced exactly once if and only if no reading before the latest has timestamp 0 |
| ConnectionProperties.AnnouncedTwice | connmgr.c:191-200 | a run, for any connection, in which a first reading with timestamp 0 leads to two announcements |
| ConnectionProperties.OpenedBeforeForwarded | connmgr.c:191-206 | in every run no reading is forwarded before its connection is announced |
| ConnectionProperties.SilentAfterRemoval | connmgr.c:167-217 | after its removal a connection is never listed, logged or forwarded again |
| ConnectionProperties.BoundedBypass | connmgr.c:144-220 | over any run a client at position p is passed over at most p times |
| ConnectionLogs.LogTells | connmgr.c:167-202 | in every run: an announcement is followed at once by the reading it announces, with the same id; a reading is announced if and only if the one before it had timestamp 0 or there was none; a closing message carries the id of the latest announcement, 0 if there was none |
| ConnectionLogs.LeavesIff | connmgr.c:162-218 | in every reachable state and round: a listed client leaves if and only if it is looked at and its peer has closed or, with nothing to read, its latest forwarded reading has a timestamp other than 0 that is at least the time-out before the clock; the time-out is logged exactly then |
| Gateway.EveryRunIsGood | main.c:107-135 | the global invariant holds in every reachable state of the threads and main |
| GatewayProperties.EndToEnd | datamgr.c:69-131 | in every reachable state: handled readings plus the one in hand, insert attempts plus the one in hand, the table once the one in hand is worked on, and the buffer are functions of prefixes of the one history |
| GatewayProperties.SensorHoldsItsHistory | datamgr.c:69-131 | in every reachable state a sensor's readings, with the one in hand, are its share of the history read so far, and its alerts are those of its readings |
| GatewayProperties.InterleavingIndependence | sensor_db.c:132-157 | two drained runs with the same insertions end with the same table, alerts and insert attempts |
| GatewayProperties.RemovalsDrain | sbuffer.c:45-96 | without insertions a reader's cursor moves by its own removals up to the end, whatever the other does |
| GatewayProperties.BoundedDelivery | sbuffer.c:45-119 | under any insertions and any scheduling of the rest, a looping reader has finished with all that was in the history after four of its own steps for each waiting reading and one more |
| GatewayProperties.NoInsertAfterJoin | main.c:117-120 | once the connection manager has ended nothing is inserted |
| GatewayProperties.ThreeAttemptsAtMost | main.c:187-194 | the database is tried at most three times |
| GatewayProperties.NothingLeavesWithoutDatabase | main.c:194-197 | without a database nothing is stored and the buffer keeps the whole history |
| GatewayProperties.GivingUpStopsNothing | main.c:187-197 | a run in which three attempts fail, the storage thread has ended, and main still waits while readings can be inserted |
| GatewayProperties.ClosesWithConnmgrOnly | main.c:116-120 | in every run main lowers the run flags only after the connection manager has ended, whatever the database does |
| GatewayShutdown.ShutdownCursor | main.c:117-122 | once its flag is down a reader's final cursor is decided by its phase |
| GatewayShutdown.ConnectingShutdown | main.c:187-200 | a storage manager still connecting takes one more reading if an attempt succeeds and none otherwise |
| GatewayShutdown.ShutdownDeliversIff | main.c:117-122 | from any phase: where a stopping reader ends, that it gets everything if and only if its backlog was at most what its phase still allows, and what it has finished |
| GatewayShutdown.ShutdownLoses | main.c:117-135 | a completed run after which both readers have finished the first of two readings and main frees the second |
| GatewayShutdown.ResidueAtShutdown | main.c:131-135 | what main prints and frees is the history from the slower cursor on |
| GatewayShutdown.StoppingReaderEnds | datamgr.c:69-131 | once its flag is down a reader takes at most as many steps as its phase leaves it, and each of them brings it closer to its exit |
| GatewayShutdown.ShutdownTerminates | main.c:119-135 | with both flags down every run is bounded, for any scheduling |
| GatewayShutdown.NeverStuck | main.c:107-135 | in every reachable state some thread can take a step until main has finished |
| GatewayShutdown.CanAlwaysClose | main.c:116-135 | every run in which the connection manager has ended can be continued until main has finished |
| Pipeline.RunProjects | main.c:107-114 | a run of the whole gateway is a run of the connection manager and a run of the other threads |
| Pipeline.EveryRunConserves | connmgr.c:203-205 | in every reachable state the insertion history followed by what is still to be inserted is all that was forwarded, in order |
| PipelineDelivery.AllInBeforeTheEnd | connmgr.c:122-205 | when the connection manager has ended, and whenever a round can begin, the history is all that has been forwarded |
| PipelineDelivery.ForwardedGoesIn | connmgr.c:203-205 | every run can be continued, with the same sockets and no other thread moving, until all that was forwarded is in the history; then the next round or the end can follow |
| Pipeline.HistoryIsMerge | connmgr.c:183-206 | in every reachable state, whatever ids the connections report: the history with what is still to be inserted holds of each connection exactly the data received on it, in order, a prefix of what its peer sent; so does any part of the history that a reader has got through |
| Pipeline.SocketToSensor | connmgr.c:150-220 | in every reachable state of the whole gateway and for any connection: what each reader has got of it under an id is a prefix of what its peer sent, whoever else reports the id; if none does, what the readers have worked on is such a prefix; the sensor's readings and alerts are those of what the data manager has worked on |
| PipelineDelivery.ReaderCatchesUp | sensor_db.c:132-157 | from every reachable state a looping reader can finish with the whole history by its own steps alone |
| PipelineDelivery.EveryScheduleDelivers | datamgr.c:69-131 | in every run of the whole gateway, with any further traffic: after four of its own steps for each waiting reading and one more, a looping reader has finished with all that was in the history |
| PipelineDelivery.PeerIsServed | connmgr.c:150-206 | every run in which a peer is connected can be continued, with nothing else sent, until all it has sent up to its closing has been taken |
| PipelineDelivery.SentCanBeDelivered | connmgr.c:129-206 | from every reachable state with the connection manager at work, for a peer that is connected or waits to be accepted: the run can go on until the history holds all the data it has sent before closing, the data manager has handled the whole history and the table is that of the history, and the storage manager, unless it has given up, has tried to insert all of it |

## Left out

- TCP sockets, `select` and `fcntl` (`lib/tcpsock.c`): a round gets the readable connections and the packet waiting on each; a measurement arrives whole.
- Invalid socket descriptors and reuse of descriptors: each accepted connection has a number of its own.
- SQL in `sensor_db.c`: an insert is an attempt, as the storage manager ignores its result.
- The FIFO, the log process, `fork` and signals: log messages are a sequence of events.
- Parsing of `room_sensor.map`: the map is a sequence of (room, sensor) pairs.
- `datamgr_parse_sensor_files`: the same ring update over a file.
- Last-modified times and room lookups: the reader loop stores the id in the timestamp field (`datamgr.c:101`).
- Floating-point rounding and the width of `int`: temperatures are reals and counts are unbounded.
- Allocation failure and `exit` paths: allocation succeeds.
- NULL list arguments: references are non-null by type.
- LinkedLists.List.constructor: `element_copy` is a function on values, so the allocation it makes is not modelled; calls of `element_free` are recorded in `released`, not made.
- DataManager.Manager.LoadSensors: the list of sensor nodes is a sequence changed by the operations that LinkedLists proves for `dpl_insert_at_index`, so node links of that list are not modelled again.
- ConnectionManager.Manager.Scan: the client list is a sequence in the same way, and the clock is one reading per client and round.
- Data races on the run flags: a flag is read and written in one step.
- Identity of the calling thread: a parameter in place of `pthread_self`.
- Sockets of clients still connected at shutdown: the code closes only the listener.
