# Verification of the ADS-B recorder's in-memory indexes and protocols

The recorder keeps small pieces of state in memory that must agree with tables,
queues and files. This project models those pieces in Dafny and proves that they do.

- **Flight index** (`FlightIds`, `FlightIndex`, `Segmentation`, `FlightIntervals`,
  `IncrementalFlights`, `ExactTable`, `FlightCallsigns`, `BootstrapQuery`,
  `TrackerRebuild`, `FlightStore`, `FlightRuns`, `Trajectories`).
  A batch insert cuts each aircraft's positions into flights with a tracker, a list of
  new flights and one aggregated update per flight. `FlightStore.Storage` does this in
  place; inserting a batch, pruning, importing and reopening are each proved to be one
  `Step` of the runs in `FlightRuns`. The batch insert is proved
  against `InsertOne`, which files a single position.
  `Segmentation` says what a flight is without any tracker: an aircraft's timestamps,
  cut where the next one comes more than the gap later. `BootstrapQuery` is the SQL
  migration with LAG, a RANGE window sum and GROUP BY. The query always gives the
  segmentation; the tracker loop gives it exactly when every position is well placed
  (`ExactTable`). `FlightIntervals` says where declarative flights lie in time.
  `TrackerRebuild` and `FlightRuns` add reopens, prunes and imports. `Trajectories`
  proves which flights the interval join gives each stored position.
- **Feed client** (`LineFraming`, `Fanout`, `FeedClient`, `Backoff`). Lines are framed
  from arbitrary chunks and connections, messages fan out to forwarders with bounded
  retry queues, and reconnects are paced. A forwarder's `is_connected` and `send` are
  an oracle.
- **Ingest window** (`IngestWindow`, `IngestPipeline`). The merge buffer and the count
  map of one flush window.
- **Weather recording** (`WeatherRecording`). A last-hour filter in front of a table
  that dedupes by itself. Retained messages are delivered again on every reconnect
  (section 3.3.1.3 of MQTT Version 3.1.1).
- **Enable/disable command** (`ControlProtocol`). Persist, then publish, as a state
  machine with two writers, failed writes and crashes at every step. The sequential
  code is a class whose methods are proved to take exactly the machine's steps.
- **Import, sectors, scenario tracks** (`ImportJoin`, `DatabaseImport`,
  `DetectionSectors`, `ScenarioTracks`).

The flights table is keyed by aircraft and number instead of by the text of
`flight_id`; `FlightIds.StoredByTextIsByKey` proves that this is the same table.
Timestamps are integers, altitudes and bearings are reals. `gap_threshold_ms` is taken
as non-negative where flights are compared with the declarative segmentation. An order
that SQL leaves open is a parameter (`WindowOrders`) or an arbitrary choice.

Where a promise holds only under a condition, the condition is exact:

- A position is well placed if it does not come before the flight it extends, and
  comes more than the gap after the end of the one before if it opens a flight. The
  flights table is that of the segmentation if and only if every position was well
  placed (`TableIsExactIffWellPlaced`). A late position, earlier than its aircraft's
  last one, can spoil the table (`LatePositionSpoilsTable`), and then for good
  (`MisplacedIsForGood`), or be harmless to it (`LatePositionCanBeHarmless`).
  In-order positions are all well placed.
- A late position moves the tracker back behind its row: from an exact index, one
  insert keeps tracker and table exact if and only if the position is not late
  (`IndexStaysExactIff`). Over a run the whole index is exact if and only if every
  position was well placed and the tracker ends level with its rows
  (`IndexIsExactIff`). A reopen changes nothing if and only if the tracker is level
  and there is nothing to migrate (`ReopenIsInvisible`; `LateArrivalBreaksRestart`).
- Reopens and imports leave the index that of the on-time arrivals if and only if no
  reopen migrates imported rows (`RunsAreTransparent`; `EarlyImportIsVisible`). No
  reopen does if every import comes after the first flight (`NoEarlyImportIsQuiet`).
- The trajectory join gives every arrival the flight it was filed under, and no other,
  if and only if every position was placed (`JoinIsExactIffPlaced`;
  `LatePositionIsLost`). On an exact table a stored row joins with its own flight if
  that flight spans it, and with none otherwise (`MatchesOwnFlight`). Arrivals are
  always spanned, imported rows need not be (`ImportedRowCanBeLost`).
- The migration query keeps the greatest callsign, the insert path the last one. The
  rows agree if and only if the last is the greatest (`CallsignAgreement`;
  `CallsignsCanDiffer`).
- A queue with cap 0 still holds one message (`CapZeroHoldsOne`), and a live message
  overtakes the queue if and only if there is one (`OvertakesIffBacklog`;
  `LiveMessageOvertakes`).
- A partial reorder keeps ordinals distinct if and only if no unlisted track sits at a
  position that is handed out (`ReorderKeepsDistinctIff`; `StaleReorderCollides`).
  Deleting a scenario that was never created fails and keeps its tracks
  (`DeleteScenarioIff`; `TrackOutlivesItsScenario`).
- An import keeps keys unique if and only if the imported rows do not repeat one
  among themselves (`UniquenessAfterImport`; `RepeatedKeyImportsTwice`). Weather keeps
  one row per source and model hour if and only if every import was clean in this way
  (`OneRowPerHour`).

Where the code and its own words differ, the model follows the code:

- The overflow error is worded "{current} bytes exceeds limit", but the length is read
  after the buffer was cleared, so `current` is always 0
  (rust/adsb-pulsar-client/src/client.rs:425-428).
- The rebuild is said to let updates "resume correctly"; after a late position the
  rebuilt last-seen time is later than the live one
  (rust/adsb-data-engine/src/storage.rs:480-481, 631, 689).

## Model

| member | source | states |
|---|---|---|
| FlightIds.TextIsInjective | rust/adsb-data-engine/src/storage.rs:639 | The text `hex_number` determines address and number, even when the address contains underscores |
| FlightIds.StoredByTextIsByKey | rust/adsb-data-engine/src/storage.rs:122-132 | Looking up, inserting and updating by `flight_id` is doing so by address and number |
| FlightIndex.AccumulateIsUpdateTwice | rust/adsb-data-engine/src/storage.rs:605-628 | Folding a position into a pending aggregate and applying it once equals applying two updates, null altitudes and callsigns included |
| FlightIndex.NewFlightIsFresh | rust/adsb-data-engine/src/storage.rs:633-639 | A new flight never meets its own primary key |
| FlightIndex.InsertOneKeepsWellFormed | rust/adsb-data-engine/src/storage.rs:600-661 | Table and tracker agree after every position, in any order: numbers without holes, tracker at the highest, never ahead of its row |
| FlightIndex.PositionCountsAddUp | rust/adsb-data-engine/src/storage.rs:664-708 | The position counts of all flights grow by exactly the number of positions inserted, in any order |
| FlightStore.Storage.QueueBatch | rust/adsb-data-engine/src/storage.rs:595-661 | The queued inserts and aggregates, applied to the table, and the tracker equal filing the batch one position at a time, in any timestamp order |
| FlightStore.Storage.RunInserts | rust/adsb-data-engine/src/storage.rs:664-684 | The new flights go in without ever meeting an existing key |
| FlightStore.Storage.RunUpdates | rust/adsb-data-engine/src/storage.rs:687-708 | One update per flight, in any map order, leaves every row with its own aggregate and no other |
| FlightStore.Storage.InsertBatch | rust/adsb-data-engine/src/storage.rs:531-712 | Exactly the batch is appended to the positions table, in order, and table and tracker end as if the positions had been filed singly (the naive form of rust/adsb-data-engine/src/storage.rs:6002-6068) |
| FlightStore.Storage.BootstrapFlights | rust/adsb-data-engine/src/storage.rs:419-466 | The migration runs only on an empty flights table with positions, and then gives the declarative segmentation |
| FlightStore.Storage.RebuildTracker | rust/adsb-data-engine/src/storage.rs:482-524 | The refilled tracker is the latest row of each aircraft, whatever order the rows come in |
| FlightStore.Storage.Reopen | rust/adsb-data-engine/src/storage.rs:317-320 | Whatever the tracker held, the index after opening is determined by the two tables alone |
| FlightStore.Storage.Prune | rust/adsb-data-engine/src/storage.rs:1320-1345 | Every row at or after the cutoff keeps its multiplicity, no earlier row stays, the result counts the rows before the cutoff, and flights and tracker stay |
| FlightStore.Storage.ImportPositions | rust/adsb-data-engine/src/storage.rs:3177-3189 | A source row is added, as often as the source has it, if and only if no stored row has its address and timestamp; flights and tracker stay |
| Segmentation.StartBelow | rust/adsb-data-engine/src/storage.rs:452-454 | Every timestamp falls in some flight |
| Segmentation.AppendLatest | rust/adsb-data-engine/src/storage.rs:452-454 | A latest timestamp leaves earlier flight numbers alone and opens a flight exactly when it is more than the gap after all |
| Segmentation.NeighboursShareIffWithinGap | rust/adsb-data-engine/src/storage.rs:447-454 | The earliest timestamp is in flight 0; of two neighbours the later is in the same flight if it comes at most the gap after, and in the next one otherwise |
| Segmentation.RowMeans | rust/adsb-data-engine/src/storage.rs:458-465 | A flight has a row if and only if it has positions; the row holds their number and the least and greatest of their timestamps, known altitudes and callsigns |
| Segmentation.GroupRowPermutation | rust/adsb-data-engine/src/storage.rs:458-465 | The aggregates of a group do not depend on its row order |
| BootstrapQuery.RunningSumCountsStarts | rust/adsb-data-engine/src/storage.rs:447-456 | The window sum over LAG breaks, with its RANGE frame, counts the starts of flights, ties included |
| BootstrapQuery.BootstrapIsSegmentation | rust/adsb-data-engine/src/storage.rs:444-466 | The migration query gives the declarative segmentation, whatever order the engine picks among equal timestamps |
| BootstrapQuery.StableOrdersAreOrders | rust/adsb-data-engine/src/storage.rs:448 | Such an order always exists |
| BootstrapQuery.RowOrderIsIrrelevant | rust/adsb-data-engine/src/storage.rs:444-466 | The table does not depend on the order of the positions rows |
| IncrementalFlights.IndexStaysExactIff | rust/adsb-data-engine/src/storage.rs:604-659 | From an exact index, one insert keeps table, tracked flights and last-seen times exact if and only if the position is not late |
| IncrementalFlights.IncrementalEqualsDeclarative | rust/adsb-data-engine/src/storage.rs:444-466 | For in-order arrivals, aircraft interleaved freely, the tracker loop gives the segmentation in keys, count, first and last seen and altitudes |
| ExactTable.TableIsExactIffWellPlaced | rust/adsb-data-engine/src/storage.rs:604-708 | From any aligned index and for arrivals in any order, the flights table is the segmentation of all positions, callsigns aside, if and only if each arrival was well placed when it came |
| ExactTable.FreshTableIsExactIffWellPlaced | rust/adsb-data-engine/src/storage.rs:444-466 | The same for a fresh store; in-order arrivals are all well placed |
| ExactTable.IndexIsExactIff | rust/adsb-data-engine/src/storage.rs:604-708 | The whole index is exact after a run if and only if every arrival was well placed and the tracker ends level with its rows |
| ExactTable.MisplacedIsForGood | rust/adsb-data-engine/src/storage.rs:687-697 | After a misplaced position no later arrivals make the table that of the positions again |
| ExactTable.FiledUnderOwnFlight | rust/adsb-data-engine/src/storage.rs:604-639 | The flight the tracker files a well placed arrival under is its flight in the segmentation of all arrivals, later ones included |
| ExactTable.LatePositionSpoilsTable | rust/adsb-data-engine/src/storage.rs:687-697 | 95 after 100 leaves a row whose first timestamp is not its flight's |
| ExactTable.LatePositionCanBeHarmless | rust/adsb-data-engine/src/storage.rs:687-697 | 95 after 90 and 100 is late, and the table is still exact |
| FlightIntervals.SegTableApart | rust/adsb-data-engine/src/storage.rs:450-466 | An aircraft's declarative flights lie in the order of their numbers, more than the gap apart |
| FlightIntervals.MemberIffCovered | rust/adsb-data-engine/src/storage.rs:450-466 | A position is a member of a flight if and only if the flight's interval covers it |
| FlightCallsigns.CallsignAgreement | rust/adsb-data-engine/src/storage.rs:461 | For well placed arrivals the callsign too agrees if and only if the flight's last known callsign is its greatest |
| FlightCallsigns.LastCallsignBound | rust/adsb-data-engine/src/storage.rs:691 | The last known callsign is that of some position after which none has one, and null only if none is known |
| FlightCallsigns.CallsignsCanDiffer | rust/adsb-data-engine/src/storage.rs:691 | A flight that changes from "B" to "A" keeps "A" incrementally and gets "B" from the query |
| TrackerRebuild.RebuiltNamesSameFlight | rust/adsb-data-engine/src/storage.rs:490-522 | After any arrivals the rebuilt entry names the same flight and is never earlier |
| TrackerRebuild.ReopenIsInvisible | rust/adsb-data-engine/src/storage.rs:434-436 | A reopen changes nothing if and only if nothing needs bootstrapping and every tracker entry is level with its row |
| TrackerRebuild.InsertKeepsRestartable | rust/adsb-data-engine/src/storage.rs:629-631 | An insert keeps the rebuilt and the live tracker equal if and only if the position is not late |
| TrackerRebuild.LateArrivalBreaksRestart | rust/adsb-data-engine/src/storage.rs:631 | A late position makes the rebuilt tracker differ |
| Segmentation.NumbersAreReached | rust/adsb-data-engine/src/storage.rs:452-454 | The segmentation numbers an aircraft's flights without a hole |
| TrackerRebuild.OpenedIsIndexed | rust/adsb-data-engine/src/storage.rs:317-320 | Opening a store with positions and no flights indexes exactly those positions, in whatever order they were stored |
| FlightRuns.EveryRunIsWellFormed | rust/adsb-data-engine/src/storage.rs:317-320 | Table and tracker agree after any run of batches, prunes, imports and reopens, from any store where they do |
| FlightRuns.EveryRunNumbersDensely | rust/adsb-data-engine/src/storage.rs:633-639 | In every reachable state an aircraft's flights are numbered 0..n-1, the tracker holds n-1 and identifiers are unique |
| FlightRuns.PlainRunsKeepArrivals | rust/adsb-data-engine/src/storage.rs:551-572 | Without prunes and imports the positions table is what was there and what arrived, in order |
| FlightRuns.RowsOfRun | rust/adsb-data-engine/src/storage.rs:1320-1345 | After any run a row is stored as often as it was found, arrived or was imported, not counting what a later prune cut off |
| FlightRuns.RunsAreTransparent | rust/adsb-data-engine/src/storage.rs:419-524 | With on-time arrivals, from a fresh or migrated store, a run of batches, prunes, imports and reopens gives the index of filing the arrivals singly if and only if no reopen migrates, and that index is the segmentation of what was found and arrived |
| FlightRuns.NoEarlyImportIsQuiet | rust/adsb-data-engine/src/storage.rs:434-436 | No reopen migrates if no import comes before the first flight |
| FlightRuns.EarlyImportIsVisible | rust/adsb-data-engine/src/storage.rs:434-436 | An import into an empty store and a reopen number the imported row |
| FlightRuns.CutsAndReopensAreInvisible | rust/adsb-data-engine/src/storage.rs:531-712 | Two runs with the same in-order arrivals in which no reopen migrates end with the same index, however they are batched, pruned, imported into and reopened |
| FlightRuns.RunConservesPositions | rust/adsb-data-engine/src/storage.rs:690 | Over every run, in any arrival order and with imports and reopens, position counts grow by exactly the arrivals and the positions a reopen migrates |
| FlightRuns.SegTableCounts | rust/adsb-data-engine/src/storage.rs:444-466 | The migration counts every position exactly once |
| Trajectories.PlacedArrivalsAreInside | rust/adsb-data-engine/src/storage.rs:604-659 | Placed arrivals lie in their flight's interval, and an aircraft's intervals are disjoint and in order |
| Trajectories.InOrderIsSpaced | rust/adsb-data-engine/src/storage.rs:604-659 | For in-order arrivals an aircraft's flights are more than the gap apart, and every arrival is placed |
| Trajectories.JoinedCount | rust/adsb-data-engine/src/storage.rs:999-1022 | On any tables the query returns a row with a flight as often as the row is stored if the row is located, inside the window and inside the interval of that flight of its aircraft, ends included, and not at all otherwise |
| Trajectories.JoinIsExactIffPlaced | rust/adsb-data-engine/src/storage.rs:1005-1008 | The join gives every arrival its own flight and no other if and only if every arrival was placed |
| Trajectories.MatchesOwnFlight | rust/adsb-data-engine/src/storage.rs:1005-1008 | On the table of any positions, bootstrapped or incremental, any position joins with its own flight if that spans it, and with none otherwise; the positions themselves always do |
| Trajectories.TrajectoriesAreExact | rust/adsb-data-engine/src/storage.rs:999-1022 | After a run with on-time arrivals in which no reopen migrates, imports and prunes included, the query returns a located row inside the window, as often as it is stored, with its own flight if that spans it, and nothing else; arrived rows are always spanned |
| Trajectories.EveryArrivalIsReturned | rust/adsb-data-engine/src/storage.rs:999-1022 | Without prunes and imports it returns every located position that was found or arrived inside the window, as often as it did, with its own flight and no other |
| Trajectories.ImportedRowCanBeLost | rust/adsb-data-engine/src/storage.rs:999-1022 | A located imported row between two flights is stored and joins with nothing |
| Trajectories.LatePositionIsLost | rust/adsb-data-engine/src/storage.rs:687-697 | A position filed under a flight that begins after it joins with nothing |
| LineFraming.SplitRejoins | rust/adsb-pulsar-client/src/client.rs:433-440 | Splitting loses no byte and leaves no newline in a line or the residue |
| LineFraming.SplitIsUnique | rust/adsb-pulsar-client/src/client.rs:433-440 | Any newline-free lines and residue that rejoin to the stream are its split |
| LineFraming.MessagesHaveText | rust/adsb-pulsar-client/src/client.rs:433-440 | The messages are the lines with a byte other than tab, line feed, form feed, carriage return and space; no line holds byte 10 |
| LineFraming.SmallStream | rust/adsb-pulsar-client/src/client.rs:433-440 | "a", a blank line, "b" and an unfinished line give the messages "a", "b" in order and the residue |
| LineFraming.ChunksDoNotMatter | rust/adsb-pulsar-client/src/client.rs:415-443 | Without overflow, the messages are those of each connection's whole stream and the residue is the open connection's, for any chunking and any reconnects |
| LineFraming.BufferIsBounded | rust/adsb-pulsar-client/src/client.rs:418-429 | After every call the buffer is within the limit and holds no newline |
| FeedClient.Client.ProcessBuffer | rust/adsb-pulsar-client/src/client.rs:415-443 | One call fails exactly if buffer and data together exceed the limit, and then clears the buffer and counts an error; otherwise it returns the messages of buffer and data and keeps the residue |
| FeedClient.Client.Disconnected | rust/adsb-pulsar-client/src/client.rs:199 | A lost connection is the modelled input that drops the partial line |
| FeedClient.Client.EnqueueRetry | rust/adsb-pulsar-client/src/client.rs:510-525 | The message goes last, a message is lost only if the queue held the cap, and then it is the oldest; other queues stay and the metric becomes the sum of queue lengths |
| FeedClient.Client.ForwardMessage | rust/adsb-pulsar-client/src/client.rs:449-507 | Each forwarder takes its turn and no other lane changes; test mode touches none |
| FeedClient.Client.DrainRetryQueue | rust/adsb-pulsar-client/src/client.rs:528-573 | A prefix of the queue is delivered and a failed head stays in place |
| FeedClient.Client.HousekeepingTick | rust/adsb-pulsar-client/src/client.rs:391-398 | A tick drains every connected forwarder, and no other |
| FeedClient.Client.Receive | rust/adsb-pulsar-client/src/client.rs:347-363 | One read frames its bytes, counts every message as sent and every failed send as an error, and forwards each, in order, to every forwarder; an overflow forwards nothing and is one error; test mode sends nothing |
| Fanout.QueueIsBounded | rust/adsb-pulsar-client/src/client.rs:512-521 | A queue never exceeds max(1, cap) over any run |
| Fanout.CapZeroHoldsOne | rust/adsb-pulsar-client/src/client.rs:512-521 | The bound `cap` itself fails exactly for cap 0 |
| Fanout.StepMeans | rust/adsb-pulsar-client/src/client.rs:486-573 | A live message is delivered if it is taken and queued last otherwise, a full queue losing its oldest; a tick delivers from the front until a send fails or 500 went out |
| Fanout.OutageKeepsNewest | rust/adsb-pulsar-client/src/client.rs:510-521 | Over an outage of any length the queue is the last min(n, max(1, cap)) arrivals, in order, and exactly the others are dropped |
| Fanout.RunAccounts | rust/adsb-pulsar-client/src/client.rs:486-573 | By arrival number, each message is exactly one of delivered, queued or evicted; queue and evictions are in order, evictions older |
| Fanout.EveryMessageIsSomewhere | rust/adsb-pulsar-client/src/client.rs:486-573 | The messages themselves are where the numbered run accounts for them |
| Fanout.OvertakesIffBacklog | rust/adsb-pulsar-client/src/client.rs:491-492 | A live message that is taken overtakes the queue exactly when there is one |
| Fanout.LiveMessageOvertakes | rust/adsb-pulsar-client/src/client.rs:491-492 | From an empty start, a message queued while offline is delivered after the next live one |
| Fanout.BacklogShrinks | rust/adsb-pulsar-client/src/client.rs:538-561 | A healthy forwarder works its backlog off from the front, 500 a tick |
| Fanout.BacklogEmpties | rust/adsb-pulsar-client/src/client.rs:28 | A backlog of n is gone after ceil(n / 500) ticks, and not before |
| Fanout.ForwardersAreIsolated | rust/adsb-pulsar-client/src/client.rs:486-500 | Each forwarder fares over every run as it would alone |
| Fanout.GaugeIsTotal | rust/adsb-pulsar-client/src/client.rs:523-524 | The retry-queue metric is the sum of queue lengths over every run |
| Fanout.TotalCountsWaiting | rust/adsb-pulsar-client/src/client.rs:523-524 | That sum is the number of waiting messages of all forwarders |
| Backoff.DelayIsMonotone | rust/adsb-pulsar-client/src/backoff.rs:41-45 | The delay never shrinks with the attempt and never passes the ceiling |
| Backoff.DelayDoubles | rust/adsb-pulsar-client/src/backoff.rs:41-45 | The delay starts at the base and doubles for 32 retries, saturating at 2^64 - 1 and under the ceiling |
| Backoff.DelayReachesCeiling | rust/adsb-pulsar-client/src/backoff.rs:41-45 | The ceiling is reached if and only if 2^32 times the base, saturated, reaches it |
| Backoff.DefaultDelays | rust/adsb-pulsar-client/src/backoff.rs:26-35 | 100 ms doubling eight times, then 30 s for good |
| Backoff.ReconnectMeans | rust/adsb-pulsar-client/src/forwarder/mqtt_forwarder.rs:116-156 | After a connection that held 30 s or more the next poll comes 100 ms later and the counter is 1; otherwise the sleep is the counter's delay and it counts on, saturating |
| Backoff.CounterCountsSinceRecovery | rust/adsb-pulsar-client/src/backoff.rs:58-66 | Over any drops the counter is the number of drops since the last connection that held; connections that do not hold never reset it |
| Backoff.StormWaitsLongest | rust/adsb-pulsar-client/src/backoff.rs:58-66 | From the tenth connection in a row that does not hold, every retry waits 30 s |
| Backoff.ReconnectPaysItsWay | rust/adsb-pulsar-client/src/forwarder/mqtt_forwarder.rs:116-156 | One pass of the error branch pays for its reconnect out of time passed and stored credit |
| Backoff.ReconnectsArePaced | rust/adsb-pulsar-client/src/source/mqtt_source.rs:258-298 | N reconnects take at least 6000 N - 29700 ms, whatever the connections do |
| Backoff.BoundIsTight | rust/adsb-pulsar-client/src/backoff.rs:26-45 | Six failures in a row attain the bound |
| IngestWindow.MergeIsAssociative | rust/adsb-data-engine/src/ingest.rs:295-313 | Merging is associative |
| IngestWindow.BufferIsPerAircraft | rust/adsb-data-engine/src/ingest.rs:295-313 | A buffered entry is its own aircraft's messages merged; aircraft never affect each other |
| IngestWindow.WindowSplits | rust/adsb-data-engine/src/ingest.rs:295-313 | Absorbing a window is merging the buffers of its two halves, wherever it is split |
| IngestWindow.EntriesAreLastKnown | rust/adsb-data-engine/src/ingest.rs:286-313 | Every field is the last known value in the window, the timestamp the newest message's |
| IngestWindow.BatchMeans | rust/adsb-data-engine/src/ingest.rs:239-250 | Every entry of a flushed batch has the last known value of each field among its own aircraft's messages, and their number; every sender has exactly one entry |
| IngestWindow.BatchAccountsForWindow | rust/adsb-data-engine/src/ingest.rs:239-250 | The message counts of a flushed batch add up to the window's messages, whatever order the map drains in |
| IngestPipeline.Pipeline.MergeIntoBuffer | rust/adsb-data-engine/src/ingest.rs:295-313 | No other aircraft's entry changes; whatever messages the entry summarised, each field the last known one, it now summarises them and the new one |
| IngestPipeline.Pipeline.Absorb | rust/adsb-data-engine/src/ingest.rs:197-229 | Buffer and counts keep the same keys with counts of at least 1, and parsed messages equal those handed on plus those pending |
| IngestPipeline.Pipeline.Flush | rust/adsb-data-engine/src/ingest.rs:232-256 | Exactly one entry per aircraft of the window is handed on, each field the last known one and the count that of its messages; the maps end empty, and conservation is kept |
| WeatherRecording.FilterIsInvisible | rust/adsb-data-server/src/weather.rs:108-141 | The last-hour filter never changes what is stored, over repeated deliveries, failures, imports and restarts |
| WeatherRecording.FilterMattersIffForgotten | rust/adsb-data-server/src/weather.rs:44-55 | One delivery is stored differently with and without the filter exactly when the remembered hour is not in the table |
| WeatherRecording.RedeliveryIsFiltered | rust/adsb-data-server/src/weather.rs:108-141 | A stored hour's redelivery is a duplicate until a restart; a failed insert is not remembered and is tried again |
| WeatherRecording.UnusablePayloads | rust/adsb-data-server/src/weather.rs:44-55 | Exactly an empty payload clears and an undecodable one is rejected, with its reason, and neither changes table or filter |
| WeatherRecording.OneRowPerHour | rust/adsb-data-engine/src/storage.rs:1823-1853 | Over every run there is at most one row per source and model hour if and only if there was at the start and every import brought what was missing once |
| WeatherRecording.UniqueSourcesAreClean | rust/adsb-data-engine/src/storage.rs:3209-3222 | Imports of sources without repeated keys are clean |
| WeatherRecording.FirstPayloadWins | rust/adsb-data-engine/src/storage.rs:1823-1853 | From any table and over any run, imports included, the rows of a source and hour are those there at the start, or else the first usable payload that reached a working store or the first imported rows |
| WeatherRecording.WeatherStore.InsertWeatherSnapshot | rust/adsb-data-engine/src/storage.rs:1808-1856 | The row goes in under the store's own identity unless the hour is there, and the result says which |
| WeatherRecording.WeatherStore.PersistWeather | rust/adsb-data-server/src/weather.rs:105-150 | The recording loop ends with the table of the modelled run |
| ControlProtocol.RunsAreSound | rust/adsb-weather-server/src/state_file.rs:145-160 | Memory, file and channel keep to their invariant over every interleaving of two writers, failures, crashes and restarts |
| ControlProtocol.PublishedIsOnDisk | rust/adsb-weather-server/src/control.rs:46-57 | A setting is on disk when it is published |
| ControlProtocol.PublishedIsTheCommand | rust/adsb-weather-server/src/control.rs:46-57 | Over every interleaving what is put out is what the command that holds the lock asked for |
| ControlProtocol.DifferOnlyUnderLock | rust/adsb-weather-server/src/control.rs:17-19 | Disk and channel differ only while a command holds the lock |
| ControlProtocol.FileIsNeverTorn | rust/adsb-weather-server/src/cache.rs:38-48 | The file is always the one found or a whole one |
| ControlProtocol.StepLeavesOldOrNew | rust/adsb-weather-server/src/cache.rs:41-48 | Only the rename replaces the file, and then by the whole new setting |
| ControlProtocol.WakesCountChanges | rust/adsb-weather-server/src/control.rs:51-55 | Subscribers are woken exactly when the setting changes |
| ControlProtocol.FailedCommandChangesNothing | rust/adsb-weather-server/src/control.rs:44-48 | A command that ends without publishing leaves file, memory and channel alone |
| ControlProtocol.SettingSurvives | rust/adsb-weather-server/src/state_file.rs:139-160 | A setting in force survives any crashes, restarts and refresher writes until the next command |
| ControlProtocol.NotBeforeSurvives | rust/adsb-weather-server/src/state_file.rs:145-160 | The refresher's time reaches the file and changes no setting, and survives commands, failed writes, crashes and restarts until its next write |
| ControlProtocol.FirstStartIsEnabled | rust/adsb-weather-server/src/state_file.rs:51-58 | Without a readable file a service starts enabled and with nothing put off |
| ControlProtocol.Control.constructor | rust/adsb-weather-server/src/control.rs:23-30 | A start publishes the stored setting, or the default for a missing or unreadable file |
| ControlProtocol.Control.WriteAtomic | rust/adsb-weather-server/src/cache.rs:41-48 | Where the write stops decides what the temporary file holds; the file changes only on success |
| ControlProtocol.Control.Update | rust/adsb-weather-server/src/state_file.rs:145-160 | Written before applied; a change of nothing does not touch the disk |
| ControlProtocol.Control.SetEnabled | rust/adsb-weather-server/src/control.rs:46-57 | One command takes exactly the protocol's steps; if it succeeds, memory, channel and file hold what was asked and the time stays, otherwise memory, channel and file stay |
| DetectionSectors.SectorFormulasAgree | rust/adsb-data-engine/src/storage.rs:1459-1463 | The SQL sector equals `bearing_to_sector` of the bearing for every angle, and is one of 36 |
| DetectionSectors.SectorMeansWithin | rust/adsb-data-engine/src/geo.rs:50-63 | The sector is i if and only if the angle is in [10i-5, 10i+5) up to whole turns |
| DetectionSectors.MergeRows | rust/adsb-data-engine/src/storage.rs:1514-1544 | Each of the 36 sectors is the merge of its own rows; rows outside are ignored |
| DetectionSectors.OneRowShows | rust/adsb-data-engine/src/storage.rs:1526-1544 | With one row per sector, as GROUP BY yields, a sector shows its row unchanged in every column, or nothing |
| DetectionSectors.FarthestIsKept | rust/adsb-data-engine/src/storage.rs:1526-1528 | A duplicate row never drops a sector's greatest distance |
| DetectionSectors.AltitudesAreKept | rust/adsb-data-engine/src/storage.rs:1526-1544 | Nor its lowest and highest altitude and greatest flight count |
| DetectionSectors.SectorsCountEveryPosition | rust/adsb-data-engine/src/storage.rs:1533 | The sectors' counts add up to those of the rows that have a sector |
| ImportJoin.ImportIsUnion | rust/adsb-data-engine/src/storage.rs:3177-3189 | Existing rows stay, keys become the union, the count is that of missing rows, a second import adds nothing |
| ImportJoin.OwnExportAddsNothing | rust/adsb-data-engine/src/storage.rs:3076-3101 | Importing one's own export adds nothing, even later |
| ImportJoin.ImportedRowsWith | rust/adsb-data-engine/src/storage.rs:3177-3189 | Key by key, an import keeps the rows that are there and otherwise takes all the source's |
| ImportJoin.UniquenessAfterImport | rust/adsb-data-engine/src/storage.rs:3209-3222 | Keys stay unique if and only if they were and the imported rows do not repeat one |
| ImportJoin.RepeatedKeyImportsTwice | rust/adsb-data-engine/src/storage.rs:3209-3222 | A source with one key twice imports it twice, even into an empty table |
| DatabaseImport.ImportIsIdempotent | rust/adsb-data-engine/src/storage.rs:3165-3240 | All three tables grow at the end by the reported counts, and a second import adds nothing |
| DatabaseImport.ImportBringsMissingRows | rust/adsb-data-engine/src/storage.rs:3177-3222 | A row is added to each table, as often as the file has it, if and only if no row there has its key columns: address and timestamp, also the text, or source and model hour |
| DatabaseImport.ExportRestores | rust/adsb-data-engine/src/storage.rs:3076-3101 | Importing an export into an empty database gives the database back, row by row |
| DatabaseImport.ExportImportsAsNothing | rust/adsb-data-engine/src/storage.rs:3076-3101 | One's own export imports as nothing into all three tables |
| DatabaseImport.ImportKeepsWeatherUnique | rust/adsb-data-engine/src/storage.rs:3207-3222 | Weather keeps one row per source and hour if and only if the missing rows do |
| ScenarioTracks.ReadingIsUnique | rust/adsb-data-engine/src/storage.rs:2465-2474 | With distinct ordinals a scenario reads back in only one way |
| ScenarioTracks.NewTrackReadsLast | rust/adsb-data-engine/src/storage.rs:2635-2660 | A new track reads back last, whatever the ordinals before |
| ScenarioTracks.FullReorderReadsBack | rust/adsb-data-engine/src/storage.rs:2790-2796 | A full reorder reads back as given with ordinals 0, 1, ... and moves no other scenario's track |
| ScenarioTracks.ReorderKeepsDistinctIff | rust/adsb-data-engine/src/storage.rs:2773-2796 | A partial reorder keeps ordinals distinct if and only if no unlisted track sits at a position handed out |
| ScenarioTracks.StaleReorderCollides | rust/adsb-data-engine/src/storage.rs:2773-2796 | Two inserted tracks and a reorder that lists only the second end with equal ordinals |
| ScenarioTracks.OrdinalsStayDistinct | rust/adsb-data-engine/src/storage.rs:2635-2660 | Ordinals stay distinct over any run of inserts, deletes and full reorders |
| ScenarioTracks.DeleteScenarioIff | rust/adsb-data-engine/src/storage.rs:2579-2611 | A delete leaves none of the scenario's tracks if and only if the scenario existed or had none; others keep theirs |
| ScenarioTracks.DeletedIsGone | rust/adsb-data-engine/src/storage.rs:2579-2611 | A deleted scenario that existed is gone with its tracks, a deleted track is gone, a created scenario is there, and every other row stays as it is |
| ScenarioTracks.TrackOutlivesItsScenario | rust/adsb-data-engine/src/storage.rs:2579-2611 | A track inserted under a scenario that was never created survives the scenario's delete |
| ScenarioTracks.ScenarioStore.InsertScenarioTrack | rust/adsb-data-engine/src/storage.rs:2618-2660 | The ordinal is the scenario's maximum plus one, or 0 |
| ScenarioTracks.ScenarioStore.ReorderScenarioTracks | rust/adsb-data-engine/src/storage.rs:2777-2801 | The update loop is the modelled reorder, other scenarios' ids matching no row |

## Left out

- DuckDB, Arrow IPC, checkpoints, sharing and remote views; a few SQL statements are functions on rows.
- Error paths inside a multi-statement insert: only the success path is modelled, and a poisoned lock not at all.
- Integer widths: `flight_num`, `position_count`, millisecond differences and metric counters are unbounded; the 64-bit and 32-bit limits of `Backoff` are modelled.
- Timestamp parsing and time zones; timestamps are given as integers.
- Changing `gap_threshold_ms` between two openings of the same store.
- Rounding and NaN: altitudes, distances and bearings are reals; the trigonometry that gives angle and distance is an input.
- The GROUP BY of the sector query and its flight counts; the rows are an input of the merge.
- Columns and fields that no modelled decision reads, such as ground speed in the positions table or waypoints in a scenario track.
- SBS-1 and JSON decoding: parsed lines are inputs, weather decoding is a function parameter.
- Reconnect logging and the detection of clashing client ids.
- The metrics other than sent messages, errors and the retry-queue size, the message tap, flushing of forwarders, and the stale-connection check of the housekeeping tick.
- Sockets, timers and task scheduling; runs are sequences of steps, so a lagging broadcast receiver appears as lines that never arrive.
- Whether a flushed batch and the raw archive reach the database: the conservation law ends at the sink.
- A database that is swapped under the running weather recorder; the table it writes to only grows.
- Power loss that reorders file writes: a crash ends the process, and the rename is atomic.
- The in-memory state store without a file, and the decoding of partial state files.
- The update of a track's ordinal to an arbitrary number, which can make two ordinals equal at once.
- Heatmaps, time distributions, events of interest, configuration layering and tool dispatch.
