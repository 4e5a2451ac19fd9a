// The recorder's store: the positions table, the flights table and the tracker,
// updated in place by batch inserts, prunes and reopens.
module FlightStore {
  import opened Common
  import opened FlightIds
  import opened FlightIndex
  import opened Segmentation
  import opened BootstrapQuery
  import opened TrackerRebuild
  import opened ImportJoin
  import opened DatabaseImport

  /** A row queued for the INSERT statement. */
  datatype FlightInsert = FlightInsert(flight: FlightKey, row: Flight)

  function Inserted(flights: FlightTable, inserts: seq<FlightInsert>): FlightTable {
    if inserts == [] then flights
    else
      var n := |inserts| - 1;
      Inserted(flights, inserts[..n])[inserts[n].flight := inserts[n].row]
  }

  /** Every pending update applied to its row; an update without a row changes nothing. */
  function Updated(flights: FlightTable, updates: map<FlightKey, Update>): FlightTable {
    map key | key in flights ::
      if key in updates then ApplyUpdate(flights[key], updates[key]) else flights[key]
  }

  function Accumulated(updates: map<FlightKey, Update>, key: FlightKey, p: Position): map<FlightKey, Update> {
    updates[key := if key in updates then Accumulate(updates[key], p) else Single(p)]
  }

  lemma AccumulatedUpdates(flights: FlightTable, updates: map<FlightKey, Update>, key: FlightKey, p: Position)
    requires key in flights
    ensures Updated(flights, Accumulated(updates, key, p))
         == Updated(flights, updates)[key := ApplyUpdate(Updated(flights, updates)[key], Single(p))]
  {
    if key in updates {
      AccumulateIsUpdateTwice(flights[key], updates[key], p);
    }
  }

  lemma InsertBeforeUpdates(flights: FlightTable, updates: map<FlightKey, Update>, key: FlightKey, row: Flight)
    requires key !in updates
    ensures Updated(flights[key := row], updates) == Updated(flights, updates)[key := row]
  {
  }

  /** The queued rows are new to the table and to each other. */
  ghost predicate Fresh(flights: FlightTable, inserts: seq<FlightInsert>) {
    forall j | 0 <= j < |inserts| :: inserts[j].flight !in Inserted(flights, inserts[..j])
  }

  /** The work a batch has queued so far amounts to filing its positions one at a time. */
  ghost predicate Queued(before: Index, gap: int, done: seq<Position>,
                         tracker: Tracker, inserts: seq<FlightInsert>, updates: map<FlightKey, Update>)
  {
    var now := InsertAll(before, gap, done);
    && tracker == now.tracker
    && Updated(Inserted(before.flights, inserts), updates) == now.flights
    && updates.Keys <= Inserted(before.flights, inserts).Keys
    && Fresh(before.flights, inserts)
  }

  lemma UpdatedKeys(flights: FlightTable, updates: map<FlightKey, Update>)
    ensures Updated(flights, updates).Keys == flights.Keys
  {
  }

  lemma QueueExtension(before: Index, gap: int, done: seq<Position>,
                       tracker: Tracker, inserts: seq<FlightInsert>, updates: map<FlightKey, Update>, p: Position)
    requires WellFormed(before) && Queued(before, gap, done, tracker, inserts, updates)
    requires Continues(tracker, gap, p)
    ensures var flight := tracker[p.hex].flight;
      Queued(before, gap, done + [p], tracker[p.hex := ActiveFlight(flight, p.ts)],
             inserts, Accumulated(updates, flight, p))
  {
    hide Fresh, Updated, NumbersDense, RowsTracked;
    var base := Inserted(before.flights, inserts);
    InsertAllSnoc(before, gap, done, p);
    InsertAllKeepsWellFormed(before, gap, done);
    var flight := tracker[p.hex].flight;
    assert flight in InsertAll(before, gap, done).flights;
    assert Updated(base, updates).Keys == base.Keys by { UpdatedKeys(base, updates); }
    AccumulatedUpdates(base, updates, flight, p);
  }

  lemma QueueInsert(before: Index, gap: int, done: seq<Position>,
                    tracker: Tracker, inserts: seq<FlightInsert>, updates: map<FlightKey, Update>, p: Position)
    requires WellFormed(before) && Queued(before, gap, done, tracker, inserts, updates)
    requires !Continues(tracker, gap, p)
    ensures var flight := NextFlight(tracker, p.hex);
      Queued(before, gap, done + [p], tracker[p.hex := ActiveFlight(flight, p.ts)],
             inserts + [FlightInsert(flight, NewFlight(p))], updates)
  {
    hide Updated, NumbersDense, RowsTracked;
    var base := Inserted(before.flights, inserts);
    var flight := NextFlight(tracker, p.hex);
    var more := inserts + [FlightInsert(flight, NewFlight(p))];
    InsertAllSnoc(before, gap, done, p);
    InsertAllKeepsWellFormed(before, gap, done);
    NewFlightIsFresh(InsertAll(before, gap, done), p.hex);
    UpdatedKeys(base, updates);
    assert more[..|inserts|] == inserts;
    assert Inserted(before.flights, more) == base[flight := NewFlight(p)];
    InsertBeforeUpdates(base, updates, flight, NewFlight(p));
    forall j | 0 <= j < |more| ensures more[j].flight !in Inserted(before.flights, more[..j]) {
      if j < |inserts| {
        assert more[..j] == inserts[..j];
      }
    }
  }

  /** The rows the rebuild query returns. */
  function LatestRows(flights: FlightTable): FlightTable {
    map key | key in flights && LatestRow(flights, key) :: flights[key]
  }

  lemma RebuiltFromLatestRows(flights: FlightTable)
    ensures var rows, rebuilt := LatestRows(flights), RebuiltTracker(flights);
      && (forall key | key in rows ::
            key.hex in rebuilt && rebuilt[key.hex] == ActiveFlight(key, rows[key].last))
      && (forall h | h in rebuilt :: exists key :: key in rows && key.hex == h)
  {
    var rows, rebuilt := LatestRows(flights), RebuiltTracker(flights);
    forall h | h in rebuilt ensures exists key :: key in rows && key.hex == h {
      var key :| key in flights && LatestRow(flights, key) && key.hex == h;
      assert key in rows;
    }
  }

  lemma NothingQueued(before: Index, gap: int)
    ensures Queued(before, gap, [], before.tracker, [], map[])
  {
  }

  predicate Recent(cutoff: int, p: Position) {
    p.ts >= cutoff
  }

  /** What DELETE ... WHERE timestamp_ms < cutoff leaves. */
  function Pruned(positions: seq<Position>, cutoff: int): seq<Position> {
    Filter((p: Position) => Recent(cutoff, p), positions)
  }

  datatype Store = Store(positions: seq<Position>, index: Index)

  /** Import adds the rows its anti-join selected, and no flights. */
  datatype Event = Insert(batch: seq<Position>) | Prune(cutoff: int) | Import(rows: seq<Position>) | Reopen

  function Step(s: Store, gap: int, e: Event): Store {
    match e
    case Insert(batch) => Store(s.positions + batch, InsertAll(s.index, gap, batch))
    case Prune(cutoff) => s.(positions := Pruned(s.positions, cutoff))
    case Import(rows) => s.(positions := s.positions + rows)
    case Reopen => s.(index := Opened(s.positions, s.index.flights, gap))
  }

  class Storage {
    var positions: seq<Position>
    var flights: FlightTable
    var tracker: Tracker
    const gap: int

    ghost function Contents(): Index
      reads this
    {
      Index(flights, tracker)
    }

    ghost function State(): Store
      reads this
    {
      Store(positions, Contents())
    }

    constructor (gap: int)
      ensures this.gap == gap && positions == [] && Contents() == EMPTY
    {
      this.gap := gap;
      positions := [];
      flights := map[];
      tracker := map[];
    }

    /** INSERT INTO flights. The primary key admits each flight once. */
    method InsertFlight(ins: FlightInsert)
      requires ins.flight !in flights
      modifies this`flights
      ensures flights == old(flights)[ins.flight := ins.row]
    {
      flights := flights[ins.flight := ins.row];
    }

    /** UPDATE flights ... WHERE flight_id = ?, with one flight's aggregate. */
    method UpdateFlight(flight: FlightKey, u: Update)
      modifies this`flights
      ensures flights == if flight in old(flights)
                         then old(flights)[flight := ApplyUpdate(old(flights)[flight], u)]
                         else old(flights)
    {
      if flight in flights {
        flights := flights[flight := ApplyUpdate(flights[flight], u)];
      }
    }

    /**
     * Files a batch: positions first, then the new flights, then one aggregated
     * update per flight in whatever order the map yields them. The outcome is
     * that of filing the positions one at a time.
     */
    method InsertBatch(batch: seq<Position>)
      requires WellFormed(Contents())
      modifies this
      ensures State() == Step(old(State()), gap, Insert(batch))
      ensures positions == old(positions) + batch
      ensures WellFormed(Contents())
    {
      InsertAllKeepsWellFormed(Contents(), gap, batch);
      if batch == [] {
        return;
      }
      positions := positions + batch;
      var inserts, updates := QueueBatch(batch);
      RunInserts(inserts);
      RunUpdates(updates);
    }

    /** Walks the batch, moving the tracker and queueing the table's work. */
    method QueueBatch(batch: seq<Position>)
      returns (inserts: seq<FlightInsert>, updates: map<FlightKey, Update>)
      requires WellFormed(Contents())
      modifies this`tracker
      ensures Queued(old(Contents()), gap, batch, tracker, inserts, updates)
    {
      hide Queued, WellFormed;
      ghost var before := Contents();
      inserts, updates := [], map[];
      assert Queued(before, gap, batch[..0], tracker, inserts, updates) by { NothingQueued(before, gap); }
      for i := 0 to |batch|
        invariant Queued(before, gap, batch[..i], tracker, inserts, updates)
      {
        var p := batch[i];
        assert batch[..i + 1] == batch[..i] + [p];
        if Continues(tracker, gap, p) {
          QueueExtension(before, gap, batch[..i], tracker, inserts, updates, p);
          var active := tracker[p.hex];
          updates := Accumulated(updates, active.flight, p);
          tracker := tracker[p.hex := active.(lastSeen := p.ts)];
        } else {
          QueueInsert(before, gap, batch[..i], tracker, inserts, updates, p);
          var flight := NextFlight(tracker, p.hex);
          inserts := inserts + [FlightInsert(flight, NewFlight(p))];
          tracker := tracker[p.hex := ActiveFlight(flight, p.ts)];
        }
      }
      assert batch[..|batch|] == batch;
    }

    /** Executes the queued inserts. */
    method RunInserts(inserts: seq<FlightInsert>)
      requires Fresh(flights, inserts)
      modifies this`flights
      ensures flights == Inserted(old(flights), inserts)
    {
      ghost var base := flights;
      for j := 0 to |inserts|
        invariant flights == Inserted(base, inserts[..j])
      {
        assert inserts[..j + 1][..j] == inserts[..j];
        InsertFlight(inserts[j]);
      }
      assert inserts[..|inserts|] == inserts;
    }

    /** Executes the pending updates, in any order. */
    method RunUpdates(updates: map<FlightKey, Update>)
      modifies this`flights
      ensures flights == Updated(old(flights), updates)
    {
      var pending := updates;
      ghost var base := flights;
      while pending != map[]
        invariant pending.Keys <= updates.Keys && forall key | key in pending :: pending[key] == updates[key]
        invariant flights == Updated(base, updates - pending.Keys)
        decreases |pending|
      {
        var flight := SomeKey(pending);
        UpdateFlight(flight, pending[flight]);
        assert updates - (pending - {flight}).Keys == (updates - pending.Keys)[flight := updates[flight]];
        pending := pending - {flight};
      }
      assert updates - {} == updates;
    }

    /** The one-time migration, run only on an empty flights table. */
    method BootstrapFlights(orders: map<string, seq<Position>>)
      requires gap >= 0 && WindowOrders(positions, orders)
      modifies this`flights
      ensures flights == if old(flights) == map[] && positions != [] then SegTable(positions, gap) else old(flights)
    {
      if |flights| > 0 || |positions| == 0 {
        return;
      }
      BootstrapIsSegmentation(positions, orders, gap);
      flights := BootstrapTable(orders, gap);
    }

    /** Clears the tracker and refills it from the latest row of each aircraft. */
    method RebuildTracker()
      modifies this`tracker
      ensures tracker == RebuiltTracker(flights)
    {
      hide RebuiltTracker, LatestRow;
      var entries := LatestRows(flights);
      RebuiltFromLatestRows(flights);
      var pending := entries;
      ghost var rebuilt := RebuiltTracker(flights);
      hide LatestRows;
      tracker := map[];
      while pending != map[]
        invariant pending.Keys <= entries.Keys && forall key | key in pending :: pending[key] == entries[key]
        invariant forall h | h in tracker :: h in rebuilt && tracker[h] == rebuilt[h]
        invariant forall key | key in entries :: key in pending || key.hex in tracker
        decreases |pending|
      {
        var key := SomeKey(pending);
        tracker := tracker[key.hex := ActiveFlight(key, pending[key].last)];
        pending := pending - {key};
      }
      assert tracker.Keys == rebuilt.Keys;
    }

    /** What opening the database does, after a stop at any point. */
    method Reopen(orders: map<string, seq<Position>>)
      requires gap >= 0 && WindowOrders(positions, orders)
      modifies this`flights, this`tracker
      ensures State() == Step(old(State()), gap, Event.Reopen)
    {
      BootstrapFlights(orders);
      RebuildTracker();
    }

    /**
     * Deletes old positions: every row at or after the cutoff stays, as often as it was
     * there, no earlier row does, and the result counts those. Flights are left alone.
     */
    method Prune(cutoff: int) returns (deleted: nat)
      modifies this`positions
      ensures State() == Step(old(State()), gap, Event.Prune(cutoff))
      ensures forall p: Position ::
        multiset(positions)[p] == if p.ts >= cutoff then multiset(old(positions))[p] else 0
      ensures deleted == |Filter((p: Position) => !Recent(cutoff, p), old(positions))|
    {
      var kept := Pruned(positions, cutoff);
      FilterSplits((p: Position) => Recent(cutoff, p), (p: Position) => !Recent(cutoff, p), positions);
      forall p: Position { FilterCount((q: Position) => Recent(cutoff, q), positions, p); }
      deleted := |positions| - |kept|;
      positions := kept;
    }

    /** Adds the positions of another database whose key is missing, and no flights. */
    method ImportPositions(source: seq<Position>) returns (imported: nat)
      modifies this`positions
      ensures State() == Step(old(State()), gap, Event.Import(Missing(old(positions), source, PositionKey())))
      ensures imported == |positions| - |old(positions)|
      ensures forall p: Position ::
        multiset(positions)[p] == multiset(old(positions))[p] +
          if exists q | q in old(positions) :: q.hex == p.hex && q.ts == p.ts then 0 else multiset(source)[p]
    {
      forall p: Position { ImportedPosition(positions, source, p); }
      var (table, added) := ImportJoin.Import(positions, source, PositionKey());
      positions := table;
      imported := added;
    }
  }
}
