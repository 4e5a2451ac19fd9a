// Rebuilding the tracker from the flights table when a store is opened.
module TrackerRebuild {
  import opened Common
  import opened FlightIds
  import opened FlightIndex
  import opened Segmentation
  import opened FlightIntervals
  import opened IncrementalFlights

  /** The row holds its aircraft's MAX(flight_num). */
  predicate LatestRow(flights: FlightTable, key: FlightKey) {
    forall other | other in flights && other.hex == key.hex :: other.num <= key.num
  }

  /** The join of the table with its own per-aircraft maxima. */
  function RebuiltTracker(flights: FlightTable): Tracker {
    map key | key in flights && LatestRow(flights, key) :: key.hex := ActiveFlight(key, flights[key].last)
  }

  /** The index a store starts with: bootstrapped if only positions are there, then rebuilt. */
  function Opened(positions: seq<Position>, flights: FlightTable, gap: int): Index {
    var table := if flights == map[] && positions != [] then SegTable(positions, gap) else flights;
    Index(table, RebuiltTracker(table))
  }

  lemma LatestOfAircraft(idx: Index, h: string)
    requires WellFormed(idx) && h in idx.tracker
    ensures LatestRow(idx.flights, idx.tracker[h].flight)
    ensures forall key | key in idx.flights && key.hex == h && LatestRow(idx.flights, key) ::
      key == idx.tracker[h].flight
  {
    var latest := idx.tracker[h].flight;
    forall key | key in idx.flights && key.hex == h && LatestRow(idx.flights, key) ensures key == latest {
      assert latest.num <= key.num && key.num <= latest.num;
    }
  }

  /**
   * After any arrivals at all, the rebuilt entry names the same flight, and its
   * last-seen time is never earlier than the live one.
   */
  lemma RebuiltNamesSameFlight(idx: Index)
    requires WellFormed(idx)
    ensures RebuiltTracker(idx.flights).Keys == idx.tracker.Keys
    ensures forall h | h in idx.tracker ::
      && RebuiltTracker(idx.flights)[h] == ActiveFlight(idx.tracker[h].flight, idx.flights[idx.tracker[h].flight].last)
      && RebuiltTracker(idx.flights)[h].lastSeen >= idx.tracker[h].lastSeen
    ensures WellFormed(Index(idx.flights, RebuiltTracker(idx.flights)))
  {
    var rebuilt := RebuiltTracker(idx.flights);
    forall h ensures h in rebuilt <==> h in idx.tracker
      ensures h in idx.tracker ==>
        rebuilt[h] == ActiveFlight(idx.tracker[h].flight, idx.flights[idx.tracker[h].flight].last)
    {
      if h in idx.tracker {
        LatestOfAircraft(idx, h);
        assert idx.tracker[h].flight in idx.flights;
      }
    }
    assert rebuilt.Keys == idx.tracker.Keys;
  }

  /** The live tracker is exactly what a reopen would rebuild. */
  ghost predicate Restartable(idx: Index) {
    RebuiltTracker(idx.flights) == idx.tracker
  }

  lemma RestartableIsSeenInStep(idx: Index)
    requires WellFormed(idx)
    ensures Restartable(idx) <==> SeenInStep(idx)
  {
    hide RebuiltTracker, RowsTracked, NumbersDense;
    RebuiltNamesSameFlight(idx);
  }

  /** A reopen is invisible exactly when nothing needs bootstrapping and every entry is in step. */
  lemma ReopenIsInvisible(idx: Index, positions: seq<Position>, gap: int)
    requires gap >= 0 && WellFormed(idx)
    ensures Opened(positions, idx.flights, gap) == idx
       <==> (idx.flights != map[] || positions == []) && SeenInStep(idx)
  {
    hide RebuiltTracker, WellFormed, SeenInStep, SegTable, KeyAt;
    RestartableIsSeenInStep(idx);
    if idx.flights == map[] && positions != [] {
      KeyAtMember(positions, gap, 0);
      SegTableRows(positions, gap, KeyAt(positions, gap, 0));
    }
  }

  lemma InsertSteps(idx: Index, gap: int, p: Position)
    requires gap >= 0 && RowsTracked(idx) && TrackerBacked(idx) && SeenInStep(idx)
    requires TrackerBacked(InsertOne(idx, gap, p))
    ensures SeenInStep(InsertOne(idx, gap, p))
       <==> (p.hex in idx.tracker ==> p.ts >= idx.tracker[p.hex].lastSeen)
  {
    var r := InsertOne(idx, gap, p);
    NewFlightIsFresh(idx, p.hex);
    forall h | h in r.tracker && h != p.hex ensures r.tracker[h].lastSeen == r.flights[r.tracker[h].flight].last {
      assert r.tracker[h] == idx.tracker[h];
    }
    assert r.flights[r.tracker[p.hex].flight].last
      == if Continues(idx.tracker, gap, p) then Max(idx.tracker[p.hex].lastSeen, p.ts) else p.ts;
  }

  /**
   * One insert keeps the index restartable exactly when the position is not
   * earlier than the aircraft's previous one.
   */
  lemma InsertKeepsRestartable(idx: Index, gap: int, p: Position)
    requires gap >= 0 && WellFormed(idx) && Restartable(idx)
    ensures Restartable(InsertOne(idx, gap, p))
       <==> (p.hex in idx.tracker ==> p.ts >= idx.tracker[p.hex].lastSeen)
  {
    hide Restartable;
    RestartableIsSeenInStep(idx);
    InsertOneKeepsWellFormed(idx, gap, p);
    var r := InsertOne(idx, gap, p);
    RestartableIsSeenInStep(r);
    InsertSteps(idx, gap, p);
  }

  /** A late position makes the difference: the flight ends at 100, the live tracker says 0. */
  lemma LateArrivalBreaksRestart(p: Position, q: Position)
    requires p == Position("x", None, None, None, None, 100)
    requires q == Position("x", None, None, None, None, 0)
    ensures !Restartable(InsertOne(InsertOne(EMPTY, 10, p), 10, q))
  {
    InsertOneKeepsWellFormed(EMPTY, 10, p);
    InsertKeepsRestartable(EMPTY, 10, p);
    InsertKeepsRestartable(InsertOne(EMPTY, 10, p), 10, q);
  }

  // -------------------------------------------------- the bootstrapped index

  /** An index of some positions is well formed, and a reopen would rebuild its tracker. */
  lemma IndexedIsWellFormed(idx: Index, ps: seq<Position>, gap: int)
    requires gap >= 0 && Indexed(idx, ps, gap)
    ensures WellFormed(idx) && Restartable(idx)
  {
    hide Indexed, Aligned, Restartable;
    IndexedIsAligned(idx, ps, gap);
    AlignedIsWellFormed(idx, ps, gap);
    RestartableIsSeenInStep(idx);
  }

  lemma NothingOpened(gap: int)
    ensures Opened([], map[], gap) == EMPTY && Indexed(EMPTY, [], gap)
  {
    EmptyIsIndexed(gap);
  }

  lemma SameAsItself(table: FlightTable)
    ensures SameTable(table, table)
  {
  }

  lemma RebuiltFromSegTable(ps: seq<Position>, gap: int, h: string)
    requires gap >= 0
    ensures var tracker := RebuiltTracker(SegTable(ps, gap));
      && (h in tracker <==> Times(ps, h) != {})
      && (h in tracker ==>
            && IsLatest(Times(ps, h), tracker[h].lastSeen)
            && tracker[h].flight.hex == h
            && tracker[h].flight.num == |Starts(Times(ps, h), gap)| - 1)
  {
    hide SegTable, Starts, Times;
    var T := Times(ps, h);
    var table := SegTable(ps, gap);
    forall key { SegTableKeys(ps, gap, key); }
    if T == {} {
      assert Starts(T, gap) == {} by { NoStartsInEmpty(gap); }
    } else {
      LatestExists(T);
      var m :| IsLatest(T, m);
      NumAtRange(T, gap, m);
      var key := FlightKey(h, |Starts(T, gap)| - 1);
      assert key in table && LatestRow(table, key);
      assert forall other | other in table && other.hex == h && LatestRow(table, other) :: other == key;
      SegTableEnds(ps, gap, key, m);
    }
  }

  /** Bootstrapping indexes any positions whatsoever, in any order. */
  lemma OpenedIsIndexed(ps: seq<Position>, gap: int)
    requires gap >= 0
    ensures Indexed(Opened(ps, map[], gap), ps, gap)
  {
    hide SegTable, Starts, Times, RebuiltTracker, SameButCallsign;
    if ps == [] {
      NothingOpened(gap);
    } else {
      forall h { RebuiltFromSegTable(ps, gap, h); }
      SameAsItself(SegTable(ps, gap));
    }
  }
}
