// The flight index: the `flights` table and the in-memory tracker that names
// each aircraft's latest flight, with the step that files one position.
module FlightIndex {
  import opened Common
  import opened FlightIds

  /** A positions row; the columns the flight index never reads are left out. */
  datatype Position = Position(
    hex: string,
    callsign: Option<string>,
    altitude: Option<real>,
    latitude: Option<real>,
    longitude: Option<real>,
    ts: int)

  /**
   * A flights row, less its address and number columns. The table is keyed by
   * these two, which is the same as being keyed by `flight_id`; see
   * FlightIds.StoredByTextIsByKey.
   */
  datatype Flight = Flight(
    callsign: Option<string>,
    count: nat,
    first: int,
    last: int,
    minAlt: Option<real>,
    maxAlt: Option<real>)

  type FlightTable = map<FlightKey, Flight>

  /** A tracker entry: the flight's identity and when it was last seen. */
  datatype ActiveFlight = ActiveFlight(flight: FlightKey, lastSeen: int)

  type Tracker = map<string, ActiveFlight>

  datatype Index = Index(flights: FlightTable, tracker: Tracker)

  const EMPTY := Index(map[], map[])

  /** What a batch adds to one existing flight. */
  datatype Update = Update(
    count: nat,
    callsign: Option<string>,
    maxTs: int,
    minAlt: Option<real>,
    maxAlt: Option<real>)

  // ---------------------------------------------------------------- SQL pieces

  /** The aggregated UPDATE statement on one flights row. */
  function ApplyUpdate(f: Flight, u: Update): Flight {
    f.(last := Max(f.last, u.maxTs),
       count := f.count + u.count,
       callsign := Coalesce(u.callsign, f.callsign),
       minAlt := Least(Coalesce(f.minAlt, u.minAlt), Coalesce(u.minAlt, f.minAlt)),
       maxAlt := Greatest(Coalesce(f.maxAlt, u.maxAlt), Coalesce(u.maxAlt, f.maxAlt)))
  }

  function Single(p: Position): Update {
    Update(1, p.callsign, p.ts, p.altitude, p.altitude)
  }

  /** Folds one more position into a pending update. */
  function Accumulate(u: Update, p: Position): Update {
    Update(
      u.count + 1,
      if p.callsign.Some? then p.callsign else u.callsign,
      Max(u.maxTs, p.ts),
      if p.altitude.None? then u.minAlt
      else if u.minAlt.None? then p.altitude
      else if p.altitude.value < u.minAlt.value then p.altitude else u.minAlt,
      if p.altitude.None? then u.maxAlt
      else if u.maxAlt.None? then p.altitude
      else if u.maxAlt.value < p.altitude.value then p.altitude else u.maxAlt)
  }

  /** Accumulating and then updating is updating twice. */
  lemma AccumulateIsUpdateTwice(f: Flight, u: Update, p: Position)
    ensures ApplyUpdate(f, Accumulate(u, p)) == ApplyUpdate(ApplyUpdate(f, u), Single(p))
  {
  }

  function NewFlight(p: Position): Flight {
    Flight(p.callsign, 1, p.ts, p.ts, p.altitude, p.altitude)
  }

  // ------------------------------------------------------------- one position

  /** The position extends its aircraft's latest flight. */
  predicate Continues(tracker: Tracker, gap: int, p: Position) {
    p.hex in tracker && p.ts - tracker[p.hex].lastSeen <= gap
  }

  /** The flight a gap, or a first sighting, opens. */
  function NextFlight(tracker: Tracker, hex: string): FlightKey {
    FlightKey(hex, if hex in tracker then tracker[hex].flight.num + 1 else 0)
  }

  /** The flight a position is filed under. */
  function FlightOf(tracker: Tracker, gap: int, p: Position): FlightKey {
    if Continues(tracker, gap, p) then tracker[p.hex].flight else NextFlight(tracker, p.hex)
  }

  /** Files one position: the one-at-a-time form of the batch insert. */
  function InsertOne(idx: Index, gap: int, p: Position): Index {
    var flight := FlightOf(idx.tracker, gap, p);
    Index(
      if !Continues(idx.tracker, gap, p) then idx.flights[flight := NewFlight(p)]
      else if flight in idx.flights then idx.flights[flight := ApplyUpdate(idx.flights[flight], Single(p))]
      else idx.flights,
      idx.tracker[p.hex := ActiveFlight(flight, p.ts)])
  }

  function InsertAll(idx: Index, gap: int, ps: seq<Position>): Index {
    if ps == [] then idx
    else InsertOne(InsertAll(idx, gap, ps[..|ps| - 1]), gap, ps[|ps| - 1])
  }

  lemma InsertAllSnoc(idx: Index, gap: int, ps: seq<Position>, p: Position)
    ensures InsertAll(idx, gap, ps + [p]) == InsertOne(InsertAll(idx, gap, ps), gap, p)
  {
    assert (ps + [p])[..|ps|] == ps;
  }

  lemma InsertAllFirst(idx: Index, gap: int, p: Position)
    ensures InsertAll(idx, gap, []) == idx
    ensures InsertAll(idx, gap, [p]) == InsertOne(idx, gap, p)
  {
    assert [p][..0] == [];
  }

  lemma {:induction false} InsertAllAppend(idx: Index, gap: int, ps: seq<Position>, qs: seq<Position>)
    ensures InsertAll(idx, gap, ps + qs) == InsertAll(InsertAll(idx, gap, ps), gap, qs)
  {
    if qs == [] {
      assert ps + qs == ps;
    } else {
      var n := |qs| - 1;
      assert ps + qs == (ps + qs[..n]) + [qs[n]];
      InsertAllSnoc(idx, gap, ps + qs[..n], qs[n]);
      InsertAllAppend(idx, gap, ps, qs[..n]);
    }
  }

  // ---------------------------------------------------------- well-formedness

  /** Every row is a plausible summary and belongs to a tracked aircraft. */
  ghost predicate RowsTracked(idx: Index) {
    forall key | key in idx.flights ::
      && idx.flights[key].count >= 1
      && idx.flights[key].first <= idx.flights[key].last
      && key.hex in idx.tracker
      && key.num <= idx.tracker[key.hex].flight.num
  }

  /** An aircraft's flights are numbered from 0 without a hole up to the tracked one. */
  ghost predicate NumbersDense(idx: Index) {
    forall h, n: nat | h in idx.tracker && n <= idx.tracker[h].flight.num ::
      FlightKey(h, n) in idx.flights
  }

  /** A tracker entry names a row of its own aircraft, and never runs ahead of it. */
  ghost predicate TrackerBacked(idx: Index) {
    forall h | h in idx.tracker ::
      && idx.tracker[h].flight.hex == h
      && idx.tracker[h].flight in idx.flights
      && idx.tracker[h].lastSeen <= idx.flights[idx.tracker[h].flight].last
  }

  /** The table and the tracker agree. */
  ghost predicate WellFormed(idx: Index) {
    RowsTracked(idx) && NumbersDense(idx) && TrackerBacked(idx)
  }

  /** A new flight never meets its own primary key, whatever the arrival order. */
  lemma NewFlightIsFresh(idx: Index, hex: string)
    requires RowsTracked(idx)
    ensures NextFlight(idx.tracker, hex) !in idx.flights
  {
  }

  lemma InsertOneKeepsNumbersDense(idx: Index, gap: int, p: Position)
    requires NumbersDense(idx) && TrackerBacked(idx)
    ensures NumbersDense(InsertOne(idx, gap, p))
  {
    var r := InsertOne(idx, gap, p);
    forall h, n: nat | h in r.tracker && n <= r.tracker[h].flight.num ensures FlightKey(h, n) in r.flights {
      if h == p.hex && !Continues(idx.tracker, gap, p) && n == r.tracker[h].flight.num {
        assert FlightKey(h, n) == NextFlight(idx.tracker, h);
      } else {
        assert FlightKey(h, n) in idx.flights;
      }
    }
  }

  lemma InsertOneKeepsTrackerBacked(idx: Index, gap: int, p: Position)
    requires RowsTracked(idx) && TrackerBacked(idx)
    ensures TrackerBacked(InsertOne(idx, gap, p))
  {
    NewFlightIsFresh(idx, p.hex);
    var r := InsertOne(idx, gap, p);
    forall h | h in r.tracker
      ensures r.tracker[h].flight.hex == h
      ensures r.tracker[h].flight in r.flights && r.tracker[h].lastSeen <= r.flights[r.tracker[h].flight].last
    {
      if h != p.hex {
        assert r.tracker[h] == idx.tracker[h];
      }
    }
  }

  lemma InsertOneKeepsWellFormed(idx: Index, gap: int, p: Position)
    requires WellFormed(idx)
    ensures WellFormed(InsertOne(idx, gap, p))
  {
    InsertOneKeepsNumbersDense(idx, gap, p);
    InsertOneKeepsTrackerBacked(idx, gap, p);
    assert RowsTracked(InsertOne(idx, gap, p)) by {
      var r := InsertOne(idx, gap, p);
      forall key | key in r.flights
        ensures r.flights[key].count >= 1 && r.flights[key].first <= r.flights[key].last
        ensures key.hex in r.tracker && key.num <= r.tracker[key.hex].flight.num
      {
        assert key in idx.flights || key == NextFlight(idx.tracker, p.hex);
      }
    }
  }

  lemma {:induction false} InsertAllKeepsWellFormed(idx: Index, gap: int, ps: seq<Position>)
    requires WellFormed(idx)
    ensures WellFormed(InsertAll(idx, gap, ps))
  {
    if ps != [] {
      InsertAllKeepsWellFormed(idx, gap, ps[..|ps| - 1]);
      InsertOneKeepsWellFormed(InsertAll(idx, gap, ps[..|ps| - 1]), gap, ps[|ps| - 1]);
    }
  }

  /** No aircraft's live last-seen time has slipped behind its row. */
  ghost predicate SeenInStep(idx: Index) {
    forall h | h in idx.tracker ::
      idx.tracker[h].flight in idx.flights && idx.tracker[h].lastSeen == idx.flights[idx.tracker[h].flight].last
  }

  /** An insert only lengthens one flight, or adds one. */
  lemma InsertGrows(idx: Index, gap: int, p: Position)
    requires WellFormed(idx)
    ensures var r, flight := InsertOne(idx, gap, p).flights, FlightOf(idx.tracker, gap, p);
      && r.Keys == idx.flights.Keys + {flight}
      && (forall key | key in idx.flights ::
            r[key].first == idx.flights[key].first && r[key].last >= idx.flights[key].last)
      && (forall key | key in idx.flights && key != flight :: r[key] == idx.flights[key])
      && (flight in idx.flights <==> Continues(idx.tracker, gap, p))
      && (Continues(idx.tracker, gap, p) ==> r[flight].last == Max(idx.flights[flight].last, p.ts))
      && (!Continues(idx.tracker, gap, p) ==> r[flight].first == r[flight].last == p.ts)
      && flight.hex == p.hex && InsertOne(idx, gap, p).tracker[p.hex] == ActiveFlight(flight, p.ts)
  {
    hide NumbersDense;
    NewFlightIsFresh(idx, p.hex);
  }

  lemma PickedIsNewest(idx: Index, gap: int, p: Position)
    requires WellFormed(idx)
    ensures var flight := FlightOf(idx.tracker, gap, p);
      forall key | key in InsertOne(idx, gap, p).flights && key.hex == p.hex :: key.num <= flight.num
  {
    hide NumbersDense;
  }

  /** Rows below the tracked one never change again, and no row's first timestamp does. */
  lemma {:induction false} Frozen(idx: Index, gap: int, ps: seq<Position>)
    requires WellFormed(idx)
    ensures WellFormed(InsertAll(idx, gap, ps))
    ensures var r := InsertAll(idx, gap, ps);
      && (forall key | key in idx.flights :: key in r.flights && r.flights[key].first == idx.flights[key].first)
      && (forall key | key in idx.flights && key.num < idx.tracker[key.hex].flight.num ::
            key in r.flights && r.flights[key] == idx.flights[key])
      && (forall h | h in idx.tracker :: h in r.tracker && idx.tracker[h].flight.num <= r.tracker[h].flight.num)
  {
    if ps != [] {
      hide NumbersDense, RowsTracked;
      var n := |ps| - 1;
      Frozen(idx, gap, ps[..n]);
      InsertGrows(InsertAll(idx, gap, ps[..n]), gap, ps[n]);
      InsertOneKeepsWellFormed(InsertAll(idx, gap, ps[..n]), gap, ps[n]);
    }
  }

  // ------------------------------------------------------------ position count

  /** SUM(position_count) over the flights table. */
  ghost function TotalCount(flights: FlightTable): nat {
    if flights == map[] then 0
    else
      var key :| key in flights;
      flights[key].count + TotalCount(flights - {key})
  }

  /** The sum does not depend on the row it starts from. */
  lemma {:induction false} TotalCountRemove(flights: FlightTable, key: FlightKey)
    requires key in flights
    ensures TotalCount(flights) == flights[key].count + TotalCount(flights - {key})
    decreases |flights|
  {
    var first :| first in flights && TotalCount(flights) == flights[first].count + TotalCount(flights - {first});
    if first != key {
      TotalCountRemove(flights - {first}, key);
      TotalCountRemove(flights - {key}, first);
      assert flights - {first} - {key} == flights - {key} - {first};
    }
  }

  lemma TotalCountPut(flights: FlightTable, key: FlightKey, row: Flight)
    ensures TotalCount(flights[key := row])
         == TotalCount(flights) + row.count - if key in flights then flights[key].count else 0
  {
    TotalCountRemove(flights[key := row], key);
    if key in flights {
      TotalCountRemove(flights, key);
      assert flights[key := row] - {key} == flights - {key};
    } else {
      assert flights[key := row] - {key} == flights;
    }
  }

  /** Position counts add up to the positions inserted, in any arrival order. */
  lemma {:induction false} PositionCountsAddUp(idx: Index, gap: int, ps: seq<Position>)
    requires WellFormed(idx)
    ensures TotalCount(InsertAll(idx, gap, ps).flights) == TotalCount(idx.flights) + |ps|
  {
    if ps != [] {
      var n := |ps| - 1;
      var before := InsertAll(idx, gap, ps[..n]);
      var flight := FlightOf(before.tracker, gap, ps[n]);
      PositionCountsAddUp(idx, gap, ps[..n]);
      InsertAllKeepsWellFormed(idx, gap, ps[..n]);
      NewFlightIsFresh(before, ps[n].hex);
      TotalCountPut(before.flights, flight, InsertOne(before, gap, ps[n]).flights[flight]);
    }
  }
}
