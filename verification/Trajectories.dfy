// The trajectory query joins positions to flights by address and time interval.
// It must give back the flight each position was filed under.
module Trajectories {
  import opened Common
  import opened FlightIds
  import opened FlightIndex
  import opened Segmentation
  import opened FlightIntervals
  import opened IncrementalFlights
  import opened FlightStore
  import opened FlightRuns

  // ------------------------------------------------------------------ the join

  /** The flights one position joins with. */
  function Matches(flights: FlightTable, p: Position): set<FlightKey> {
    set key | key in flights && Covers(key, flights[key], p)
  }

  /** The WHERE clause: a located position inside the optional time window. */
  predicate Selected(start: Option<int>, end: Option<int>, p: Position) {
    && p.latitude.Some? && p.longitude.Some?
    && (start.Some? ==> p.ts >= start.value)
    && (end.Some? ==> p.ts <= end.value)
  }

  /** The joined rows: one for every selected position and every flight it joins with. */
  function Joined(positions: seq<Position>, flights: FlightTable, start: Option<int>, end: Option<int>)
    : multiset<(Position, FlightKey)>
  {
    if positions == [] then multiset{}
    else
      var n := |positions| - 1;
      var p := positions[n];
      Joined(positions[..n], flights, start, end)
      + if Selected(start, end, p) then multiset(set key | key in Matches(flights, p) :: (p, key)) else multiset{}
  }

  /**
   * What the query returns: a row comes with a flight, as often as it is stored, if it
   * has a location, lies in the window and in the flight's interval, ends included,
   * and is of the flight's aircraft. Nothing else comes.
   */
  lemma {:induction false} JoinedCount(positions: seq<Position>, flights: FlightTable,
                                       start: Option<int>, end: Option<int>, p: Position, key: FlightKey)
    ensures Joined(positions, flights, start, end)[(p, key)] ==
      if && p.latitude.Some? && p.longitude.Some?
         && (start.Some? ==> start.value <= p.ts) && (end.Some? ==> p.ts <= end.value)
         && key in flights && key.hex == p.hex && flights[key].first <= p.ts <= flights[key].last
      then multiset(positions)[p] else 0
  {
    if positions != [] {
      var n := |positions| - 1;
      JoinedCount(positions[..n], flights, start, end, p, key);
      assert positions == positions[..n] + [positions[n]];
    }
  }

  // ------------------------------------------------- the join on an exact table

  /** A position's flight in the segmentation of `ps`; `p` need not be one of them. */
  function OwnFlight(ps: seq<Position>, gap: int, p: Position): FlightKey {
    FlightKey(p.hex, NumAt(Times(ps, p.hex), gap, p.ts))
  }

  /** The position lies between two timestamps of one flight, or at one. */
  ghost predicate Spanned(ps: seq<Position>, gap: int, p: Position) {
    var T := Times(ps, p.hex);
    exists u, v :: u in T && v in T && u <= p.ts <= v && NumAt(T, gap, u) == NumAt(T, gap, v)
  }

  lemma OwnPositionIsSpanned(ps: seq<Position>, gap: int, p: Position)
    requires p in ps
    ensures Spanned(ps, gap, p)
  {
    assert p.ts in Times(ps, p.hex);
  }

  lemma SpannedIsCovered(ps: seq<Position>, gap: int, p: Position)
    requires Spanned(ps, gap, p)
    ensures OwnFlight(ps, gap, p) in Matches(SegTable(ps, gap), p)
  {
    hide SegTable, NumAt;
    var T := Times(ps, p.hex);
    var u, v :| u in T && v in T && u <= p.ts <= v && NumAt(T, gap, u) == NumAt(T, gap, v);
    NumAtMonotone(T, gap, u, p.ts);
    NumAtMonotone(T, gap, p.ts, v);
    var i :| 0 <= i < |ps| && ps[i].hex == p.hex && ps[i].ts == u;
    var j :| 0 <= j < |ps| && ps[j].hex == p.hex && ps[j].ts == v;
    OwnFlightCovers(ps, gap, ps[i]);
    OwnFlightCovers(ps, gap, ps[j]);
  }

  lemma CoveredIsSpanned(ps: seq<Position>, gap: int, p: Position, key: FlightKey)
    requires key in Matches(SegTable(ps, gap), p)
    ensures Spanned(ps, gap, p) && key == OwnFlight(ps, gap, p)
  {
    var T, row := Times(ps, p.hex), SegTable(ps, gap)[key];
    SegTableRows(ps, gap, key);
    var ms := Members(ps, gap, key);
    MinTsBound(ms);
    MaxTsBound(ms);
    var q :| q in ms && q.ts == row.first;
    var r :| r in ms && r.ts == row.last;
    InMembers(ps, gap, key, q);
    InMembers(ps, gap, key, r);
    assert q.ts in T && r.ts in T;
    NumAtMonotone(T, gap, row.first, p.ts);
    NumAtMonotone(T, gap, p.ts, row.last);
  }

  /**
   * On a table that is that of some positions, any position at all joins with its
   * own flight if that flight spans it, and with none otherwise.
   */
  lemma MatchesOwnFlight(flights: FlightTable, ps: seq<Position>, gap: int, p: Position)
    requires SameTable(flights, SegTable(ps, gap))
    ensures Matches(flights, p) == if Spanned(ps, gap, p) then {OwnFlight(ps, gap, p)} else {}
    ensures p in ps ==> Matches(flights, p) == {OwnFlight(ps, gap, p)}
  {
    hide SegTable, NumAt, Spanned, OwnFlight;
    assert Matches(flights, p) == Matches(SegTable(ps, gap), p);
    forall key | key in Matches(SegTable(ps, gap), p) {
      CoveredIsSpanned(ps, gap, p, key);
    }
    if Spanned(ps, gap, p) {
      SpannedIsCovered(ps, gap, p);
    }
    if p in ps {
      OwnPositionIsSpanned(ps, gap, p);
    }
  }

  /**
   * After any run with on-time arrivals, from a fresh or a migrated store, in which
   * no reopen migrates: the trajectory query returns a located row inside the window
   * with a flight, as often as it is stored, if the flight is the row's own among the
   * positions found and arrived and spans it. It returns nothing else. Arrived rows
   * are always spanned.
   */
  lemma TrajectoriesAreExact(found: seq<Position>, gap: int, es: seq<Event>, start: Option<int>, end: Option<int>,
                             p: Position, key: FlightKey)
    requires gap >= 0 && Quiet(Migrated(found, gap), gap, es) && Follows(found, Arrivals(es))
    ensures var s, ps := Run(Migrated(found, gap), gap, es), found + Arrivals(es);
      && Joined(s.positions, s.index.flights, start, end)[(p, key)] ==
           (if && p.latitude.Some? && p.longitude.Some?
               && (start.Some? ==> start.value <= p.ts) && (end.Some? ==> p.ts <= end.value)
               && key == OwnFlight(ps, gap, p) && Spanned(ps, gap, p)
            then multiset(s.positions)[p] else 0)
      && (p in ps ==> Spanned(ps, gap, p) && Matches(s.index.flights, p) == {OwnFlight(ps, gap, p)})
  {
    hide Indexed, Follows, Quiet, SegTable, OwnFlight, Spanned, Joined;
    var s, ps := Run(Migrated(found, gap), gap, es), found + Arrivals(es);
    RunsAreTransparent(found, gap, es);
    IndexedTable(s.index, ps, gap);
    JoinedCount(s.positions, s.index.flights, start, end, p, key);
    MatchesOwnFlight(s.index.flights, ps, gap, p);
    assert key in Matches(s.index.flights, p) <==> key == OwnFlight(ps, gap, p) && Spanned(ps, gap, p);
    if p in ps {
      OwnPositionIsSpanned(ps, gap, p);
    }
  }

  /**
   * Without prunes and imports the query returns every located position that was found
   * or arrived inside the window, as often as it did, with its own flight and no other.
   */
  lemma EveryArrivalIsReturned(found: seq<Position>, gap: int, es: seq<Event>, start: Option<int>, end: Option<int>,
                               p: Position, key: FlightKey)
    requires gap >= 0 && Follows(found, Arrivals(es))
    requires forall i | 0 <= i < |es| :: !es[i].Prune? && !es[i].Import?
    ensures var s, ps := Run(Migrated(found, gap), gap, es), found + Arrivals(es);
      Joined(s.positions, s.index.flights, start, end)[(p, key)] ==
        if && p.latitude.Some? && p.longitude.Some?
           && (start.Some? ==> start.value <= p.ts) && (end.Some? ==> p.ts <= end.value)
           && key == OwnFlight(ps, gap, p)
        then multiset(ps)[p] else 0
  {
    hide Indexed, Follows, Quiet, SegTable, OwnFlight, Spanned, Joined, Matches;
    NoEarlyImportIsQuiet(found, gap, es);
    PlainRunsKeepArrivals(Migrated(found, gap), gap, es);
    TrajectoriesAreExact(found, gap, es, start, end, p, key);
    var ps := found + Arrivals(es);
    assert p in ps <==> multiset(ps)[p] > 0;
  }

  /** An imported row between two flights is stored and never returned. */
  lemma ImportedRowCanBeLost(p: Position, q: Position)
    requires p == Position("x", None, None, Some(0.0), Some(0.0), 0)
    requires q == Position("x", None, None, Some(0.0), Some(0.0), 100)
    ensures var s := Run(FRESH, 10, [Insert([p]), Import([q])]);
      && s.positions == [p, q] && Selected(None, None, q)
      && Matches(s.index.flights, q) == {}
  {
    var es := [Insert([p]), Import([q])];
    assert es[..1] == [Insert([p])] && [Insert([p])][..0] == [] && [] + [p] + [q] == [p, q];
    assert Run(FRESH, 10, es) == Step(Step(Run(FRESH, 10, []), 10, es[0]), 10, es[1]);
    InsertAllFirst(EMPTY, 10, p);
  }

  // ------------------------------------------------------- filed arrivals

  /** The flights the tracker files arrivals under. */
  function Tags(gap: int, ps: seq<Position>): (tags: seq<FlightKey>)
    ensures |tags| == |ps|
  {
    if ps == [] then []
    else
      var n := |ps| - 1;
      Tags(gap, ps[..n]) + [FlightOf(InsertAll(EMPTY, gap, ps[..n]).tracker, gap, ps[n])]
  }

  lemma TagsSnoc(gap: int, ps: seq<Position>, p: Position)
    ensures Tags(gap, ps + [p]) == Tags(gap, ps) + [FlightOf(InsertAll(EMPTY, gap, ps).tracker, gap, p)]
  {
    assert (ps + [p])[..|ps|] == ps;
  }

  /** Every arrival joins with the flight it was filed under, and no other. */
  ghost predicate JoinIsExact(flights: FlightTable, ps: seq<Position>, tags: seq<FlightKey>)
    requires |tags| == |ps|
  {
    forall i | 0 <= i < |ps| :: Matches(flights, ps[i]) == {tags[i]}
  }

  // ------------------------------------------------------- the exact condition

  /**
   * The new position does not fall before its flight's first timestamp, and if it
   * opens a flight it comes after everything in the one before.
   */
  predicate Placed(idx: Index, gap: int, p: Position) {
    p.hex in idx.tracker && idx.tracker[p.hex].flight in idx.flights ==>
      var f := idx.flights[idx.tracker[p.hex].flight];
      if Continues(idx.tracker, gap, p) then p.ts >= f.first else p.ts > f.last
  }

  /** Every arrival was placed. */
  predicate AllPlaced(gap: int, ps: seq<Position>) {
    ps == [] || (AllPlaced(gap, ps[..|ps| - 1]) && Placed(InsertAll(EMPTY, gap, ps[..|ps| - 1]), gap, ps[|ps| - 1]))
  }

  lemma AllPlacedSnoc(gap: int, ps: seq<Position>, p: Position)
    ensures AllPlaced(gap, ps + [p]) <==> AllPlaced(gap, ps) && Placed(InsertAll(EMPTY, gap, ps), gap, p)
  {
    assert (ps + [p])[..|ps|] == ps;
  }

  /** What is always known of a filed position: its flight exists and ends no earlier. */
  ghost predicate Filed(idx: Index, ps: seq<Position>, tags: seq<FlightKey>)
    requires |tags| == |ps|
  {
    && (forall i | 0 <= i < |ps| ::
          tags[i] in idx.flights && tags[i].hex == ps[i].hex && ps[i].ts <= idx.flights[tags[i]].last)
    && (forall h | h in idx.tracker ::
          exists i :: 0 <= i < |ps| && ps[i].hex == h
                      && tags[i] == idx.tracker[h].flight && ps[i].ts == idx.tracker[h].lastSeen)
  }

  /** ... and that it does not begin later. */
  ghost predicate Inside(flights: FlightTable, ps: seq<Position>, tags: seq<FlightKey>)
    requires |tags| == |ps|
  {
    forall i | 0 <= i < |ps| :: tags[i] in flights && flights[tags[i]].first <= ps[i].ts
  }

  // --------------------------------------------------------- one more arrival

  lemma InsertKeepsFiled(idx: Index, gap: int, ps: seq<Position>, tags: seq<FlightKey>, p: Position)
    requires |tags| == |ps| && WellFormed(idx) && Filed(idx, ps, tags)
    ensures Filed(InsertOne(idx, gap, p), ps + [p], tags + [FlightOf(idx.tracker, gap, p)])
  {
    hide RowsTracked, NumbersDense, TrackerBacked;
    InsertGrows(idx, gap, p);
    var r, qs, ts := InsertOne(idx, gap, p), ps + [p], tags + [FlightOf(idx.tracker, gap, p)];
    forall h | h in r.tracker
      ensures exists i :: 0 <= i < |qs| && qs[i].hex == h
                          && ts[i] == r.tracker[h].flight && qs[i].ts == r.tracker[h].lastSeen
    {
      if h == p.hex {
        assert qs[|ps|] == p && ts[|ps|] == r.tracker[h].flight;
      } else {
        assert r.tracker[h] == idx.tracker[h];
        var i :| 0 <= i < |ps| && ps[i].hex == h
                 && tags[i] == idx.tracker[h].flight && ps[i].ts == idx.tracker[h].lastSeen;
        assert qs[i] == ps[i] && ts[i] == tags[i];
      }
    }
  }

  /** The newest timestamp of an aircraft ends its latest flight, and flights lie more than a gap apart. */
  ghost predicate Spaced(idx: Index, gap: int) {
    Apart(idx.flights, gap) && SeenInStep(idx)
  }

  lemma NothingIsFiled()
    ensures WellFormed(EMPTY) && Filed(EMPTY, [], [])
    ensures forall gap: int :: Apart(EMPTY.flights, gap) && Spaced(EMPTY, gap) && Inside(EMPTY.flights, [], [])
  {
  }

  lemma {:induction false} ArrivalsAreFiled(gap: int, ps: seq<Position>)
    ensures WellFormed(InsertAll(EMPTY, gap, ps))
    ensures Filed(InsertAll(EMPTY, gap, ps), ps, Tags(gap, ps))
  {
    hide WellFormed, Filed;
    if ps == [] {
      NothingIsFiled();
    } else {
      var n := |ps| - 1;
      ArrivalsAreFiled(gap, ps[..n]);
      InsertKeepsFiled(InsertAll(EMPTY, gap, ps[..n]), gap, ps[..n], Tags(gap, ps[..n]), ps[n]);
      InsertOneKeepsWellFormed(InsertAll(EMPTY, gap, ps[..n]), gap, ps[n]);
      assert ps == ps[..n] + [ps[n]];
    }
  }

  lemma PlacedKeepsApart(idx: Index, gap: int, p: Position)
    requires WellFormed(idx) && Apart(idx.flights, 0) && Placed(idx, gap, p)
    ensures Apart(InsertOne(idx, gap, p).flights, 0)
  {
    hide NumbersDense;
    InsertGrows(idx, gap, p);
    PickedIsNewest(idx, gap, p);
    var r, flight := InsertOne(idx, gap, p).flights, FlightOf(idx.tracker, gap, p);
    forall a, b | a in r && b in r && a.hex == b.hex && a.num < b.num ensures r[b].first - r[a].last > 0 {
      if b == flight && !Continues(idx.tracker, gap, p) {
        var latest := idx.tracker[p.hex].flight;
        assert a in idx.flights && a.num <= latest.num;
        assert a == latest || idx.flights[a].last < idx.flights[latest].first <= idx.flights[latest].last;
      }
    }
  }

  lemma PlacedKeepsInside(idx: Index, gap: int, ps: seq<Position>, tags: seq<FlightKey>, p: Position)
    requires |tags| == |ps| && WellFormed(idx) && Inside(idx.flights, ps, tags) && Placed(idx, gap, p)
    ensures Inside(InsertOne(idx, gap, p).flights, ps + [p], tags + [FlightOf(idx.tracker, gap, p)])
  {
    hide RowsTracked, NumbersDense;
    InsertGrows(idx, gap, p);
  }

  lemma {:induction false} PlacedArrivalsAreInside(gap: int, ps: seq<Position>)
    requires AllPlaced(gap, ps)
    ensures Apart(InsertAll(EMPTY, gap, ps).flights, 0)
    ensures Inside(InsertAll(EMPTY, gap, ps).flights, ps, Tags(gap, ps))
  {
    hide WellFormed, Filed, Apart, Inside, Placed;
    if ps == [] {
      NothingIsFiled();
    } else {
      var n := |ps| - 1;
      PlacedArrivalsAreInside(gap, ps[..n]);
      ArrivalsAreFiled(gap, ps[..n]);
      var idx := InsertAll(EMPTY, gap, ps[..n]);
      PlacedKeepsApart(idx, gap, ps[n]);
      PlacedKeepsInside(idx, gap, ps[..n], Tags(gap, ps[..n]), ps[n]);
      assert ps == ps[..n] + [ps[n]];
    }
  }

  /** Flights that lie apart cover a timestamp at most once. */
  lemma InsideIsExact(idx: Index, ps: seq<Position>, tags: seq<FlightKey>)
    requires |tags| == |ps| && Apart(idx.flights, 0) && Inside(idx.flights, ps, tags) && Filed(idx, ps, tags)
    ensures JoinIsExact(idx.flights, ps, tags)
  {
    forall i | 0 <= i < |ps| ensures Matches(idx.flights, ps[i]) == {tags[i]} {
      forall key | key in Matches(idx.flights, ps[i]) ensures key == tags[i] {
        assert key.num == tags[i].num;
      }
    }
  }

  /** Exactness of a longer run passes down to its beginning. */
  lemma ExactnessPassesDown(idx: Index, gap: int, ps: seq<Position>, tags: seq<FlightKey>, p: Position)
    requires |tags| == |ps| && WellFormed(idx) && Filed(idx, ps, tags)
    requires JoinIsExact(InsertOne(idx, gap, p).flights, ps + [p], tags + [FlightOf(idx.tracker, gap, p)])
    ensures JoinIsExact(idx.flights, ps, tags)
  {
    hide RowsTracked, NumbersDense, TrackerBacked;
    InsertGrows(idx, gap, p);
    var r, qs, ts := InsertOne(idx, gap, p).flights, ps + [p], tags + [FlightOf(idx.tracker, gap, p)];
    forall i | 0 <= i < |ps| ensures Matches(idx.flights, ps[i]) == {tags[i]} {
      assert Matches(r, qs[i]) == {ts[i]} && qs[i] == ps[i] && ts[i] == tags[i];
      assert Matches(idx.flights, ps[i]) <= Matches(r, ps[i]);
      assert tags[i] in Matches(r, ps[i]);
    }
  }

  lemma ExactnessNeedsPlacement(idx: Index, gap: int, ps: seq<Position>, tags: seq<FlightKey>, p: Position)
    requires gap >= 0 && |tags| == |ps| && WellFormed(idx) && Filed(idx, ps, tags)
    requires JoinIsExact(idx.flights, ps, tags)
    requires JoinIsExact(InsertOne(idx, gap, p).flights, ps + [p], tags + [FlightOf(idx.tracker, gap, p)])
    ensures Placed(idx, gap, p)
  {
    hide RowsTracked, NumbersDense;
    InsertGrows(idx, gap, p);
    var r, qs := InsertOne(idx, gap, p).flights, ps + [p];
    assert Matches(r, qs[|ps|]) == {FlightOf(idx.tracker, gap, p)};
    if p.hex in idx.tracker {
      var active := idx.tracker[p.hex].flight;
      var i :| 0 <= i < |ps| && ps[i].hex == p.hex && tags[i] == active && ps[i].ts == idx.tracker[p.hex].lastSeen;
      assert active in Matches(idx.flights, ps[i]);
      assert FlightOf(idx.tracker, gap, p) in Matches(r, p);
      if !Continues(idx.tracker, gap, p) {
        assert active !in Matches(r, p);
      }
    }
  }

  /**
   * The trajectory join is exact if and only if every arrival was placed: none
   * fell before the flight it extended, and none opened a flight inside the
   * one before.
   */
  lemma {:induction false} JoinIsExactIffPlaced(gap: int, ps: seq<Position>)
    requires gap >= 0
    ensures JoinIsExact(InsertAll(EMPTY, gap, ps).flights, ps, Tags(gap, ps)) <==> AllPlaced(gap, ps)
  {
    hide WellFormed, Filed, Apart, Inside, Placed;
    if AllPlaced(gap, ps) {
      PlacedArrivalsAreInside(gap, ps);
      ArrivalsAreFiled(gap, ps);
      InsideIsExact(InsertAll(EMPTY, gap, ps), ps, Tags(gap, ps));
    } else if JoinIsExact(InsertAll(EMPTY, gap, ps).flights, ps, Tags(gap, ps)) {
      var n := |ps| - 1;
      var idx, tags := InsertAll(EMPTY, gap, ps[..n]), Tags(gap, ps[..n]);
      assert ps == ps[..n] + [ps[n]];
      ArrivalsAreFiled(gap, ps[..n]);
      ExactnessPassesDown(idx, gap, ps[..n], tags, ps[n]);
      JoinIsExactIffPlaced(gap, ps[..n]);
      ExactnessNeedsPlacement(idx, gap, ps[..n], tags, ps[n]);
    }
  }

  // ---------------------------------------------------------- in-order arrivals

  lemma InsertKeepsStep(idx: Index, gap: int, p: Position)
    requires WellFormed(idx) && SeenInStep(idx)
    requires p.hex in idx.tracker ==> p.ts >= idx.tracker[p.hex].lastSeen
    ensures SeenInStep(InsertOne(idx, gap, p))
  {
    InsertGrows(idx, gap, p);
    hide NumbersDense, RowsTracked;
    var r := InsertOne(idx, gap, p);
    forall h | h in r.tracker
      ensures r.tracker[h].flight in r.flights && r.tracker[h].lastSeen == r.flights[r.tracker[h].flight].last
    {
      if h != p.hex {
        assert r.tracker[h] == idx.tracker[h];
      }
    }
  }

  lemma OnTimeIsPlaced(idx: Index, gap: int, p: Position)
    requires gap >= 0 && WellFormed(idx) && Spaced(idx, gap)
    requires p.hex in idx.tracker ==> p.ts >= idx.tracker[p.hex].lastSeen
    ensures Placed(idx, gap, p)
  {
    hide NumbersDense, Apart;
  }

  lemma InsertKeepsGaps(idx: Index, gap: int, p: Position)
    requires gap >= 0 && WellFormed(idx) && Spaced(idx, gap)
    requires p.hex in idx.tracker ==> p.ts >= idx.tracker[p.hex].lastSeen
    ensures Apart(InsertOne(idx, gap, p).flights, gap)
  {
    InsertGrows(idx, gap, p);
    PickedIsNewest(idx, gap, p);
    hide NumbersDense;
    var r, flight := InsertOne(idx, gap, p).flights, FlightOf(idx.tracker, gap, p);
    forall a, b | a in r && b in r && a.hex == b.hex && a.num < b.num ensures r[b].first - r[a].last > gap {
      if b == flight && !Continues(idx.tracker, gap, p) {
        var latest := idx.tracker[p.hex].flight;
        assert a in idx.flights && a.num <= latest.num;
        assert a == latest || idx.flights[latest].first - idx.flights[a].last > gap;
      }
    }
  }

  lemma InsertKeepsSpaced(idx: Index, gap: int, p: Position)
    requires gap >= 0 && WellFormed(idx) && Spaced(idx, gap)
    requires p.hex in idx.tracker ==> p.ts >= idx.tracker[p.hex].lastSeen
    ensures Spaced(InsertOne(idx, gap, p), gap) && Placed(idx, gap, p)
  {
    hide WellFormed, Apart, SeenInStep, Placed, InsertOne;
    OnTimeIsPlaced(idx, gap, p);
    InsertKeepsGaps(idx, gap, p);
    InsertKeepsStep(idx, gap, p);
  }

  lemma LastSeenIsEarlier(gap: int, ps: seq<Position>)
    requires ps != [] && InOrder(ps)
    ensures var n := |ps| - 1; var tracker := InsertAll(EMPTY, gap, ps[..n]).tracker;
      ps[n].hex in tracker ==> ps[n].ts >= tracker[ps[n].hex].lastSeen
  {
    var n := |ps| - 1;
    ArrivalsAreFiled(gap, ps[..n]);
  }

  /** In-order arrivals leave an aircraft's flights more than a gap apart, and every one is placed. */
  lemma {:induction false} InOrderIsSpaced(gap: int, ps: seq<Position>)
    requires gap >= 0 && InOrder(ps)
    ensures Spaced(InsertAll(EMPTY, gap, ps), gap) && AllPlaced(gap, ps)
  {
    hide WellFormed, Filed, Spaced, Placed;
    if ps == [] {
      NothingIsFiled();
    } else {
      var n := |ps| - 1;
      InOrderIsSpaced(gap, ps[..n]);
      ArrivalsAreFiled(gap, ps[..n]);
      LastSeenIsEarlier(gap, ps);
      InsertKeepsSpaced(InsertAll(EMPTY, gap, ps[..n]), gap, ps[n]);
    }
  }

  /** A late position can be lost: filed under a flight that begins after it, it joins with none. */
  lemma LatePositionIsLost(p: Position, q: Position)
    requires p == Position("x", None, None, None, None, 100)
    requires q == Position("x", None, None, None, None, 0)
    ensures !JoinIsExact(InsertAll(EMPTY, 10, [p, q]).flights, [p, q], Tags(10, [p, q]))
  {
    assert [] + [p] == [p] && [p] + [q] == [p, q];
    AllPlacedSnoc(10, [], p);
    AllPlacedSnoc(10, [p], q);
    InsertAllSnoc(EMPTY, 10, [], p);
    var key := FlightKey("x", 0);
    assert InsertAll(EMPTY, 10, [p]).flights[key].first == 100;
    JoinIsExactIffPlaced(10, [p, q]);
  }
}
