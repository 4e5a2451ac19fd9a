// The tracker loop builds the table the declarative segmentation describes.
module IncrementalFlights {
  import opened Common
  import opened FlightIds
  import opened FlightIndex
  import opened Segmentation
  import opened FlightIntervals

  /** Equal in every column but the callsign. */
  predicate SameButCallsign(f: Flight, g: Flight) {
    f.(callsign := g.callsign) == g
  }

  ghost predicate SameTable(a: FlightTable, b: FlightTable) {
    a.Keys == b.Keys && forall key | key in a :: SameButCallsign(a[key], b[key])
  }

  /** The tracker names each aircraft's latest flight. */
  ghost predicate Names(tracker: Tracker, ps: seq<Position>, gap: int) {
    && (forall h :: h in tracker <==> Times(ps, h) != {})
    && (forall h | h in tracker ::
          && tracker[h].flight.hex == h
          && tracker[h].flight.num == |Starts(Times(ps, h), gap)| - 1)
  }

  /** ... and its latest timestamp. */
  ghost predicate Tracks(tracker: Tracker, ps: seq<Position>, gap: int) {
    Names(tracker, ps, gap) && forall h | h in tracker :: IsLatest(Times(ps, h), tracker[h].lastSeen)
  }

  /** The table is that of the positions; the tracker names the right flights but may lag behind them. */
  ghost predicate Aligned(idx: Index, ps: seq<Position>, gap: int) {
    Names(idx.tracker, ps, gap) && SameTable(idx.flights, SegTable(ps, gap)) && TrackerBacked(idx)
  }

  /** The index of a set of positions, however it was built. */
  ghost predicate Indexed(idx: Index, ps: seq<Position>, gap: int) {
    Tracks(idx.tracker, ps, gap) && SameTable(idx.flights, SegTable(ps, gap))
  }

  /** Each aircraft's timestamps never decrease; aircraft interleave freely. */
  ghost predicate InOrder(ps: seq<Position>) {
    forall i, j | 0 <= i < j < |ps| && ps[i].hex == ps[j].hex :: ps[i].ts <= ps[j].ts
  }

  /** `p` is not earlier than any position of its aircraft. */
  ghost predicate OnTime(ps: seq<Position>, p: Position) {
    forall u | u in Times(ps, p.hex) :: u <= p.ts
  }

  // --------------------------------------------------------- one more position

  lemma TimesSnoc(ps: seq<Position>, p: Position, hex: string)
    ensures Times(ps + [p], hex) == Times(ps, hex) + (if hex == p.hex then {p.ts} else {})
  {
    var qs := ps + [p];
    forall t | t in Times(ps, hex) ensures t in Times(qs, hex) {
      var i :| 0 <= i < |ps| && ps[i].hex == hex && ps[i].ts == t;
      assert qs[i] == ps[i];
    }
    assert qs[|ps|] == p;
  }

  /** Adding `p` renumbers no position of its aircraft. */
  ghost predicate Settles(ps: seq<Position>, gap: int, p: Position) {
    var T := Times(ps, p.hex);
    forall u | u in T :: NumAt(T + {p.ts}, gap, u) == NumAt(T, gap, u)
  }

  /**
   * A position that extends a flight does not come before it, and one that opens a
   * flight comes more than the gap after the end of the one before.
   */
  predicate WellPlaced(idx: Index, gap: int, p: Position) {
    p.hex in idx.tracker && idx.tracker[p.hex].flight in idx.flights ==>
      var f := idx.flights[idx.tracker[p.hex].flight];
      if Continues(idx.tracker, gap, p) then p.ts >= f.first else p.ts - f.last > gap
  }

  /** The tracked row of an aligned index spans the latest flight. */
  lemma TrackedSpan(idx: Index, ps: seq<Position>, gap: int, h: string)
    requires gap >= 0 && Aligned(idx, ps, gap) && h in idx.tracker
    ensures idx.tracker[h].flight in idx.flights
    ensures var T, f := Times(ps, h), idx.flights[idx.tracker[h].flight];
      && IsLatest(T, f.last)
      && f.first in Starts(T, gap)
      && (forall s | s in Starts(T, gap) :: s <= f.first)
      && idx.tracker[h].lastSeen <= f.last
  {
    hide SegTable, Starts;
    LatestFlightSpan(ps, gap, idx.tracker[h].flight);
  }

  lemma PickedTimes(T: set<int>, gap: int, first: int, last: int, lastSeen: int, t: int)
    requires gap >= 0 && IsLatest(T, last) && lastSeen <= last
    requires first in Starts(T, gap) && forall s | s in Starts(T, gap) :: s <= first
    requires if t - lastSeen <= gap then t >= first else t - last > gap
    ensures forall u | u in T :: NumAt(T + {t}, gap, u) == NumAt(T, gap, u)
    ensures NumAt(T + {t}, gap, t) == |Starts(T + {t}, gap)| - 1
    ensures |Starts(T + {t}, gap)| == |Starts(T, gap)| + if t - lastSeen <= gap then 0 else 1
  {
    if t <= last {
      AddInside(T, gap, first, last, t);
    } else {
      AppendLatest(T, gap, t);
      assert Opens(T, gap, t) <==> t - last > gap;
    }
  }

  /** The tracker's choice is the segmentation's, for a well placed position. */
  lemma PickedFlight(idx: Index, ps: seq<Position>, gap: int, p: Position)
    requires gap >= 0 && Aligned(idx, ps, gap) && WellPlaced(idx, gap, p)
    ensures Settles(ps, gap, p)
    ensures var T, num := Times(ps, p.hex), FlightOf(idx.tracker, gap, p).num;
      && num == NumAt(T + {p.ts}, gap, p.ts) == |Starts(T + {p.ts}, gap)| - 1
      && num == (if Continues(idx.tracker, gap, p) then |Starts(T, gap)| - 1 else |Starts(T, gap)|)
  {
    var T := Times(ps, p.hex);
    if p.hex !in idx.tracker {
      assert T == {};
      NoStartsInEmpty(gap);
      AppendLatest(T, gap, p.ts);
    } else {
      TrackedSpan(idx, ps, gap, p.hex);
      var f := idx.flights[idx.tracker[p.hex].flight];
      PickedTimes(T, gap, f.first, f.last, idx.tracker[p.hex].lastSeen, p.ts);
    }
  }

  /** A position's flight is settled by the positions up to it. */
  lemma InFlightSnoc(ps: seq<Position>, gap: int, p: Position, key: FlightKey, q: Position)
    requires Settles(ps, gap, p) && q in ps
    ensures InFlight(ps + [p], gap, key, q) == InFlight(ps, gap, key, q)
  {
    TimesSnoc(ps, p, key.hex);
    if q.hex == key.hex == p.hex {
      var i :| 0 <= i < |ps| && ps[i] == q;
      assert q.ts in Times(ps, key.hex);
    } else if q.hex == key.hex {
      assert Times(ps + [p], key.hex) == Times(ps, key.hex);
    }
  }

  /** One more position joins its own flight and disturbs no other. */
  lemma MembersSnoc(ps: seq<Position>, gap: int, p: Position, key: FlightKey)
    requires Settles(ps, gap, p)
    ensures Members(ps + [p], gap, key)
         == Members(ps, gap, key) + (if key == KeyAt(ps + [p], gap, |ps|) then [p] else [])
  {
    var qs := ps + [p];
    var f := (q: Position) => InFlight(ps, gap, key, q);
    var g := (q: Position) => InFlight(qs, gap, key, q);
    forall q | q in ps ensures f(q) == g(q) {
      InFlightSnoc(ps, gap, p, key, q);
    }
    FilterCongruence(f, g, ps);
    FilterSnoc(g, ps, p);
    assert qs[|ps|] == p;
    assert g(p) <==> key == KeyAt(qs, gap, |ps|);
  }

  /** The newest position's flight is the one the tracker picks; it has members already if it is extended. */
  lemma PickedKey(idx: Index, ps: seq<Position>, gap: int, p: Position)
    requires gap >= 0 && Aligned(idx, ps, gap) && WellPlaced(idx, gap, p)
    ensures Settles(ps, gap, p)
    ensures KeyAt(ps + [p], gap, |ps|) == FlightOf(idx.tracker, gap, p)
    ensures Members(ps, gap, FlightOf(idx.tracker, gap, p)) != [] <==> Continues(idx.tracker, gap, p)
  {
    hide Settles, SegTable, Members, SameTable;
    var key := FlightOf(idx.tracker, gap, p);
    PickedFlight(idx, ps, gap, p);
    TimesSnoc(ps, p, p.hex);
    assert (ps + [p])[|ps|] == p;
    assert key.hex == p.hex;
    SegTableKeys(ps, gap, key);
    SegTableRows(ps, gap, key);
  }

  lemma GroupRowSnoc(f: Flight, ms: seq<Position>, p: Position)
    requires ms != [] && SameButCallsign(f, GroupRow(ms)) && f.first <= p.ts
    ensures SameButCallsign(ApplyUpdate(f, Single(p)), GroupRow(ms + [p]))
  {
    assert (ms + [p])[..|ms|] == ms;
  }

  lemma GroupRowOne(p: Position)
    ensures SameButCallsign(NewFlight(p), GroupRow([p]))
  {
    var ms := [p];
    assert ms[..|ms| - 1] == [] && ms[|ms| - 1] == p;
    assert MinAlt(ms) == Least(MinAlt([]), p.altitude) && MaxAlt(ms) == Greatest(MaxAlt([]), p.altitude);
  }

  lemma InsertOneKeepsRow(idx: Index, ps: seq<Position>, gap: int, p: Position, key: FlightKey)
    requires gap >= 0 && Aligned(idx, ps, gap) && WellPlaced(idx, gap, p)
    ensures var r, seg := InsertOne(idx, gap, p).flights, SegTable(ps + [p], gap);
      (key in r <==> key in seg) && (key in r ==> SameButCallsign(r[key], seg[key]))
  {
    hide Names, Settles, Members, SegTable, GroupRow, KeyAt, SameButCallsign, ApplyUpdate;
    PickedKey(idx, ps, gap, p);
    MembersSnoc(ps, gap, p, key);
    SegTableRows(ps, gap, key);
    SegTableRows(ps + [p], gap, key);
    var ms := Members(ps, gap, key);
    assert key in idx.flights <==> ms != [];
    if key == FlightOf(idx.tracker, gap, p) {
      if Continues(idx.tracker, gap, p) {
        GroupRowSnoc(idx.flights[key], ms, p);
      } else {
        GroupRowOne(p);
        assert Members(ps + [p], gap, key) == [p];
      }
    } else {
      assert ms + [] == ms;
    }
  }

  lemma InsertOneKeepsNames(idx: Index, ps: seq<Position>, gap: int, p: Position)
    requires gap >= 0 && Aligned(idx, ps, gap) && WellPlaced(idx, gap, p)
    ensures Names(InsertOne(idx, gap, p).tracker, ps + [p], gap)
  {
    hide SameTable, WellPlaced, Settles, Starts, NumAt, TrackerBacked, SegTable, Times;
    PickedFlight(idx, ps, gap, p);
    TimesSnoc(ps, p, p.hex);
    var tracker := InsertOne(idx, gap, p).tracker;
    forall h
      ensures h in tracker <==> Times(ps + [p], h) != {}
      ensures h in tracker ==>
        && tracker[h].flight.hex == h
        && tracker[h].flight.num == |Starts(Times(ps + [p], h), gap)| - 1
    {
      TimesSnoc(ps, p, h);
      if h != p.hex {
        assert Times(ps + [p], h) == Times(ps, h);
      }
    }
  }

  lemma AlignedKeys(idx: Index, ps: seq<Position>, gap: int, key: FlightKey)
    requires gap >= 0 && Aligned(idx, ps, gap)
    ensures key in idx.flights <==> key.hex in idx.tracker && key.num <= idx.tracker[key.hex].flight.num
    ensures key in idx.flights ==> idx.flights[key].count >= 1 && idx.flights[key].first <= idx.flights[key].last
  {
    SegTableKeys(ps, gap, key);
    assert key in idx.flights <==> key in SegTable(ps, gap);
    if key.hex !in idx.tracker {
      assert Times(ps, key.hex) == {};
      NoStartsInEmpty(gap);
    }
    if key in idx.flights {
      SegTableRowsPlausible(ps, gap, key);
    }
  }

  lemma AlignedIsWellFormed(idx: Index, ps: seq<Position>, gap: int)
    requires gap >= 0 && Aligned(idx, ps, gap)
    ensures WellFormed(idx)
  {
    hide Names, SameTable, SegTable, TrackerBacked;
    forall key { AlignedKeys(idx, ps, gap, key); }
  }

  /** A well placed position keeps the table that of the positions. */
  lemma InsertOneKeepsAligned(idx: Index, ps: seq<Position>, gap: int, p: Position)
    requires gap >= 0 && Aligned(idx, ps, gap) && WellPlaced(idx, gap, p)
    ensures Aligned(InsertOne(idx, gap, p), ps + [p], gap)
  {
    hide Names, TrackerBacked, RowsTracked, NumbersDense, WellPlaced, SegTable, InsertOne, SameButCallsign;
    InsertOneKeepsNames(idx, ps, gap, p);
    AlignedIsWellFormed(idx, ps, gap);
    InsertOneKeepsTrackerBacked(idx, gap, p);
    forall key { InsertOneKeepsRow(idx, ps, gap, p, key); }
  }

  /** An exact index is aligned, and its tracker is level with its rows. */
  lemma IndexedIsAligned(idx: Index, ps: seq<Position>, gap: int)
    requires gap >= 0 && Indexed(idx, ps, gap)
    ensures Aligned(idx, ps, gap) && SeenInStep(idx)
  {
    hide SegTable, Starts;
    forall h | h in idx.tracker
      ensures idx.tracker[h].flight in idx.flights
      ensures idx.tracker[h].lastSeen == idx.flights[idx.tracker[h].flight].last
    {
      LatestFlightSpan(ps, gap, idx.tracker[h].flight);
    }
  }

  lemma OnTimeIsWellPlaced(idx: Index, ps: seq<Position>, gap: int, p: Position)
    requires gap >= 0 && Indexed(idx, ps, gap) && OnTime(ps, p)
    ensures Aligned(idx, ps, gap) && WellPlaced(idx, gap, p)
  {
    IndexedIsAligned(idx, ps, gap);
    AlignedIsWellFormed(idx, ps, gap);
  }

  lemma InsertOneKeepsIndexed(idx: Index, ps: seq<Position>, gap: int, p: Position)
    requires gap >= 0 && Indexed(idx, ps, gap) && OnTime(ps, p)
    ensures Indexed(InsertOne(idx, gap, p), ps + [p], gap)
  {
    hide Names, SameTable, TrackerBacked, WellPlaced, SegTable, Times;
    OnTimeIsWellPlaced(idx, ps, gap, p);
    InsertOneKeepsAligned(idx, ps, gap, p);
    var r := InsertOne(idx, gap, p);
    forall h | h in r.tracker ensures IsLatest(Times(ps + [p], h), r.tracker[h].lastSeen) {
      TimesSnoc(ps, p, h);
      if h != p.hex {
        assert Times(ps + [p], h) == Times(ps, h) && h in idx.tracker;
      }
    }
  }

  /**
   * Inserting keeps table and tracker exact if and only if the position is not earlier
   * than its aircraft's last one: a late position leaves the tracker behind the data.
   */
  lemma IndexStaysExactIff(idx: Index, ps: seq<Position>, gap: int, p: Position)
    requires gap >= 0 && Indexed(idx, ps, gap)
    ensures Indexed(InsertOne(idx, gap, p), ps + [p], gap)
       <==> (p.hex in idx.tracker ==> p.ts >= idx.tracker[p.hex].lastSeen)
  {
    hide SegTable, SameTable, Starts;
    TimesSnoc(ps, p, p.hex);
    if p.hex in idx.tracker ==> p.ts >= idx.tracker[p.hex].lastSeen {
      InsertOneKeepsIndexed(idx, ps, gap, p);
    } else {
      assert idx.tracker[p.hex].lastSeen in Times(ps + [p], p.hex);
      assert InsertOne(idx, gap, p).tracker[p.hex].lastSeen == p.ts;
    }
  }

  // --------------------------------------------------------- in-order arrivals

  /** `qs` arrive after `ps`, each on time. */
  ghost predicate Follows(ps: seq<Position>, qs: seq<Position>) {
    forall j | 0 <= j < |qs| :: OnTime(ps + qs[..j], qs[j])
  }

  lemma FollowsPrefix(ps: seq<Position>, qs: seq<Position>, n: nat)
    requires Follows(ps, qs) && n <= |qs|
    ensures Follows(ps, qs[..n])
  {
    forall j | 0 <= j < n ensures OnTime(ps + qs[..n][..j], qs[..n][j]) {
      assert qs[..n][..j] == qs[..j];
    }
  }

  lemma InOrderFollows(ps: seq<Position>)
    ensures InOrder(ps) <==> Follows([], ps)
  {
    forall j | 0 <= j < |ps| ensures [] + ps[..j] == ps[..j] {
    }
    if Follows([], ps) {
      forall i, j | 0 <= i < j < |ps| && ps[i].hex == ps[j].hex ensures ps[i].ts <= ps[j].ts {
        assert OnTime([] + ps[..j], ps[j]);
        assert ps[..j][i] == ps[i] && ps[i].ts in Times(ps[..j], ps[j].hex);
      }
    }
  }

  /** On-time arrivals keep an index exact, whichever way it was first built. */
  lemma {:induction false} InsertAllKeepsIndexed(idx: Index, ps: seq<Position>, gap: int, qs: seq<Position>)
    requires gap >= 0 && Indexed(idx, ps, gap) && Follows(ps, qs)
    ensures Indexed(InsertAll(idx, gap, qs), ps + qs, gap)
  {
    hide Indexed, OnTime;
    if qs == [] {
      assert ps + qs == ps;
    } else {
      var n := |qs| - 1;
      FollowsPrefix(ps, qs, n);
      InsertAllKeepsIndexed(idx, ps, gap, qs[..n]);
      InsertOneKeepsIndexed(InsertAll(idx, gap, qs[..n]), ps + qs[..n], gap, qs[n]);
      assert ps + qs == (ps + qs[..n]) + [qs[n]];
    }
  }

  lemma EmptyIsIndexed(gap: int)
    ensures Indexed(EMPTY, [], gap)
  {
    assert forall h :: Times([], h) == {};
  }

  /**
   * Incremental equals declarative: for in-order arrivals, in any interleaving,
   * the tracker loop leaves the table that segmenting the same positions gives,
   * in every column but the callsign.
   */
  lemma IncrementalEqualsDeclarative(ps: seq<Position>, gap: int)
    requires gap >= 0 && InOrder(ps)
    ensures SameTable(InsertAll(EMPTY, gap, ps).flights, SegTable(ps, gap))
    ensures Tracks(InsertAll(EMPTY, gap, ps).tracker, ps, gap)
  {
    EmptyIsIndexed(gap);
    InOrderFollows(ps);
    assert [] + ps == ps;
    InsertAllKeepsIndexed(EMPTY, [], gap, ps);
  }
}
