// Exactly when the tracker loop builds the table of the segmentation.
module ExactTable {
  import opened Common
  import opened FlightIds
  import opened FlightIndex
  import opened Segmentation
  import opened FlightIntervals
  import opened IncrementalFlights

  /** Every arrival is well placed when it comes. */
  predicate AllWellPlaced(idx: Index, gap: int, qs: seq<Position>) {
    qs == [] ||
    var n := |qs| - 1;
    AllWellPlaced(idx, gap, qs[..n]) && WellPlaced(InsertAll(idx, gap, qs[..n]), gap, qs[n])
  }

  lemma AllWellPlacedSnoc(idx: Index, gap: int, qs: seq<Position>, p: Position)
    ensures AllWellPlaced(idx, gap, qs + [p])
       <==> AllWellPlaced(idx, gap, qs) && WellPlaced(InsertAll(idx, gap, qs), gap, p)
  {
    assert (qs + [p])[..|qs|] == qs;
  }

  lemma EmptyIsAligned(gap: int)
    ensures Aligned(EMPTY, [], gap)
  {
    EmptyIsIndexed(gap);
  }

  lemma {:induction false} WellPlacedKeepsAligned(idx: Index, ps: seq<Position>, gap: int, qs: seq<Position>)
    requires gap >= 0 && Aligned(idx, ps, gap) && AllWellPlaced(idx, gap, qs)
    ensures Aligned(InsertAll(idx, gap, qs), ps + qs, gap)
  {
    hide Aligned, WellPlaced;
    if qs == [] {
      assert ps + qs == ps;
    } else {
      var n := |qs| - 1;
      WellPlacedKeepsAligned(idx, ps, gap, qs[..n]);
      InsertOneKeepsAligned(InsertAll(idx, gap, qs[..n]), ps + qs[..n], gap, qs[n]);
      assert ps + qs == (ps + qs[..n]) + [qs[n]];
    }
  }

  lemma KeySettled(ps: seq<Position>, gap: int, p: Position, i: nat)
    requires Settles(ps, gap, p) && i < |ps|
    ensures KeyAt(ps + [p], gap, i) == KeyAt(ps, gap, i)
  {
    TimesSnoc(ps, p, ps[i].hex);
    assert ps[i].ts in Times(ps, ps[i].hex);
    if ps[i].hex != p.hex {
      assert Times(ps + [p], ps[i].hex) == Times(ps, ps[i].hex);
    }
  }

  /** A well placed arrival is filed under its flight in the segmentation of all arrivals, later ones included. */
  lemma {:induction false} FiledUnderOwnFlight(idx: Index, ps: seq<Position>, gap: int, qs: seq<Position>, j: nat)
    requires gap >= 0 && Aligned(idx, ps, gap) && AllWellPlaced(idx, gap, qs) && j < |qs|
    ensures FlightOf(InsertAll(idx, gap, qs[..j]).tracker, gap, qs[j]) == KeyAt(ps + qs, gap, |ps| + j)
  {
    hide Aligned, WellPlaced, InsertAll;
    var n := |qs| - 1;
    var all := ps + qs[..n];
    WellPlacedKeepsAligned(idx, ps, gap, qs[..n]);
    PickedKey(InsertAll(idx, gap, qs[..n]), all, gap, qs[n]);
    assert ps + qs == all + [qs[n]];
    if j < n {
      FiledUnderOwnFlight(idx, ps, gap, qs[..n], j);
      assert qs[..n][..j] == qs[..j];
      KeySettled(all, gap, qs[n], |ps| + j);
    }
  }

  /** A first position that is not well placed, if there is one. */
  lemma {:induction false} FirstMisplaced(idx: Index, gap: int, qs: seq<Position>) returns (n: nat)
    requires !AllWellPlaced(idx, gap, qs)
    ensures n < |qs| && AllWellPlaced(idx, gap, qs[..n])
    ensures !WellPlaced(InsertAll(idx, gap, qs[..n]), gap, qs[n])
  {
    hide WellPlaced;
    n := |qs| - 1;
    if !AllWellPlaced(idx, gap, qs[..n]) {
      var m := FirstMisplaced(idx, gap, qs[..n]);
      assert qs[..n][..m] == qs[..m];
      n := m;
    }
  }

  lemma TrackedHex(idx: Index, h: string)
    requires TrackerBacked(idx) && h in idx.tracker
    ensures idx.tracker[h].flight.hex == h
  {
  }

  /** A position counted in a flight that begins after it belongs to an earlier, frozen one. */
  lemma LostBeforeFirst(idx: Index, ps: seq<Position>, gap: int, p: Position, rest: seq<Position>, final: FlightTable)
    requires gap >= 0 && Aligned(idx, ps, gap) && p.hex in idx.tracker && p in rest
    requires var k := idx.tracker[p.hex].flight;
      && k in idx.flights && k in final && p.ts < idx.flights[k].first == final[k].first
      && forall key | key in idx.flights && key.hex == p.hex && key.num < k.num ::
           key in final && final[key] == idx.flights[key]
    ensures !SameTable(final, SegTable(ps + rest, gap))
  {
    hide WellPlaced, SegTable, Names, TrackerBacked;
    var k := idx.tracker[p.hex].flight;
    var seg := SegTable(ps + rest, gap);
    assert p in ps + rest;
    OwnFlightCovers(ps + rest, gap, p);
    var own := FlightKey(p.hex, NumAt(Times(ps + rest, p.hex), gap, p.ts));
    assert k.hex == p.hex by { TrackedHex(idx, p.hex); }
    if SameTable(final, seg) {
      assert k in seg && seg[k].first == final[k].first;
      if own.num > k.num {
        FlightsApart(ps + rest, gap, k, own);
        SegTableRowsPlausible(ps + rest, gap, k);
      } else if own.num < k.num {
        AlignedKeys(idx, ps, gap, own);
        assert final[own] == idx.flights[own];
        CountGrowsInside(ps, rest, gap, own, p);
      }
    }
  }

  /** A flight opened too close to the one before stays too close. */
  lemma OpenedTooClose(ps: seq<Position>, gap: int, k: FlightKey, final: FlightTable)
    requires var next := FlightKey(k.hex, k.num + 1);
      k in final && next in final && final[next].first - final[k].last <= gap
    ensures !SameTable(final, SegTable(ps, gap))
  {
    hide SegTable;
    SegTableApart(ps, gap);
  }

  /** After a misplaced position the table is never that of the positions again. */
  lemma MisplacedIsForGood(idx: Index, ps: seq<Position>, gap: int, p: Position, rest: seq<Position>)
    requires gap >= 0 && Aligned(idx, ps, gap) && !WellPlaced(idx, gap, p)
    ensures !SameTable(InsertAll(InsertOne(idx, gap, p), gap, rest).flights, SegTable(ps + ([p] + rest), gap))
  {
    hide SegTable, Names, SameTable, RowsTracked, NumbersDense, InsertOne, TrackerBacked;
    var k := idx.tracker[p.hex].flight;
    var after := InsertOne(idx, gap, p);
    var final := InsertAll(after, gap, rest).flights;
    AlignedIsWellFormed(idx, ps, gap);
    TrackedHex(idx, p.hex);
    InsertGrows(idx, gap, p);
    InsertOneKeepsWellFormed(idx, gap, p);
    Frozen(after, gap, rest);
    if Continues(idx.tracker, gap, p) {
      LostBeforeFirst(idx, ps, gap, p, [p] + rest, final);
    } else {
      assert FlightOf(idx.tracker, gap, p) == FlightKey(k.hex, k.num + 1);
      OpenedTooClose(ps + ([p] + rest), gap, k, final);
    }
  }

  /**
   * Incremental equals declarative, exactly: whatever order positions arrive in, the
   * table they leave is that of segmenting all positions, in every column but the
   * callsign, if and only if each of them was well placed when it came.
   */
  lemma TableIsExactIffWellPlaced(idx: Index, ps: seq<Position>, gap: int, qs: seq<Position>)
    requires gap >= 0 && Aligned(idx, ps, gap)
    ensures SameTable(InsertAll(idx, gap, qs).flights, SegTable(ps + qs, gap)) <==> AllWellPlaced(idx, gap, qs)
  {
    hide SegTable, WellPlaced, Names, TrackerBacked, SameTable;
    if AllWellPlaced(idx, gap, qs) {
      WellPlacedKeepsAligned(idx, ps, gap, qs);
    } else {
      var n := FirstMisplaced(idx, gap, qs);
      WellPlacedKeepsAligned(idx, ps, gap, qs[..n]);
      var rest := qs[n + 1..];
      MisplacedIsForGood(InsertAll(idx, gap, qs[..n]), ps + qs[..n], gap, qs[n], rest);
      assert qs == qs[..n] + ([qs[n]] + rest);
      InsertAllAppend(idx, gap, qs[..n], [qs[n]] + rest);
      InsertAllAppend(InsertAll(idx, gap, qs[..n]), gap, [qs[n]], rest);
      InsertAllSnoc(InsertAll(idx, gap, qs[..n]), gap, [], qs[n]);
      assert [] + [qs[n]] == [qs[n]];
      assert ps + qs == (ps + qs[..n]) + ([qs[n]] + rest);
    }
  }

  /** The same for a fresh store. */
  lemma FreshTableIsExactIffWellPlaced(ps: seq<Position>, gap: int)
    requires gap >= 0
    ensures SameTable(InsertAll(EMPTY, gap, ps).flights, SegTable(ps, gap)) <==> AllWellPlaced(EMPTY, gap, ps)
    ensures InOrder(ps) ==> AllWellPlaced(EMPTY, gap, ps)
  {
    hide SegTable, SameTable, AllWellPlaced, InOrder;
    EmptyIsAligned(gap);
    assert [] + ps == ps;
    TableIsExactIffWellPlaced(EMPTY, [], gap, ps);
    if InOrder(ps) {
      IncrementalEqualsDeclarative(ps, gap);
    }
  }

  /**
   * The whole index, tracker times included, is exact after a run if and only if every
   * position was well placed and no tracker entry ends up behind its row.
   */
  lemma IndexIsExactIff(idx: Index, ps: seq<Position>, gap: int, qs: seq<Position>)
    requires gap >= 0 && Aligned(idx, ps, gap)
    ensures Indexed(InsertAll(idx, gap, qs), ps + qs, gap)
       <==> AllWellPlaced(idx, gap, qs) && SeenInStep(InsertAll(idx, gap, qs))
  {
    hide SameTable, TrackerBacked, AllWellPlaced, SegTable, Starts, Times, InsertAll;
    var r := InsertAll(idx, gap, qs);
    TableIsExactIffWellPlaced(idx, ps, gap, qs);
    if AllWellPlaced(idx, gap, qs) && SeenInStep(r) {
      WellPlacedKeepsAligned(idx, ps, gap, qs);
      forall h | h in r.tracker ensures IsLatest(Times(ps + qs, h), r.tracker[h].lastSeen) {
        TrackedSpan(r, ps + qs, gap, h);
      }
    } else if Indexed(r, ps + qs, gap) {
      IndexedIsAligned(r, ps + qs, gap);
    }
  }

  /** A late position can spoil the table itself: the flight of 100 and 95 begins at 95, and its row says 100. */
  lemma LatePositionSpoilsTable(p: Position, q: Position)
    requires p == Position("x", None, None, None, None, 100)
    requires q == Position("x", None, None, None, None, 95)
    ensures !SameTable(InsertAll(EMPTY, 10, [p, q]).flights, SegTable([p, q], 10))
  {
    hide Aligned, SameTable, SegTable, InsertAll, AllWellPlaced;
    EmptyIsAligned(10);
    TableIsExactIffWellPlaced(EMPTY, [], 10, [p, q]);
    assert [p] + [q] == [p, q] && [] + [p, q] == [p, q];
    AllWellPlacedSnoc(EMPTY, 10, [p], q);
    InsertAllFirst(EMPTY, 10, p);
  }

  /** ... but need not: 95 after 90 and 100 falls inside the flight. */
  lemma LatePositionCanBeHarmless(p: Position, q: Position, r: Position)
    requires p == Position("x", None, None, None, None, 90)
    requires q == Position("x", None, None, None, None, 100)
    requires r == Position("x", None, None, None, None, 95)
    ensures !InOrder([p, q, r])
    ensures SameTable(InsertAll(EMPTY, 10, [p, q, r]).flights, SegTable([p, q, r], 10))
  {
    hide Aligned, SameTable, SegTable, InsertAll;
    EmptyIsAligned(10);
    TableIsExactIffWellPlaced(EMPTY, [], 10, [p, q, r]);
    assert [] + [p] == [p] && [p] + [q] == [p, q] && [p, q] + [r] == [p, q, r] && [] + [p, q, r] == [p, q, r];
    AllWellPlacedSnoc(EMPTY, 10, [], p);
    AllWellPlacedSnoc(EMPTY, 10, [p], q);
    AllWellPlacedSnoc(EMPTY, 10, [p, q], r);
    InsertAllFirst(EMPTY, 10, p);
    InsertAllSnoc(EMPTY, 10, [p], q);
    assert [p, q, r][1].ts == 100 && [p, q, r][2].ts == 95;
  }
}
