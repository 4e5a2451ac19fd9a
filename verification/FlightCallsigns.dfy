// The one column in which the tracker loop and the migration query differ.
module FlightCallsigns {
  import opened Common
  import opened FlightIds
  import opened FlightIndex
  import opened Segmentation
  import opened IncrementalFlights
  import opened ExactTable

  function LastCallsign(ms: seq<Position>): Option<string> {
    if ms == [] then None else Coalesce(ms[|ms| - 1].callsign, LastCallsign(ms[..|ms| - 1]))
  }

  ghost predicate Callsigns(idx: Index, ps: seq<Position>, gap: int) {
    forall key | key in idx.flights :: idx.flights[key].callsign == LastCallsign(Members(ps, gap, key))
  }

  lemma InsertOneKeepsCallsigns(idx: Index, ps: seq<Position>, gap: int, p: Position)
    requires gap >= 0 && Aligned(idx, ps, gap) && WellPlaced(idx, gap, p) && Callsigns(idx, ps, gap)
    ensures Callsigns(InsertOne(idx, gap, p), ps + [p], gap)
  {
    hide Names, WellPlaced, Settles, SegTable, Members, KeyAt;
    var r := InsertOne(idx, gap, p);
    var picked := FlightOf(idx.tracker, gap, p);
    PickedKey(idx, ps, gap, p);
    SegTableRows(ps, gap, picked);
    forall key | key in r.flights
      ensures r.flights[key].callsign == LastCallsign(Members(ps + [p], gap, key))
    {
      MembersSnoc(ps, gap, p, key);
      var ms := Members(ps, gap, key);
      assert (ms + [p])[..|ms|] == ms;
      if key != picked {
        assert ms + [] == ms;
      }
    }
  }

  lemma {:induction false} InsertAllCallsigns(ps: seq<Position>, gap: int)
    requires gap >= 0 && AllWellPlaced(EMPTY, gap, ps)
    ensures Aligned(InsertAll(EMPTY, gap, ps), ps, gap) && Callsigns(InsertAll(EMPTY, gap, ps), ps, gap)
  {
    hide Aligned, WellPlaced, Members;
    EmptyIsAligned(gap);
    assert [] + ps == ps;
    WellPlacedKeepsAligned(EMPTY, [], gap, ps);
    if ps != [] {
      var n := |ps| - 1;
      InsertAllCallsigns(ps[..n], gap);
      InsertOneKeepsCallsigns(InsertAll(EMPTY, gap, ps[..n]), ps[..n], gap, ps[n]);
      assert ps == ps[..n] + [ps[n]];
    }
  }

  /** The last known callsign is the greatest one of the flight. */
  ghost predicate LastIsGreatest(ms: seq<Position>) {
    LastCallsign(ms).Some? ==>
      forall p | p in ms && p.callsign.Some? :: TextLe(p.callsign.value, LastCallsign(ms).value)
  }

  /** The last known callsign is that of some position after which none has one. */
  lemma {:induction false} LastCallsignBound(ms: seq<Position>)
    ensures LastCallsign(ms).None? ==> forall p | p in ms :: p.callsign.None?
    ensures LastCallsign(ms).Some? ==> exists i | 0 <= i < |ms| ::
      ms[i].callsign == LastCallsign(ms) && forall j | i < j < |ms| :: ms[j].callsign.None?
  {
    if ms != [] {
      var n := |ms| - 1;
      LastCallsignBound(ms[..n]);
      if LastCallsign(ms).Some? && ms[n].callsign.None? {
        var i :| 0 <= i < n && ms[..n][i].callsign == LastCallsign(ms[..n])
                 && forall j | i < j < n :: ms[..n][j].callsign.None?;
        assert ms[i].callsign == LastCallsign(ms);
        assert forall j | i < j < n :: ms[j] == ms[..n][j];
      }
      assert forall p | p in ms :: p in ms[..n] || p == ms[n];
    }
  }

  lemma LastIsGreatestIff(ms: seq<Position>)
    ensures LastCallsign(ms).None? ==> forall p | p in ms :: p.callsign.None?
    ensures LastCallsign(ms) == MaxCallsign(ms) <==> LastIsGreatest(ms)
  {
    LastCallsignBound(ms);
    MaxCallsignBound(ms);
    var last, most := LastCallsign(ms), MaxCallsign(ms);
    if last.Some? {
      var i :| 0 <= i < |ms| && ms[i].callsign == last;
      assert ms[i] in ms;
      TextLeTotal(last.value, most.value);
    }
  }

  /**
   * The callsign column is where the two forms part: the loop keeps the last
   * known callsign, the window query the greatest. A flight's rows are equal
   * exactly when the last known callsign is the greatest.
   */
  lemma CallsignAgreement(ps: seq<Position>, gap: int, key: FlightKey)
    requires gap >= 0 && AllWellPlaced(EMPTY, gap, ps) && key in InsertAll(EMPTY, gap, ps).flights
    ensures key in SegTable(ps, gap)
    ensures var ms := Members(ps, gap, key);
      LastCallsign(ms).None? ==> forall p | p in ms :: p.callsign.None?
    ensures InsertAll(EMPTY, gap, ps).flights[key] == SegTable(ps, gap)[key]
       <==> LastIsGreatest(Members(ps, gap, key))
  {
    hide AllWellPlaced, Members, SegTable, Names, TrackerBacked;
    var ms := Members(ps, gap, key);
    InsertAllCallsigns(ps, gap);
    SegTableRows(ps, gap, key);
    LastIsGreatestIff(ms);
  }

  lemma BIsAfterA()
    ensures !TextLe("B", "A")
  {
  }

  lemma NoMembers(gap: int, key: FlightKey)
    ensures Members([], gap, key) == []
  {
  }

  /** The two callsigns do differ: a flight that changes from "B" to "A". */
  lemma CallsignsCanDiffer(p: Position, q: Position)
    requires p == Position("x", Some("B"), None, None, None, 0)
    requires q == Position("x", Some("A"), None, None, None, 1)
    ensures AllWellPlaced(EMPTY, 10, [p, q])
    ensures InsertAll(EMPTY, 10, [p, q]).flights != SegTable([p, q], 10)
  {
    hide Aligned, Names, Members, KeyAt, SegTable, TextLe, Settles;
    var key := FlightKey("x", 0);
    var one := InsertAll(EMPTY, 10, [p]);
    assert [] + [p] == [p] && [p] + [q] == [p, q] && [p, q][..1] == [p];
    InsertAllSnoc(EMPTY, 10, [], p);
    InsertAllSnoc(EMPTY, 10, [p], q);
    assert key in InsertAll(EMPTY, 10, [p, q]).flights;
    EmptyIsAligned(10);
    InsertOneKeepsAligned(EMPTY, [], 10, p);
    PickedKey(EMPTY, [], 10, p);
    MembersSnoc([], 10, p, key);
    assert Members([], 10, key) == [] by { NoMembers(10, key); }
    PickedKey(one, [p], 10, q);
    MembersSnoc([p], 10, q, key);
    assert Members([p, q], 10, key) == [p, q];
    AllWellPlacedSnoc(EMPTY, 10, [], p);
    AllWellPlacedSnoc(EMPTY, 10, [p], q);
    CallsignAgreement([p, q], 10, key);
    assert LastCallsign([p, q]) == Some("A");
    BIsAfterA();
    assert p in [p, q];
  }
}
