// Where the flights of the segmentation lie in time.
module FlightIntervals {
  import opened Common
  import opened FlightIds
  import opened FlightIndex
  import opened Segmentation

  // ---------------------------------------------------------- keys and bounds

  lemma SegTableKeys(ps: seq<Position>, gap: int, key: FlightKey)
    requires gap >= 0
    ensures key in SegTable(ps, gap) <==> key.num < |Starts(Times(ps, key.hex), gap)|
  {
    var T := Times(ps, key.hex);
    SegTableRows(ps, gap, key);
    if key.num < |Starts(T, gap)| {
      NumbersAreReached(T, gap, key.num);
      var t :| t in T && NumAt(T, gap, t) == key.num;
      var i :| 0 <= i < |ps| && ps[i].hex == key.hex && ps[i].ts == t;
      InMembers(ps, gap, key, ps[i]);
    }
    if Members(ps, gap, key) != [] {
      var p := Members(ps, gap, key)[0];
      InMembers(ps, gap, key, p);
      assert p.ts in T;
      NumAtRange(T, gap, p.ts);
    }
  }

  lemma SegTableEnds(ps: seq<Position>, gap: int, key: FlightKey, m: int)
    requires gap >= 0 && key in SegTable(ps, gap)
    requires IsLatest(Times(ps, key.hex), m) && key.num == |Starts(Times(ps, key.hex), gap)| - 1
    ensures SegTable(ps, gap)[key].last == m
  {
    var T := Times(ps, key.hex);
    SegTableRows(ps, gap, key);
    var ms := Members(ps, gap, key);
    MaxTsBound(ms);
    var p :| p in ms && p.ts == MaxTs(ms);
    InMembers(ps, gap, key, p);
    assert p.ts in T;
    var i :| 0 <= i < |ps| && ps[i].hex == key.hex && ps[i].ts == m;
    NumAtRange(T, gap, m);
    InMembers(ps, gap, key, ps[i]);
  }

  lemma SegTableRowsPlausible(ps: seq<Position>, gap: int, key: FlightKey)
    requires key in SegTable(ps, gap)
    ensures SegTable(ps, gap)[key].count >= 1 && SegTable(ps, gap)[key].first <= SegTable(ps, gap)[key].last
  {
    SegTableRows(ps, gap, key);
    var ms := Members(ps, gap, key);
    MinTsBound(ms);
    MaxTsBound(ms);
  }

  lemma LatestTime(T: set<int>, x: int) returns (m: int)
    requires x in T
    ensures IsLatest(T, m)
  {
    LatestExists(T);
    m :| IsLatest(T, m);
  }

  lemma SameSize(a: set<int>, b: set<int>)
    requires a <= b && |a| == |b|
    ensures a == b
  {
    var rest := b - a;
    assert b == a + rest;
  }

  /** A flight's first timestamp is a start, and its number is counted there. */
  lemma FirstIsStart(ps: seq<Position>, gap: int, key: FlightKey)
    requires key in SegTable(ps, gap)
    ensures var T, first := Times(ps, key.hex), SegTable(ps, gap)[key].first;
      first in Starts(T, gap) && |StartsUpTo(T, gap, first)| == key.num + 1
  {
    var T := Times(ps, key.hex);
    SegTableRows(ps, gap, key);
    var ms := Members(ps, gap, key);
    var first := MinTs(ms);
    MinTsBound(ms);
    var q :| q in ms && q.ts == first;
    InMembers(ps, gap, key, q);
    assert first in T;
    NumAtRange(T, gap, first);
    StartBelow(T, gap, first);
    LatestExists(StartsUpTo(T, gap, first));
    var s :| IsLatest(StartsUpTo(T, gap, first), s);
    assert StartsUpTo(T, gap, s) == StartsUpTo(T, gap, first);
    var i :| 0 <= i < |ps| && ps[i].hex == key.hex && ps[i].ts == s;
    InMembers(ps, gap, key, ps[i]);
    assert s == first;
  }

  /** The latest flight ends at the latest timestamp, and begins at the last start. */
  lemma LatestFlightSpan(ps: seq<Position>, gap: int, key: FlightKey)
    requires gap >= 0 && key.num == |Starts(Times(ps, key.hex), gap)| - 1
    ensures key in SegTable(ps, gap)
    ensures var T, row := Times(ps, key.hex), SegTable(ps, gap)[key];
      && IsLatest(T, row.last)
      && row.first in Starts(T, gap)
      && forall s | s in Starts(T, gap) :: s <= row.first
  {
    var T := Times(ps, key.hex);
    SegTableKeys(ps, gap, key);
    FirstIsStart(ps, gap, key);
    var row := SegTable(ps, gap)[key];
    var m := LatestTime(T, row.first);
    SegTableEnds(ps, gap, key, m);
    assert StartsUpTo(T, gap, row.first) == Starts(T, gap) by {
      SameSize(StartsUpTo(T, gap, row.first), Starts(T, gap));
    }
  }

  // -------------------------------------------------------- a timestamp inside

  /** Inside a flight there is an earlier timestamp within the gap. */
  lemma {:induction false} Predecessor(T: set<int>, gap: int, first: int, t: int, v: int)
    requires v in T && first <= t < v && t !in T
    requires forall s | s in Starts(T, gap) :: s <= first
    ensures exists w :: w in T && w < t && t - w <= gap
    decreases Below(T, v)
  {
    assert v !in Starts(T, gap);
    var u :| u in T && u < v && v - u <= gap;
    if u > t {
      assert Below(T, u) <= Below(T, v) && u in Below(T, v) && u !in Below(T, u);
      Predecessor(T, gap, first, t, u);
    }
  }

  /** A timestamp inside the latest flight leaves every flight number as it is. */
  lemma AddInside(T: set<int>, gap: int, first: int, last: int, t: int)
    requires gap >= 0 && IsLatest(T, last) && first <= t <= last
    requires first in Starts(T, gap) && forall s | s in Starts(T, gap) :: s <= first
    ensures Starts(T + {t}, gap) == Starts(T, gap)
    ensures forall u | u in T :: NumAt(T + {t}, gap, u) == NumAt(T, gap, u)
    ensures NumAt(T + {t}, gap, t) == |Starts(T, gap)| - 1
  {
    var T' := T + {t};
    if t in T {
      assert T' == T;
    } else {
      Predecessor(T, gap, first, t, last);
      forall x ensures x in Starts(T', gap) <==> x in Starts(T, gap) {
        if x in T && x < t {
          assert IsStart(T', gap, x) <==> IsStart(T, gap, x);
        } else if x in T {
          assert x !in Starts(T, gap);
        }
      }
      assert Starts(T', gap) == Starts(T, gap);
    }
    forall u | u in T ensures NumAt(T', gap, u) == NumAt(T, gap, u) {
      assert StartsUpTo(T', gap, u) == StartsUpTo(T, gap, u);
    }
    assert StartsUpTo(T', gap, t) == Starts(T, gap);
  }

  // ----------------------------------------------------------------- intervals

  lemma NumAtMonotone(T: set<int>, gap: int, t: int, u: int)
    requires t <= u
    ensures NumAt(T, gap, t) <= NumAt(T, gap, u)
  {
    Subset(StartsUpTo(T, gap, t), StartsUpTo(T, gap, u));
  }

  predicate Covers(key: FlightKey, f: Flight, p: Position) {
    key.hex == p.hex && f.first <= p.ts <= f.last
  }

  /** An aircraft's flights lie one after the other in time, more than `margin` apart. */
  ghost predicate Apart(flights: FlightTable, margin: int) {
    forall a, b | a in flights && b in flights && a.hex == b.hex && a.num < b.num ::
      flights[b].first - flights[a].last > margin
  }

  lemma FlightsApart(ps: seq<Position>, gap: int, a: FlightKey, b: FlightKey)
    requires a in SegTable(ps, gap) && b in SegTable(ps, gap) && a.hex == b.hex && a.num < b.num
    ensures SegTable(ps, gap)[b].first - SegTable(ps, gap)[a].last > gap
  {
    var T, first, last := Times(ps, a.hex), SegTable(ps, gap)[b].first, SegTable(ps, gap)[a].last;
    FirstIsStart(ps, gap, b);
    SegTableRows(ps, gap, a);
    MaxTsBound(Members(ps, gap, a));
    var q :| q in Members(ps, gap, a) && q.ts == last;
    InMembers(ps, gap, a, q);
    assert last in T;
    if first <= last {
      NumAtMonotone(T, gap, first, last);
      NumAtRange(T, gap, first);
    }
  }

  /** Declarative flights are more than the gap apart. */
  lemma SegTableApart(ps: seq<Position>, gap: int)
    ensures Apart(SegTable(ps, gap), gap)
  {
    var seg := SegTable(ps, gap);
    forall a, b | a in seg && b in seg && a.hex == b.hex && a.num < b.num
      ensures seg[b].first - seg[a].last > gap
    {
      FlightsApart(ps, gap, a, b);
    }
  }

  lemma OwnFlightCovers(ps: seq<Position>, gap: int, q: Position)
    requires q in ps
    ensures var own := FlightKey(q.hex, NumAt(Times(ps, q.hex), gap, q.ts));
      own in SegTable(ps, gap) && Covers(own, SegTable(ps, gap)[own], q)
  {
    var own := FlightKey(q.hex, NumAt(Times(ps, q.hex), gap, q.ts));
    SegTableRows(ps, gap, own);
    InMembers(ps, gap, own, q);
    MinTsBound(Members(ps, gap, own));
    MaxTsBound(Members(ps, gap, own));
  }

  /** A position is a member of exactly the flight whose interval covers it. */
  lemma MemberIffCovered(ps: seq<Position>, gap: int, key: FlightKey, q: Position)
    requires gap >= 0 && key in SegTable(ps, gap) && q in ps
    ensures InFlight(ps, gap, key, q) <==> Covers(key, SegTable(ps, gap)[key], q)
  {
    OwnFlightCovers(ps, gap, q);
    var own := FlightKey(q.hex, NumAt(Times(ps, q.hex), gap, q.ts));
    if own.hex == key.hex && own.num < key.num {
      FlightsApart(ps, gap, own, key);
    } else if own.hex == key.hex && key.num < own.num {
      FlightsApart(ps, gap, key, own);
    }
  }

  lemma MembersByInterval(ps: seq<Position>, gap: int, key: FlightKey, row: Flight)
    requires gap >= 0 && key in SegTable(ps, gap)
    requires row.first == SegTable(ps, gap)[key].first && row.last == SegTable(ps, gap)[key].last
    ensures Members(ps, gap, key) == Filter((q: Position) => Covers(key, row, q), ps)
  {
    forall q | q in ps ensures InFlight(ps, gap, key, q) == Covers(key, row, q) {
      MemberIffCovered(ps, gap, key, q);
    }
    FilterCongruence((q: Position) => InFlight(ps, gap, key, q), (q: Position) => Covers(key, row, q), ps);
  }

  /** Two row lists whose flight has the same interval differ in count by what that interval gained. */
  lemma CountGrowsInside(ps: seq<Position>, qs: seq<Position>, gap: int, key: FlightKey, p: Position)
    requires gap >= 0 && key in SegTable(ps, gap) && key in SegTable(ps + qs, gap) && p in qs
    requires SegTable(ps, gap)[key].first == SegTable(ps + qs, gap)[key].first
    requires SegTable(ps, gap)[key].last == SegTable(ps + qs, gap)[key].last
    requires Covers(key, SegTable(ps, gap)[key], p)
    ensures SegTable(ps, gap)[key].count < SegTable(ps + qs, gap)[key].count
  {
    var row := SegTable(ps, gap)[key];
    var covered := (q: Position) => Covers(key, row, q);
    MembersByInterval(ps, gap, key, row);
    MembersByInterval(ps + qs, gap, key, row);
    FilterAppend(covered, ps, qs);
    FilterElements(covered, qs);
    assert p in Filter(covered, qs);
    SegTableRows(ps, gap, key);
    SegTableRows(ps + qs, gap, key);
  }
}
