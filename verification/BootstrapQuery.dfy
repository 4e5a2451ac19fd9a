// The one-time migration query: LAG, a running SUM and GROUP BY over each
// aircraft's positions. The engine picks the row order among equal timestamps.
module BootstrapQuery {
  import opened Common
  import opened FlightIds
  import opened FlightIndex
  import opened Segmentation
  import opened IncrementalFlights

  ghost predicate SortedByTs(rows: seq<Position>) {
    forall i, j | 0 <= i < j < |rows| :: rows[i].ts <= rows[j].ts
  }

  /** CASE WHEN prev_ts IS NULL OR timestamp_ms - prev_ts > gap, with prev_ts from LAG. */
  predicate Breaks(rows: seq<Position>, gap: int, i: nat)
    requires i < |rows|
  {
    i == 0 || rows[i].ts - rows[i - 1].ts > gap
  }

  /**
   * SUM of the breaks over the window ordered by timestamp. The default frame of
   * such a window is a RANGE, so it includes every row with the same timestamp.
   */
  function RunningSum(rows: seq<Position>, gap: int, t: int): nat {
    if rows == [] then 0
    else
      var n := |rows| - 1;
      RunningSum(rows[..n], gap, t) + if rows[n].ts <= t && Breaks(rows, gap, n) then 1 else 0
  }

  function SqlNum(rows: seq<Position>, gap: int, t: int): nat {
    var s := RunningSum(rows, gap, t);
    if s == 0 then 0 else s - 1
  }

  /** The rows that GROUP BY puts under one flight number. */
  function GroupOf(rows: seq<Position>, gap: int, num: nat): seq<Position> {
    Filter((p: Position) => SqlNum(rows, gap, p.ts) == num, rows)
  }

  lemma GroupOfOwnRow(rows: seq<Position>, gap: int, i: nat)
    requires i < |rows|
    ensures rows[i] in GroupOf(rows, gap, SqlNum(rows, gap, rows[i].ts))
  {
    FilterElements((p: Position) => SqlNum(rows, gap, p.ts) == SqlNum(rows, gap, rows[i].ts), rows);
  }

  /** The query's result, given the order it visits each aircraft's rows in. */
  function BootstrapTable(orders: map<string, seq<Position>>, gap: int): FlightTable {
    map h, i | h in orders && 0 <= i < |orders[h]| ::
      FlightKey(h, SqlNum(orders[h], gap, orders[h][i].ts)) :=
        (GroupOfOwnRow(orders[h], gap, i);
         GroupRow(GroupOf(orders[h], gap, SqlNum(orders[h], gap, orders[h][i].ts))))
  }

  predicate HasHex(hex: string, p: Position) {
    p.hex == hex
  }

  /** PARTITION BY hex_ident ORDER BY timestamp_ms. */
  ghost predicate WindowOrders(ps: seq<Position>, orders: map<string, seq<Position>>) {
    && (forall h :: h in orders <==> Times(ps, h) != {})
    && (forall h | h in orders ::
          SortedByTs(orders[h]) && multiset(orders[h]) == multiset(Filter((p: Position) => HasHex(h, p), ps)))
  }

  lemma CountAppend(T: set<int>, gap: int, x: int, t: int)
    requires gap >= 0
    requires forall u | u in T :: u <= x
    ensures |StartsUpTo(T + {x}, gap, t)| == |StartsUpTo(T, gap, t)| + if x <= t && Opens(T, gap, x) then 1 else 0
  {
    hide Opens, IsStart;
    StartsAppend(T, gap, x);
    assert x !in T ==> x !in Starts(T, gap);
    if x <= t && Opens(T, gap, x) {
      assert StartsUpTo(T + {x}, gap, t) == StartsUpTo(T, gap, t) + {x};
    } else {
      assert StartsUpTo(T + {x}, gap, t) == StartsUpTo(T, gap, t);
    }
  }

  lemma BreaksIsOpens(rows: seq<Position>, hex: string, gap: int)
    requires gap >= 0 && SortedByTs(rows) && rows != []
    requires forall p | p in rows :: p.hex == hex
    ensures var n := |rows| - 1;
      && Opens(Times(rows[..n], hex), gap, rows[n].ts) == Breaks(rows, gap, n)
      && forall u | u in Times(rows[..n], hex) :: u <= rows[n].ts
  {
    var n := |rows| - 1;
    var before := rows[..n];
    if n > 0 {
      assert before[n - 1] in rows;
      assert before[n - 1].ts in Times(before, hex);
    }
  }

  /** The window sum counts the starts of the declarative segmentation. */
  lemma {:induction false} RunningSumCountsStarts(rows: seq<Position>, hex: string, gap: int, t: int)
    requires gap >= 0 && SortedByTs(rows)
    requires forall p | p in rows :: p.hex == hex
    ensures RunningSum(rows, gap, t) == |StartsUpTo(Times(rows, hex), gap, t)|
  {
    hide StartsUpTo, Opens, Breaks;
    if rows == [] {
      assert Times(rows, hex) == {};
      NoStartsInEmpty(gap);
      assert |StartsUpTo({}, gap, t)| == 0;
    } else {
      var n := |rows| - 1;
      RunningSumCountsStarts(rows[..n], hex, gap, t);
      BreaksIsOpens(rows, hex, gap);
      CountAppend(Times(rows[..n], hex), gap, rows[n].ts, t);
      assert rows == rows[..n] + [rows[n]] && rows[n] in rows;
      TimesSnoc(rows[..n], rows[n], hex);
    }
  }

  lemma OrderTimes(ps: seq<Position>, orders: map<string, seq<Position>>, h: string)
    requires WindowOrders(ps, orders) && h in orders
    ensures forall p :: p in orders[h] <==> p in ps && p.hex == h
    ensures Times(orders[h], h) == Times(ps, h)
  {
    var rows := orders[h];
    FilterElements((p: Position) => HasHex(h, p), ps);
    forall p ensures p in rows <==> p in ps && p.hex == h {
      assert p in rows <==> p in multiset(rows);
      var own := Filter((p: Position) => HasHex(h, p), ps);
      assert p in own <==> p in multiset(own);
    }
    forall t ensures t in Times(rows, h) <==> t in Times(ps, h) {
      if t in Times(rows, h) {
        var i :| 0 <= i < |rows| && rows[i].hex == h && rows[i].ts == t;
        assert rows[i] in ps;
      }
      if t in Times(ps, h) {
        var i :| 0 <= i < |ps| && ps[i].hex == h && ps[i].ts == t;
        assert ps[i] in rows;
      }
    }
  }

  /** A group of the query holds the members of the flight, in some order. */
  lemma GroupIsMembers(ps: seq<Position>, orders: map<string, seq<Position>>, gap: int, key: FlightKey)
    requires gap >= 0 && WindowOrders(ps, orders) && key.hex in orders
    ensures multiset(GroupOf(orders[key.hex], gap, key.num)) == multiset(Members(ps, gap, key))
  {
    var rows := orders[key.hex];
    OrderTimes(ps, orders, key.hex);
    var f := (p: Position) => SqlNum(rows, gap, p.ts) == key.num;
    var g := (p: Position) => InFlight(ps, gap, key, p);
    forall x ensures multiset(GroupOf(rows, gap, key.num))[x] == multiset(Members(ps, gap, key))[x] {
      FilterCount(f, rows, x);
      FilterCount(g, ps, x);
      FilterCount((p: Position) => HasHex(key.hex, p), ps, x);
      RunningSumCountsStarts(rows, key.hex, gap, x.ts);
    }
    SameCounts(multiset(GroupOf(rows, gap, key.num)), multiset(Members(ps, gap, key)));
  }

  lemma BootstrapRow(orders: map<string, seq<Position>>, gap: int, key: FlightKey)
    ensures key in BootstrapTable(orders, gap)
       <==> key.hex in orders && GroupOf(orders[key.hex], gap, key.num) != []
    ensures key in BootstrapTable(orders, gap) ==>
      BootstrapTable(orders, gap)[key] == GroupRow(GroupOf(orders[key.hex], gap, key.num))
  {
    if key.hex in orders {
      var rows := orders[key.hex];
      var ms := GroupOf(rows, gap, key.num);
      FilterElements((p: Position) => SqlNum(rows, gap, p.ts) == key.num, rows);
      if ms != [] {
        assert ms[0] in rows;
        var i :| 0 <= i < |rows| && rows[i] == ms[0];
        assert key == FlightKey(key.hex, SqlNum(rows, gap, orders[key.hex][i].ts));
      }
      if key in BootstrapTable(orders, gap) {
        var h, i :| h in orders && 0 <= i < |orders[h]| && key == FlightKey(h, SqlNum(orders[h], gap, orders[h][i].ts));
        GroupOfOwnRow(rows, gap, i);
      }
    }
  }

  lemma AircraftHasOrder(ps: seq<Position>, orders: map<string, seq<Position>>, p: Position)
    requires WindowOrders(ps, orders) && p in ps
    ensures p.hex in orders
  {
    assert p.ts in Times(ps, p.hex);
  }

  lemma BootstrapRowIsSegmentation(ps: seq<Position>, orders: map<string, seq<Position>>, gap: int, key: FlightKey)
    requires gap >= 0 && WindowOrders(ps, orders)
    ensures var a, b := BootstrapTable(orders, gap), SegTable(ps, gap);
      (key in a <==> key in b) && (key in a ==> a[key] == b[key])
  {
    hide BootstrapTable, SegTable, WindowOrders, GroupRow;
    BootstrapRow(orders, gap, key);
    SegTableRows(ps, gap, key);
    var ms := Members(ps, gap, key);
    if key.hex in orders {
      GroupIsMembers(ps, orders, gap, key);
      var group := GroupOf(orders[key.hex], gap, key.num);
      assert |group| == |multiset(group)| && |ms| == |multiset(ms)|;
      if ms != [] {
        GroupRowPermutation(group, ms);
      }
    } else if ms != [] {
      InMembers(ps, gap, key, ms[0]);
      AircraftHasOrder(ps, orders, ms[0]);
    }
  }

  /**
   * The migration query computes the declarative segmentation, callsign included,
   * whatever order the engine visits rows with equal timestamps in.
   */
  lemma BootstrapIsSegmentation(ps: seq<Position>, orders: map<string, seq<Position>>, gap: int)
    requires gap >= 0 && WindowOrders(ps, orders)
    ensures BootstrapTable(orders, gap) == SegTable(ps, gap)
  {
    hide BootstrapTable, SegTable, WindowOrders;
    var a, b := BootstrapTable(orders, gap), SegTable(ps, gap);
    forall key { BootstrapRowIsSegmentation(ps, orders, gap, key); }
    assert a.Keys == b.Keys;
  }

  // ----------------------------------------------------- orders always exist

  function InsertByTs(rows: seq<Position>, p: Position): (r: seq<Position>)
    ensures multiset(r) == multiset(rows) + multiset{p}
  {
    if rows == [] || rows[|rows| - 1].ts <= p.ts then rows + [p]
    else
      var n := |rows| - 1;
      assert rows == rows[..n] + [rows[n]];
      InsertByTs(rows[..n], p) + [rows[n]]
  }

  lemma {:induction false} InsertByTsSorted(rows: seq<Position>, p: Position)
    requires SortedByTs(rows)
    ensures SortedByTs(InsertByTs(rows, p))
  {
    if rows != [] && rows[|rows| - 1].ts > p.ts {
      var n := |rows| - 1;
      InsertByTsSorted(rows[..n], p);
      var r := InsertByTs(rows[..n], p);
      forall q | q in r ensures q.ts <= rows[n].ts {
        assert q in multiset(r);
        assert q in multiset(rows[..n]) || q == p;
      }
    }
  }

  function SortByTs(rows: seq<Position>): (r: seq<Position>)
    ensures multiset(r) == multiset(rows)
  {
    if rows == [] then []
    else
      var n := |rows| - 1;
      assert rows == rows[..n] + [rows[n]];
      InsertByTs(SortByTs(rows[..n]), rows[n])
  }

  lemma {:induction false} SortByTsSorted(rows: seq<Position>)
    ensures SortedByTs(SortByTs(rows))
  {
    if rows != [] {
      SortByTsSorted(rows[..|rows| - 1]);
      InsertByTsSorted(SortByTs(rows[..|rows| - 1]), rows[|rows| - 1]);
    }
  }

  /** One order the engine may choose. */
  function StableOrders(ps: seq<Position>): map<string, seq<Position>> {
    map i | 0 <= i < |ps| :: ps[i].hex := SortByTs(Filter((p: Position) => HasHex(ps[i].hex, p), ps))
  }

  lemma StableOrdersAreOrders(ps: seq<Position>)
    ensures WindowOrders(ps, StableOrders(ps))
  {
    var orders := StableOrders(ps);
    forall h ensures h in orders <==> Times(ps, h) != {} {
      if h in orders {
        var i :| 0 <= i < |ps| && ps[i].hex == h;
        assert ps[i].ts in Times(ps, h);
      }
      if Times(ps, h) != {} {
        var t :| t in Times(ps, h);
        var i :| 0 <= i < |ps| && ps[i].hex == h && ps[i].ts == t;
      }
    }
    forall h | h in orders
      ensures SortedByTs(orders[h]) && multiset(orders[h]) == multiset(Filter((p: Position) => HasHex(h, p), ps))
    {
      SortByTsSorted(Filter((p: Position) => HasHex(h, p), ps));
    }
  }

  lemma SameTimes(ps: seq<Position>, qs: seq<Position>, h: string)
    requires multiset(ps) == multiset(qs)
    ensures Times(ps, h) == Times(qs, h)
  {
    forall p ensures p in ps <==> p in qs {
      assert p in ps <==> p in multiset(ps);
      assert p in qs <==> p in multiset(qs);
    }
    forall t ensures t in Times(ps, h) <==> t in Times(qs, h) {
      if t in Times(ps, h) {
        var i :| 0 <= i < |ps| && ps[i].hex == h && ps[i].ts == t;
        assert ps[i] in qs;
      }
      if t in Times(qs, h) {
        var i :| 0 <= i < |qs| && qs[i].hex == h && qs[i].ts == t;
        assert qs[i] in ps;
      }
    }
  }

  /** The table does not depend on the order of the positions rows. */
  lemma RowOrderIsIrrelevant(ps: seq<Position>, qs: seq<Position>, gap: int)
    requires gap >= 0 && multiset(ps) == multiset(qs)
    ensures SegTable(ps, gap) == SegTable(qs, gap)
  {
    var orders := StableOrders(ps);
    StableOrdersAreOrders(ps);
    forall h ensures Times(ps, h) == Times(qs, h) { SameTimes(ps, qs, h); }
    forall h | h in orders
      ensures multiset(orders[h]) == multiset(Filter((p: Position) => HasHex(h, p), qs))
    {
      FilterPermutation((p: Position) => HasHex(h, p), ps, qs);
    }
    BootstrapIsSegmentation(ps, orders, gap);
    BootstrapIsSegmentation(qs, orders, gap);
  }
}
