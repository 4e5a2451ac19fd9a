// What a flight is, declaratively: an aircraft's timestamps, cut wherever the
// next one comes more than the gap later, and each piece summarised.
module Segmentation {
  import opened Common
  import opened FlightIds
  import opened FlightIndex

  // ------------------------------------------------------- cutting timestamps

  /** The timestamps of one aircraft. */
  function Times(ps: seq<Position>, hex: string): set<int> {
    set i | 0 <= i < |ps| && ps[i].hex == hex :: ps[i].ts
  }

  /** No earlier timestamp lies within the gap. */
  predicate IsStart(T: set<int>, gap: int, t: int) {
    t in T && forall u | u in T && u < t :: t - u > gap
  }

  function Starts(T: set<int>, gap: int): set<int> {
    set t | t in T && IsStart(T, gap, t)
  }

  function StartsUpTo(T: set<int>, gap: int, t: int): set<int> {
    set s | s in Starts(T, gap) && s <= t
  }

  /** The number of the flight that timestamp `t` falls in, counting from 0. */
  function NumAt(T: set<int>, gap: int, t: int): nat {
    var n := |StartsUpTo(T, gap, t)|;
    if n == 0 then 0 else n - 1
  }

  ghost predicate IsLatest(T: set<int>, m: int) {
    m in T && forall u | u in T :: u <= m
  }

  ghost function Below(T: set<int>, t: int): set<int> {
    set u | u in T && u < t
  }

  /** Every timestamp falls in some flight, because the earliest one starts a flight. */
  lemma {:induction false} StartBelow(T: set<int>, gap: int, t: int)
    requires t in T
    ensures StartsUpTo(T, gap, t) != {}
    decreases Below(T, t)
  {
    if IsStart(T, gap, t) {
      assert t in StartsUpTo(T, gap, t);
    } else {
      var u :| u in T && u < t;
      assert Below(T, u) <= Below(T, t) && u in Below(T, t) && u !in Below(T, u);
      StartBelow(T, gap, u);
      assert StartsUpTo(T, gap, u) <= StartsUpTo(T, gap, t);
    }
  }

  lemma {:induction false} Subset<E>(a: set<E>, b: set<E>)
    requires a <= b
    ensures |a| <= |b|
  {
    assert b == a + (b - a);
  }

  lemma NumAtRange(T: set<int>, gap: int, t: int)
    requires t in T
    ensures NumAt(T, gap, t) == |StartsUpTo(T, gap, t)| - 1 <= |Starts(T, gap)| - 1
    ensures IsLatest(T, t) ==> NumAt(T, gap, t) == |Starts(T, gap)| - 1
  {
    StartBelow(T, gap, t);
    var s := StartsUpTo(T, gap, t);
    assert |s| > 0;
    Subset(s, Starts(T, gap));
    if IsLatest(T, t) {
      assert s == Starts(T, gap);
    }
  }

  lemma {:induction false} LatestExists(T: set<int>)
    requires T != {}
    ensures exists m :: IsLatest(T, m)
  {
    var x := SomeElement(T);
    var rest := T - {x};
    if |rest| == 0 {
      assert forall u | u in T :: u == x || u in rest;
      assert IsLatest(T, x);
    } else {
      LatestExists(rest);
      var m :| IsLatest(rest, m);
      assert forall u | u in T :: u == x || u in rest;
      assert IsLatest(T, Max(m, x));
    }
  }

  /** `x` comes more than the gap after every timestamp in `T`. */
  ghost predicate Opens(T: set<int>, gap: int, x: int) {
    forall u | u in T :: x - u > gap
  }

  lemma StartsAppend(T: set<int>, gap: int, x: int)
    requires gap >= 0
    requires forall u | u in T :: u <= x
    ensures Starts(T + {x}, gap) == Starts(T, gap) + (if Opens(T, gap, x) then {x} else {})
    ensures Opens(T, gap, x) ==> x !in T
  {
    var T' := T + {x};
    forall t ensures t in Starts(T', gap) <==> t in Starts(T, gap) || (t == x && Opens(T, gap, x)) {
      if t in T && t < x {
        assert IsStart(T', gap, t) <==> IsStart(T, gap, t);
      } else if t == x && x in T {
        assert IsStart(T', gap, x) <==> IsStart(T, gap, x);
      } else if t == x {
        assert IsStart(T', gap, x) <==> Opens(T, gap, x);
      }
    }
  }

  /**
   * The rule in full: the earliest timestamp is in flight 0, and of two neighbouring
   * timestamps the later is in the same flight if it comes at most the gap after, and
   * in the next one otherwise.
   */
  lemma NeighboursShareIffWithinGap(T: set<int>, gap: int, t: int, u: int)
    requires gap >= 0 && t in T && u in T && t < u
    requires forall v | v in T :: v <= t || u <= v
    ensures NumAt(T, gap, u) == NumAt(T, gap, t) + if u - t <= gap then 0 else 1
    ensures (forall v | v in T :: t <= v) ==> NumAt(T, gap, t) == 0
  {
    NumAtRange(T, gap, t);
    NumAtRange(T, gap, u);
    var before, after := StartsUpTo(T, gap, t), StartsUpTo(T, gap, u);
    if u - t <= gap {
      assert after == before;
    } else {
      assert IsStart(T, gap, u);
      assert after == before + {u};
    }
    if forall v | v in T :: t <= v {
      assert forall v :: v in before <==> v == t;
      assert before == {t};
    }
  }

  /** Adding a latest timestamp leaves earlier flights alone and may open one more. */
  lemma AppendLatest(T: set<int>, gap: int, x: int)
    requires gap >= 0
    requires forall u | u in T :: u <= x
    ensures |Starts(T + {x}, gap)| == |Starts(T, gap)| + (if Opens(T, gap, x) then 1 else 0)
    ensures forall t | t in T :: NumAt(T + {x}, gap, t) == NumAt(T, gap, t)
    ensures NumAt(T + {x}, gap, x) == |Starts(T + {x}, gap)| - 1
  {
    hide IsStart;
    hide Opens;
    StartsAppend(T, gap, x);
    assert x !in T ==> x !in Starts(T, gap);
    forall t | t in T ensures NumAt(T + {x}, gap, t) == NumAt(T, gap, t) {
      if t < x || !Opens(T, gap, x) {
        assert StartsUpTo(T + {x}, gap, t) == StartsUpTo(T, gap, t);
      }
    }
    assert IsLatest(T + {x}, x);
    NumAtRange(T + {x}, gap, x);
  }

  // -------------------------------------------------------------- aggregates

  function MinTs(ms: seq<Position>): int
    requires ms != []
  {
    var n := |ms| - 1;
    if n == 0 then ms[0].ts else Min(MinTs(ms[..n]), ms[n].ts)
  }

  function MaxTs(ms: seq<Position>): int
    requires ms != []
  {
    var n := |ms| - 1;
    if n == 0 then ms[0].ts else Max(MaxTs(ms[..n]), ms[n].ts)
  }

  function MinAlt(ms: seq<Position>): Option<real> {
    if ms == [] then None else Least(MinAlt(ms[..|ms| - 1]), ms[|ms| - 1].altitude)
  }

  function MaxAlt(ms: seq<Position>): Option<real> {
    if ms == [] then None else Greatest(MaxAlt(ms[..|ms| - 1]), ms[|ms| - 1].altitude)
  }

  /** Text order, character by character. */
  predicate TextLe(a: string, b: string) {
    a == [] || (b != [] && (a[0] < b[0] || (a[0] == b[0] && TextLe(a[1..], b[1..]))))
  }

  function MaxText(a: Option<string>, b: Option<string>): Option<string> {
    if a.None? then b else if b.None? then a
    else if TextLe(a.value, b.value) then b else a
  }

  function MaxCallsign(ms: seq<Position>): Option<string> {
    if ms == [] then None else MaxText(MaxCallsign(ms[..|ms| - 1]), ms[|ms| - 1].callsign)
  }

  lemma {:induction false} TextLeTotal(a: string, b: string)
    ensures TextLe(a, b) || TextLe(b, a)
    ensures TextLe(a, b) && TextLe(b, a) ==> a == b
  {
    if a != [] && b != [] && a[0] == b[0] {
      TextLeTotal(a[1..], b[1..]);
      assert a == [a[0]] + a[1..] && b == [b[0]] + b[1..];
    }
  }

  lemma {:induction false} TextLeTransitive(a: string, b: string, c: string)
    requires TextLe(a, b) && TextLe(b, c)
    ensures TextLe(a, c)
  {
    if a != [] && a[0] == b[0] && b[0] == c[0] {
      TextLeTransitive(a[1..], b[1..], c[1..]);
    }
  }

  /** One GROUP BY row. */
  function GroupRow(ms: seq<Position>): Flight
    requires ms != []
  {
    Flight(MaxCallsign(ms), |ms|, MinTs(ms), MaxTs(ms), MinAlt(ms), MaxAlt(ms))
  }

  // Each aggregate is a bound that some row attains, which no row order changes.

  lemma {:induction false} MinTsBound(ms: seq<Position>)
    requires ms != []
    ensures exists p :: p in ms && p.ts == MinTs(ms)
    ensures forall p | p in ms :: MinTs(ms) <= p.ts
  {
    var n := |ms| - 1;
    if n > 0 {
      MinTsBound(ms[..n]);
      var q :| q in ms[..n] && q.ts == MinTs(ms[..n]);
      assert q in ms;
    }
    assert ms[n] in ms && forall p | p in ms :: p in ms[..n] || p == ms[n];
  }

  lemma {:induction false} MaxTsBound(ms: seq<Position>)
    requires ms != []
    ensures exists p :: p in ms && p.ts == MaxTs(ms)
    ensures forall p | p in ms :: p.ts <= MaxTs(ms)
  {
    var n := |ms| - 1;
    if n > 0 {
      MaxTsBound(ms[..n]);
      var q :| q in ms[..n] && q.ts == MaxTs(ms[..n]);
      assert q in ms;
    }
    assert ms[n] in ms && forall p | p in ms :: p in ms[..n] || p == ms[n];
  }

  lemma {:induction false} MinAltBound(ms: seq<Position>)
    ensures MinAlt(ms).Some? ==> exists p :: p in ms && p.altitude == MinAlt(ms)
    ensures forall p | p in ms && p.altitude.Some? :: MinAlt(ms).Some? && MinAlt(ms).value <= p.altitude.value
  {
    if ms != [] {
      var n := |ms| - 1;
      MinAltBound(ms[..n]);
      if MinAlt(ms[..n]).Some? {
        var q :| q in ms[..n] && q.altitude == MinAlt(ms[..n]);
        assert q in ms;
      }
      assert ms[n] in ms && forall p | p in ms :: p in ms[..n] || p == ms[n];
    }
  }

  lemma {:induction false} MaxAltBound(ms: seq<Position>)
    ensures MaxAlt(ms).Some? ==> exists p :: p in ms && p.altitude == MaxAlt(ms)
    ensures forall p | p in ms && p.altitude.Some? :: MaxAlt(ms).Some? && p.altitude.value <= MaxAlt(ms).value
  {
    if ms != [] {
      var n := |ms| - 1;
      MaxAltBound(ms[..n]);
      if MaxAlt(ms[..n]).Some? {
        var q :| q in ms[..n] && q.altitude == MaxAlt(ms[..n]);
        assert q in ms;
      }
      assert ms[n] in ms && forall p | p in ms :: p in ms[..n] || p == ms[n];
    }
  }

  lemma {:induction false} MaxCallsignBound(ms: seq<Position>)
    ensures MaxCallsign(ms).Some? ==> exists p :: p in ms && p.callsign == MaxCallsign(ms)
    ensures forall p | p in ms && p.callsign.Some? ::
      MaxCallsign(ms).Some? && TextLe(p.callsign.value, MaxCallsign(ms).value)
  {
    if ms != [] {
      var n := |ms| - 1;
      MaxCallsignBound(ms[..n]);
      var before, last := MaxCallsign(ms[..n]), ms[n].callsign;
      if before.Some? {
        var q :| q in ms[..n] && q.callsign == before;
        assert q in ms;
      }
      assert ms[n] in ms && forall p | p in ms :: p in ms[..n] || p == ms[n];
      forall p | p in ms && p.callsign.Some?
        ensures MaxCallsign(ms).Some? && TextLe(p.callsign.value, MaxCallsign(ms).value)
      {
        if last.Some? { TextLeTotal(last.value, last.value); }
        if before.Some? { TextLeTotal(before.value, before.value); }
        if before.Some? && last.Some? {
          TextLeTotal(before.value, last.value);
          if p in ms[..n] && TextLe(before.value, last.value) {
            TextLeTransitive(p.callsign.value, before.value, last.value);
          }
        }
      }
    }
  }

  /** A GROUP BY row does not depend on the order of its group. */
  lemma GroupRowPermutation(a: seq<Position>, b: seq<Position>)
    requires a != [] && multiset(a) == multiset(b)
    ensures b != [] && GroupRow(a) == GroupRow(b)
  {
    assert |multiset(a)| == |a| && |multiset(b)| == |b|;
    forall p ensures p in a <==> p in b {
      assert p in a <==> p in multiset(a);
      assert p in b <==> p in multiset(b);
    }
    MinTsBound(a); MinTsBound(b);
    MaxTsBound(a); MaxTsBound(b);
    MinAltBound(a); MinAltBound(b);
    MaxAltBound(a); MaxAltBound(b);
    MaxCallsignBound(a); MaxCallsignBound(b);
    var ca, cb := MaxCallsign(a), MaxCallsign(b);
    if ca.Some? && cb.Some? { TextLeTotal(ca.value, cb.value); }
  }

  // -------------------------------------------------------- the flights table

  predicate InFlight(ps: seq<Position>, gap: int, key: FlightKey, p: Position) {
    p.hex == key.hex && NumAt(Times(ps, key.hex), gap, p.ts) == key.num
  }

  /** The positions that make up one flight. */
  function Members(ps: seq<Position>, gap: int, key: FlightKey): seq<Position> {
    Filter((p: Position) => InFlight(ps, gap, key, p), ps)
  }

  function KeyAt(ps: seq<Position>, gap: int, i: nat): FlightKey
    requires i < |ps|
  {
    FlightKey(ps[i].hex, NumAt(Times(ps, ps[i].hex), gap, ps[i].ts))
  }

  lemma KeyAtMember(ps: seq<Position>, gap: int, i: nat)
    requires i < |ps|
    ensures InFlight(ps, gap, KeyAt(ps, gap, i), ps[i])
    ensures ps[i] in Members(ps, gap, KeyAt(ps, gap, i))
  {
    FilterElements((p: Position) => InFlight(ps, gap, KeyAt(ps, gap, i), p), ps);
  }

  /** The specification of the flights table over a set of positions. */
  function SegTable(ps: seq<Position>, gap: int): FlightTable {
    map i | 0 <= i < |ps| ::
      KeyAt(ps, gap, i) := (KeyAtMember(ps, gap, i); GroupRow(Members(ps, gap, KeyAt(ps, gap, i))))
  }

  lemma SegTableRows(ps: seq<Position>, gap: int, key: FlightKey)
    ensures key in SegTable(ps, gap) <==> Members(ps, gap, key) != []
    ensures Members(ps, gap, key) != [] ==> SegTable(ps, gap)[key] == GroupRow(Members(ps, gap, key))
  {
    var ms := Members(ps, gap, key);
    FilterElements((p: Position) => InFlight(ps, gap, key, p), ps);
    if ms != [] {
      assert ms[0] in ps;
      var i :| 0 <= i < |ps| && ps[i] == ms[0];
      assert KeyAt(ps, gap, i) == key;
    }
    if key in SegTable(ps, gap) {
      var i :| 0 <= i < |ps| && key == KeyAt(ps, gap, i);
      KeyAtMember(ps, gap, i);
    }
  }

  lemma InMembers(ps: seq<Position>, gap: int, key: FlightKey, q: Position)
    ensures q in Members(ps, gap, key) <==> q in ps && InFlight(ps, gap, key, q)
  {
    FilterElements((r: Position) => InFlight(ps, gap, key, r), ps);
  }

  /**
   * A row in full: there is one if and only if the flight has positions, and it holds
   * their number and the least and greatest of their timestamps, known altitudes and
   * callsigns.
   */
  lemma RowMeans(ps: seq<Position>, gap: int, key: FlightKey)
    ensures key in SegTable(ps, gap)
       <==> exists p | p in ps :: p.hex == key.hex && NumAt(Times(ps, p.hex), gap, p.ts) == key.num
    ensures key in SegTable(ps, gap) ==>
      var row := SegTable(ps, gap)[key];
      var mine := (p: Position) => p.hex == key.hex && NumAt(Times(ps, p.hex), gap, p.ts) == key.num;
      && row.count == |Filter(mine, ps)|
      && (exists p :: p in ps && mine(p) && p.ts == row.first)
      && (exists p :: p in ps && mine(p) && p.ts == row.last)
      && (forall p | p in ps && mine(p) :: row.first <= p.ts <= row.last)
      && (row.minAlt.Some? ==> exists p :: p in ps && mine(p) && p.altitude == row.minAlt)
      && (row.maxAlt.Some? ==> exists p :: p in ps && mine(p) && p.altitude == row.maxAlt)
      && (row.callsign.Some? ==> exists p :: p in ps && mine(p) && p.callsign == row.callsign)
      && (forall p | p in ps && mine(p) && p.altitude.Some? ::
            row.minAlt.Some? && row.maxAlt.Some? && row.minAlt.value <= p.altitude.value <= row.maxAlt.value)
      && (forall p | p in ps && mine(p) && p.callsign.Some? ::
            row.callsign.Some? && TextLe(p.callsign.value, row.callsign.value))
  {
    hide Times, NumAt, SegTable, MinTs, MaxTs, MinAlt, MaxAlt, MaxCallsign;
    SegTableRows(ps, gap, key);
    var ms := Members(ps, gap, key);
    var mine := (p: Position) => p.hex == key.hex && NumAt(Times(ps, p.hex), gap, p.ts) == key.num;
    forall p ensures p in ms <==> p in ps && mine(p) { InMembers(ps, gap, key, p); }
    FilterCongruence((p: Position) => InFlight(ps, gap, key, p), mine, ps);
    if ms != [] {
      assert ms[0] in ms;
      MinTsBound(ms);
      MaxTsBound(ms);
      MinAltBound(ms);
      MaxAltBound(ms);
      MaxCallsignBound(ms);
    }
  }

  lemma NoStartsInEmpty(gap: int)
    ensures Starts({}, gap) == {}
    ensures forall t :: StartsUpTo({}, gap, t) == {}
  {
  }

  /** Every number below the count of starts is some timestamp's. */
  lemma {:induction false} NumbersAreReached(T: set<int>, gap: int, n: nat)
    requires gap >= 0 && n < |Starts(T, gap)|
    ensures exists t :: t in T && NumAt(T, gap, t) == n
    decreases |T|
  {
    hide IsStart;
    assert T != {} by { NoStartsInEmpty(gap); }
    {
      LatestExists(T);
      var m :| IsLatest(T, m);
      var T' := T - {m};
      assert T' + {m} == T;
      AppendLatest(T', gap, m);
      if n < |Starts(T', gap)| {
        NumbersAreReached(T', gap, n);
        var t :| t in T' && NumAt(T', gap, t) == n;
        assert t in T && NumAt(T, gap, t) == n;
      } else {
        assert m in T && NumAt(T, gap, m) == n;
      }
    }
  }
}
