// Azimuth sectors: the SQL formula, the reference formula, and the merge of the
// query's rows into 36 sectors.
module DetectionSectors {
  import opened Common

  function Mod360(x: real): real {
    x - 360.0 * (x / 360.0).Floor as real
  }

  /** The remainder of `%` on floats, which takes the sign of its left side, without rounding. */
  function Rem360(x: real): real {
    if x < 0.0 then -Mod360(-x) else Mod360(x)
  }

  /** The tail of `initial_bearing_deg`, from the angle atan2 gives. */
  function Bearing(angle: real): real {
    Rem360(angle + 360.0)
  }

  /** The cast to an unsigned integer truncates, and gives 0 for anything negative. */
  function BearingToSector(bearing: real): nat {
    var r := Rem360(bearing + 5.0);
    if r < 0.0 then 0 else r.Floor / 10
  }

  /** The range of atan2 in degrees. */
  predicate IsAngle(angle: real) {
    -180.0 <= angle <= 180.0
  }

  /** CAST(FLOOR((CAST(FLOOR(angle + 365) AS INTEGER) % 360) / 10.0) AS INTEGER). */
  function SqlSector(angle: real): int
    requires IsAngle(angle)
  {
    (((angle + 365.0).Floor % 360) as real / 10.0).Floor
  }

  function Turned(angle: real, turns: int): real {
    angle + 360.0 * turns as real
  }

  /** Up to whole turns, the angle is within five degrees of the sector's centre. */
  ghost predicate Within(angle: real, sector: int) {
    exists turns: int :: 10.0 * sector as real - 5.0 <= Turned(angle, turns) < 10.0 * sector as real + 5.0
  }

  lemma FloorOfShift(x: real, n: int)
    ensures (x + n as real).Floor == x.Floor + n
  {
  }

  lemma Mod360Range(x: real)
    ensures 0.0 <= Mod360(x) < 360.0
  {
    var q := (x / 360.0).Floor;
    assert q as real <= x / 360.0 < q as real + 1.0;
    assert 360.0 * (x / 360.0) == x;
  }

  lemma Mod360Unique(x: real, r: real, n: int)
    requires 0.0 <= r < 360.0 && x == r + 360.0 * n as real
    ensures Mod360(x) == r
  {
    assert x / 360.0 == r / 360.0 + n as real;
    FloorOfShift(r / 360.0, n);
    assert 0.0 <= r / 360.0 < 1.0;
  }

  /** Truncating before or after taking the remainder is the same. */
  lemma FloorOfMod(x: real)
    ensures Mod360(x).Floor == x.Floor % 360
  {
    var q := (x / 360.0).Floor;
    Mod360Range(x);
    FloorOfShift(x, -360 * q);
    assert Mod360(x) == x + (-360 * q) as real;
    assert Mod360(x).Floor == x.Floor - 360 * q;
  }

  lemma TenthOf(n: int)
    ensures (n as real / 10.0).Floor == n / 10
  {
    var q := n / 10;
    assert n == 10 * q + n % 10;
    assert n as real / 10.0 == q as real + (n % 10) as real / 10.0;
    assert 0.0 <= (n % 10) as real / 10.0 < 1.0;
  }

  lemma Mod360Shift(angle: real)
    ensures Mod360(Mod360(angle + 360.0) + 5.0) == Mod360(angle + 365.0)
  {
    var x := angle + 360.0;
    var q, q' := (x / 360.0).Floor, ((Mod360(x) + 5.0) / 360.0).Floor;
    Mod360Range(Mod360(x) + 5.0);
    Mod360Unique(angle + 365.0, Mod360(Mod360(x) + 5.0), q + q');
  }

  /** The two formulas agree on every angle, and the sector is one of 36. */
  lemma SectorFormulasAgree(angle: real)
    requires IsAngle(angle)
    ensures SqlSector(angle) == BearingToSector(Bearing(angle))
    ensures 0 <= SqlSector(angle) < 36
  {
    Mod360Range(angle + 360.0);
    Mod360Shift(angle);
    FloorOfMod(angle + 365.0);
    TenthOf((angle + 365.0).Floor % 360);
  }

  /** A sector is exactly the ten degrees around its centre. */
  lemma SectorMeansWithin(angle: real, sector: int)
    requires IsAngle(angle) && 0 <= sector < 36
    ensures SqlSector(angle) == sector <==> Within(angle, sector)
  {
    var x := angle + 365.0;
    var m := Mod360(x);
    Mod360Range(x);
    FloorOfMod(x);
    TenthOf(x.Floor % 360);
    SectorFormulasAgree(angle);
    var q := (x / 360.0).Floor;
    if SqlSector(angle) == sector {
      assert 10 * sector <= m.Floor < 10 * sector + 10;
      assert Turned(angle, 1 - q) == m - 5.0;
    }
    if Within(angle, sector) {
      var turns: int :| 10.0 * sector as real - 5.0 <= Turned(angle, turns) < 10.0 * sector as real + 5.0;
      var r := Turned(angle, turns) + 5.0;
      Mod360Unique(x, r, 1 - turns);
      assert 10 * sector <= r.Floor < 10 * sector + 10;
    }
  }

  // ---------------------------------------------------------------- the merge

  /** A row of the sector query; the sector index is whatever the engine returned. */
  datatype Row = Row(sector: int, distance: real, count: nat, minAlt: Option<real>, maxAlt: Option<real>, flights: nat)

  datatype Sector = Sector(distance: real, count: nat, minAlt: Option<real>, maxAlt: Option<real>, flights: nat)

  const EMPTY := Sector(0.0, 0, None, None, 0)

  function Merged(s: Sector, r: Row): Sector {
    Sector(if s.distance < r.distance then r.distance else s.distance,
           s.count + r.count,
           Least(s.minAlt, r.minAlt),
           Greatest(s.maxAlt, r.maxAlt),
           if s.flights < r.flights then r.flights else s.flights)
  }

  /** One sector after a list of rows. */
  function SectorOf(rows: seq<Row>, sector: int): Sector {
    if rows == [] then EMPTY
    else
      var n := |rows| - 1;
      if rows[n].sector == sector then Merged(SectorOf(rows[..n], sector), rows[n]) else SectorOf(rows[..n], sector)
  }

  /** Merges the query's rows into the 36 sectors; a row outside them is ignored. */
  method MergeRows(rows: seq<Row>) returns (sectors: seq<Sector>)
    ensures |sectors| == 36
    ensures forall i | 0 <= i < 36 :: sectors[i] == SectorOf(rows, i)
  {
    sectors := seq(36, _ => EMPTY);
    for k := 0 to |rows|
      invariant |sectors| == 36
      invariant forall i | 0 <= i < 36 :: sectors[i] == SectorOf(rows[..k], i)
    {
      var r := rows[k];
      assert rows[..k + 1][..k] == rows[..k];
      if 0 <= r.sector < 36 {
        sectors := sectors[r.sector := Merged(sectors[r.sector], r)];
      }
    }
    assert rows[..|rows|] == rows;
  }

  /** A duplicate sector row never drops the farthest distance: it is a bound that is attained. */
  lemma {:induction false} FarthestIsKept(rows: seq<Row>, sector: int)
    ensures forall k | 0 <= k < |rows| && rows[k].sector == sector ::
      rows[k].distance <= SectorOf(rows, sector).distance
    ensures SectorOf(rows, sector).distance == 0.0
         || exists k :: 0 <= k < |rows| && rows[k].sector == sector
                        && rows[k].distance == SectorOf(rows, sector).distance
  {
    if rows != [] {
      var n := |rows| - 1;
      FarthestIsKept(rows[..n], sector);
      if SectorOf(rows[..n], sector).distance != 0.0 {
        var k :| 0 <= k < n && rows[..n][k].sector == sector
                 && rows[..n][k].distance == SectorOf(rows[..n], sector).distance;
        assert rows[k] == rows[..n][k];
      }
    }
  }

  /** Nor does one drop an altitude: the lowest and the highest are bounds that are attained. */
  lemma {:induction false} AltitudesAreKept(rows: seq<Row>, sector: int)
    ensures var s := SectorOf(rows, sector);
      forall k | 0 <= k < |rows| && rows[k].sector == sector ::
        && (rows[k].minAlt.Some? ==> s.minAlt.Some? && s.minAlt.value <= rows[k].minAlt.value)
        && (rows[k].maxAlt.Some? ==> s.maxAlt.Some? && rows[k].maxAlt.value <= s.maxAlt.value)
        && rows[k].flights <= s.flights
    ensures var s := SectorOf(rows, sector);
      && (s.minAlt.None? || exists k :: 0 <= k < |rows| && rows[k].sector == sector && rows[k].minAlt == s.minAlt)
      && (s.maxAlt.None? || exists k :: 0 <= k < |rows| && rows[k].sector == sector && rows[k].maxAlt == s.maxAlt)
      && (s.flights == 0 || exists k :: 0 <= k < |rows| && rows[k].sector == sector && rows[k].flights == s.flights)
  {
    if rows != [] {
      var n := |rows| - 1;
      AltitudesAreKept(rows[..n], sector);
      var s, all := SectorOf(rows[..n], sector), SectorOf(rows, sector);
      assert forall k | 0 <= k < n :: rows[..n][k] == rows[k];
      assert rows[n].sector == sector || all == s;
    }
  }

  /**
   * GROUP BY yields one row per sector: the sector then shows that row as it is,
   * with a distance of at least 0, and a sector without a row shows nothing.
   */
  lemma {:induction false} OneRowShows(rows: seq<Row>, sector: int)
    requires forall i, j | 0 <= i < j < |rows| :: rows[i].sector != rows[j].sector
    ensures (forall k | 0 <= k < |rows| :: rows[k].sector != sector) ==> SectorOf(rows, sector) == EMPTY
    ensures forall k | 0 <= k < |rows| && rows[k].sector == sector ::
      SectorOf(rows, sector) == Sector(if rows[k].distance < 0.0 then 0.0 else rows[k].distance,
                                       rows[k].count, rows[k].minAlt, rows[k].maxAlt, rows[k].flights)
  {
    if rows != [] {
      var n := |rows| - 1;
      OneRowShows(rows[..n], sector);
      assert forall k | 0 <= k < n :: rows[..n][k] == rows[k];
    }
  }

  function CountAll(rows: seq<Row>): nat {
    if rows == [] then 0
    else CountAll(rows[..|rows| - 1]) + if 0 <= rows[|rows| - 1].sector < 36 then rows[|rows| - 1].count else 0
  }

  /** Position counts of the first `n` sectors. */
  function CountSectors(rows: seq<Row>, n: nat): nat {
    if n == 0 then 0 else CountSectors(rows, n - 1) + SectorOf(rows, n - 1).count
  }

  lemma {:induction false} CountSnoc(rows: seq<Row>, r: Row, n: nat)
    ensures CountSectors(rows + [r], n) == CountSectors(rows, n) + if 0 <= r.sector < n then r.count else 0
  {
    if n > 0 {
      CountSnoc(rows, r, n - 1);
      assert (rows + [r])[..|rows|] == rows;
    }
  }

  lemma {:induction false} NoRows(n: nat)
    ensures CountSectors([], n) == 0
  {
    if n > 0 {
      NoRows(n - 1);
    }
  }

  /** The 36 sectors together count every position of the rows that have a sector. */
  lemma {:induction false} SectorsCountEveryPosition(rows: seq<Row>)
    ensures CountSectors(rows, 36) == CountAll(rows)
  {
    if rows == [] {
      NoRows(36);
    } else {
      var n := |rows| - 1;
      SectorsCountEveryPosition(rows[..n]);
      CountSnoc(rows[..n], rows[n], 36);
      assert rows == rows[..n] + [rows[n]];
    }
  }
}
