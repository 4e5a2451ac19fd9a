// Whole runs of the store: batches, prunes, imports and reopens in any order.
module FlightRuns {
  import opened Common
  import opened FlightIds
  import opened FlightIndex
  import opened Segmentation
  import opened IncrementalFlights
  import opened TrackerRebuild
  import opened FlightStore

  function Run(s: Store, gap: int, es: seq<Event>): Store {
    if es == [] then s else Step(Run(s, gap, es[..|es| - 1]), gap, es[|es| - 1])
  }

  const FRESH := Store([], EMPTY)

  /** A store found with positions and no flights, just opened. */
  function Migrated(positions: seq<Position>, gap: int): Store {
    Store(positions, Opened(positions, map[], gap))
  }

  /** Everything the batches of a run brought, in order. */
  function Arrivals(es: seq<Event>): seq<Position> {
    if es == [] then []
    else Arrivals(es[..|es| - 1]) + match es[|es| - 1] { case Insert(batch) => batch case _ => [] }
  }

  /** A reopen that finds positions and no flights, and so migrates them. */
  predicate Migrates(s: Store, e: Event) {
    e.Reopen? && s.index.flights == map[] && s.positions != []
  }

  /** No reopen of the run migrates anything. */
  predicate Quiet(s: Store, gap: int, es: seq<Event>) {
    es == [] || (Quiet(s, gap, es[..|es| - 1]) && !Migrates(Run(s, gap, es[..|es| - 1]), es[|es| - 1]))
  }

  /** How many positions the reopens of a run migrate. */
  function MigratedCount(s: Store, gap: int, es: seq<Event>): nat {
    if es == [] then 0
    else
      var before := Run(s, gap, es[..|es| - 1]);
      MigratedCount(s, gap, es[..|es| - 1]) + if Migrates(before, es[|es| - 1]) then |before.positions| else 0
  }

  lemma {:induction false} QuietMigratesNothing(s: Store, gap: int, es: seq<Event>)
    ensures Quiet(s, gap, es) <==> MigratedCount(s, gap, es) == 0
  {
    hide Run;
    if es != [] {
      QuietMigratesNothing(s, gap, es[..|es| - 1]);
    }
  }

  lemma StepKeepsWellFormed(s: Store, gap: int, e: Event)
    requires gap >= 0 && WellFormed(s.index)
    ensures WellFormed(Step(s, gap, e).index)
  {
    hide WellFormed, Indexed, Pruned, SegTable, RebuiltTracker;
    match e
    case Insert(batch) => InsertAllKeepsWellFormed(s.index, gap, batch);
    case Prune(_) =>
    case Import(_) =>
    case Reopen =>
      if s.index.flights == map[] && s.positions != [] {
        OpenedIsIndexed(s.positions, gap);
        IndexedIsWellFormed(Opened(s.positions, map[], gap), s.positions, gap);
      } else {
        RebuiltNamesSameFlight(s.index);
      }
  }

  lemma EmptyIsWellFormed()
    ensures WellFormed(EMPTY)
  {
  }

  /** The table and the tracker agree in every reachable state, whatever arrives when. */
  lemma {:induction false} EveryRunIsWellFormed(s: Store, gap: int, es: seq<Event>)
    requires gap >= 0 && WellFormed(s.index)
    ensures WellFormed(Run(s, gap, es).index)
  {
    hide WellFormed, Step;
    if es != [] {
      EveryRunIsWellFormed(s, gap, es[..|es| - 1]);
      StepKeepsWellFormed(Run(s, gap, es[..|es| - 1]), gap, es[|es| - 1]);
    }
  }

  lemma MigratedIsWellFormed(found: seq<Position>, gap: int)
    requires gap >= 0
    ensures Indexed(Migrated(found, gap).index, found, gap) && WellFormed(Migrated(found, gap).index)
  {
    hide Indexed, WellFormed, Opened;
    OpenedIsIndexed(found, gap);
    IndexedIsWellFormed(Opened(found, map[], gap), found, gap);
  }

  /**
   * In every reachable state an aircraft's flights are numbered exactly 0..n-1,
   * its tracker entry names flight n-1, and no two flights share an identifier.
   */
  lemma EveryRunNumbersDensely(s: Store, gap: int, es: seq<Event>, key: FlightKey)
    requires gap >= 0 && WellFormed(s.index)
    ensures var idx := Run(s, gap, es).index;
      && (key in idx.flights <==> key.num < NextFlight(idx.tracker, key.hex).num)
      && (key.hex in idx.tracker ==> NextFlight(idx.tracker, key.hex).num == idx.tracker[key.hex].flight.num + 1)
      && forall other | other in idx.flights && other.Text() == key.Text() :: other == key
  {
    EveryRunIsWellFormed(s, gap, es);
    forall other: FlightKey { TextIsInjective(other, key); }
  }

  // ------------------------------------------------------- the positions table

  /** Without prunes and imports the table is what was there and what arrived, in order. */
  lemma {:induction false} PlainRunsKeepArrivals(s: Store, gap: int, es: seq<Event>)
    requires forall i | 0 <= i < |es| :: !es[i].Prune? && !es[i].Import?
    ensures Run(s, gap, es).positions == s.positions + Arrivals(es)
  {
    if es == [] {
      assert s.positions + Arrivals(es) == s.positions;
    } else {
      var n := |es| - 1;
      PlainRunsKeepArrivals(s, gap, es[..n]);
      if es[n].Insert? {
        assert (s.positions + Arrivals(es[..n])) + es[n].batch == s.positions + Arrivals(es);
      } else {
        assert Arrivals(es[..n]) + [] == Arrivals(es[..n]);
      }
    }
  }

  /** No prune from event `i` on has a cutoff above the row. */
  ghost predicate Outlives(es: seq<Event>, i: nat, p: Position) {
    forall j | i <= j < |es| && es[j].Prune? :: p.ts >= es[j].cutoff
  }

  /** How often an event brings a row. */
  ghost function Brings(e: Event, p: Position): nat {
    match e
    case Insert(batch) => multiset(batch)[p]
    case Import(rows) => multiset(rows)[p]
    case _ => 0
  }

  /** How often the first `n` events brought a row that outlives the later prunes. */
  ghost function KeptCount(es: seq<Event>, n: nat, p: Position): nat
    requires n <= |es|
  {
    if n == 0 then 0 else KeptCount(es, n - 1, p) + if Outlives(es, n, p) then Brings(es[n - 1], p) else 0
  }

  lemma OutlivesPrefix(es: seq<Event>, i: nat, p: Position)
    requires i < |es|
    ensures Outlives(es, i, p) <==> Outlives(es[..|es| - 1], i, p) && Outlives(es, |es| - 1, p)
  {
    var m := |es| - 1;
    if Outlives(es, i, p) {
      assert forall j | i <= j < m && es[..m][j].Prune? :: p.ts >= es[j].cutoff;
    }
    if Outlives(es[..m], i, p) && Outlives(es, m, p) {
      forall j | i <= j < |es| && es[j].Prune? ensures p.ts >= es[j].cutoff {
        assert j < m ==> es[..m][j] == es[j];
      }
    }
  }

  lemma {:induction false} KeptCountPrefix(es: seq<Event>, n: nat, p: Position)
    requires n < |es|
    ensures var m := |es| - 1;
      KeptCount(es, n, p) == if Outlives(es, m, p) then KeptCount(es[..m], n, p) else 0
  {
    if n > 0 {
      KeptCountPrefix(es, n - 1, p);
      OutlivesPrefix(es, n, p);
    }
  }

  lemma StepRows(s: Store, gap: int, e: Event, p: Position)
    ensures multiset(Step(s, gap, e).positions)[p]
         == (if e.Prune? && p.ts < e.cutoff then 0 else multiset(s.positions)[p]) + Brings(e, p)
  {
    hide Opened, InsertAll;
    if e.Prune? {
      FilterCount((q: Position) => Recent(e.cutoff, q), s.positions, p);
    }
  }

  /**
   * After any run a row is stored as often as it was found, arrived or was imported,
   * not counting what a later prune cut off.
   */
  lemma {:induction false} RowsOfRun(s: Store, gap: int, es: seq<Event>, p: Position)
    ensures multiset(Run(s, gap, es).positions)[p]
         == (if Outlives(es, 0, p) then multiset(s.positions)[p] else 0) + KeptCount(es, |es|, p)
  {
    hide Step, Brings;
    if es != [] {
      var n := |es| - 1;
      RowsOfRun(s, gap, es[..n], p);
      StepRows(Run(s, gap, es[..n]), gap, es[n], p);
      KeptCountPrefix(es, n, p);
      OutlivesPrefix(es, 0, p);
      assert Outlives(es, |es|, p);
      assert Outlives(es, n, p) <==> (es[n].Prune? ==> p.ts >= es[n].cutoff);
    }
  }

  // -------------------------------------------------------------- conservation

  lemma {:induction false} NothingCounted(flights: FlightTable)
    requires forall key | key in flights :: flights[key].count == 0
    ensures TotalCount(flights) == 0
    decreases |flights|
  {
    if flights != map[] {
      assert flights.Keys != {};
      var key := SomeElement(flights.Keys);
      TotalCountRemove(flights, key);
      NothingCounted(flights - {key});
    }
  }

  /** Rows that count a partition of some positions count them all. */
  lemma {:induction false} PartitionCounts(flights: FlightTable, flight: Position -> FlightKey, ps: seq<Position>)
    requires forall p | p in ps :: flight(p) in flights
    requires forall key | key in flights :: flights[key].count == |Filter((p: Position) => flight(p) == key, ps)|
    ensures TotalCount(flights) == |ps|
  {
    if ps == [] {
      NothingCounted(flights);
    } else {
      var n := |ps| - 1;
      var key := flight(ps[n]);
      assert ps[n] in ps;
      var less := flights[key].(count := flights[key].count - 1);
      TotalCountPut(flights, key, less);
      PartitionCounts(flights[key := less], flight, ps[..n]);
    }
  }

  /** The migration counts every position once. */
  lemma SegTableCounts(ps: seq<Position>, gap: int)
    ensures TotalCount(SegTable(ps, gap)) == |ps|
  {
    var seg := SegTable(ps, gap);
    var flight := (p: Position) => FlightKey(p.hex, NumAt(Times(ps, p.hex), gap, p.ts));
    forall p | p in ps ensures flight(p) in seg {
      SegTableRows(ps, gap, flight(p));
      InMembers(ps, gap, flight(p), p);
    }
    forall key | key in seg ensures seg[key].count == |Filter((p: Position) => flight(p) == key, ps)| {
      SegTableRows(ps, gap, key);
      FilterCongruence((p: Position) => InFlight(ps, gap, key, p), (p: Position) => flight(p) == key, ps);
    }
    PartitionCounts(seg, flight, ps);
  }

  /**
   * Conservation, in any arrival order and across batches, prunes, imports and
   * reopens: the position counts of the flights grow by the positions that arrived,
   * and by those a reopen migrated.
   */
  lemma {:induction false} RunConservesPositions(s: Store, gap: int, es: seq<Event>)
    requires gap >= 0 && WellFormed(s.index)
    ensures TotalCount(Run(s, gap, es).index.flights)
         == TotalCount(s.index.flights) + |Arrivals(es)| + MigratedCount(s, gap, es)
  {
    hide WellFormed, Pruned, SegTable, RebuiltTracker;
    if es != [] {
      var n := |es| - 1;
      RunConservesPositions(s, gap, es[..n]);
      EveryRunIsWellFormed(s, gap, es[..n]);
      var before := Run(s, gap, es[..n]);
      match es[n]
      case Insert(batch) => PositionCountsAddUp(before.index, gap, batch);
      case Prune(_) =>
      case Import(_) =>
      case Reopen =>
        SegTableCounts(before.positions, gap);
    }
  }

  // ------------------------------------------------------ restart transparency

  lemma FollowsAppend(ps: seq<Position>, qs: seq<Position>, rs: seq<Position>)
    requires Follows(ps, qs + rs)
    ensures Follows(ps, qs) && Follows(ps + qs, rs)
  {
    var all := qs + rs;
    assert all[..|qs|] == qs;
    FollowsPrefix(ps, all, |qs|);
    forall j | 0 <= j < |rs| ensures OnTime(ps + qs + rs[..j], rs[j]) {
      assert all[..|qs| + j] == qs + rs[..j];
      assert ps + qs + rs[..j] == ps + (qs + rs[..j]);
      assert OnTime(ps + all[..|qs| + j], all[|qs| + j]);
    }
  }

  /**
   * On-time arrivals, cut into batches with prunes, imports and quiet reopens in
   * between, leave the index that filing them one by one leaves, and it is the
   * segmentation of everything that ever arrived.
   */
  lemma {:induction false} QuietRunsAreTransparent(found: seq<Position>, gap: int, es: seq<Event>)
    requires gap >= 0 && Follows(found, Arrivals(es)) && Quiet(Migrated(found, gap), gap, es)
    ensures var s := Migrated(found, gap);
      && Run(s, gap, es).index == InsertAll(s.index, gap, Arrivals(es))
      && Indexed(Run(s, gap, es).index, found + Arrivals(es), gap)
  {
    hide Indexed, OnTime, Follows, Opened, WellFormed;
    var s := Migrated(found, gap);
    if es == [] {
      assert found + Arrivals(es) == found;
      MigratedIsWellFormed(found, gap);
    } else {
      var n := |es| - 1;
      var head, tail := Arrivals(es[..n]), match es[n] { case Insert(batch) => batch case _ => [] };
      assert Arrivals(es) == head + tail;
      FollowsAppend(found, head, tail);
      QuietRunsAreTransparent(found, gap, es[..n]);
      var before := Run(s, gap, es[..n]);
      match es[n]
      case Insert(batch) =>
        InsertAllAppend(s.index, gap, head, tail);
        InsertAllKeepsIndexed(before.index, found + head, gap, tail);
        assert found + (head + tail) == (found + head) + tail;
      case Prune(_) =>
        assert head + tail == head;
      case Import(_) =>
        assert head + tail == head;
      case Reopen =>
        assert head + tail == head;
        IndexedIsWellFormed(before.index, found + head, gap);
        RestartableIsSeenInStep(before.index);
        ReopenIsInvisible(before.index, before.positions, gap);
    }
  }

  /**
   * Restart transparency: with on-time arrivals, batches, prunes, imports and
   * reopens at any points leave the index that filing the arrivals one by one
   * leaves, if and only if no reopen migrates: a migration numbers rows that
   * never arrived.
   */
  lemma RunsAreTransparent(found: seq<Position>, gap: int, es: seq<Event>)
    requires gap >= 0 && Follows(found, Arrivals(es))
    ensures var s := Migrated(found, gap);
      && (Run(s, gap, es).index == InsertAll(s.index, gap, Arrivals(es)) <==> Quiet(s, gap, es))
      && (Quiet(s, gap, es) ==> Indexed(Run(s, gap, es).index, found + Arrivals(es), gap))
  {
    hide Indexed, Follows, Opened, WellFormed, Quiet, TotalCount;
    var s := Migrated(found, gap);
    if Quiet(s, gap, es) {
      QuietRunsAreTransparent(found, gap, es);
    } else {
      MigratedIsWellFormed(found, gap);
      RunConservesPositions(s, gap, es);
      PositionCountsAddUp(s.index, gap, Arrivals(es));
      QuietMigratesNothing(s, gap, es);
    }
  }

  /** No import comes before the first flight. */
  predicate NoEarlyImport(found: seq<Position>, es: seq<Event>) {
    forall i | 0 <= i < |es| && es[i].Import? :: found + Arrivals(es[..i]) != []
  }

  lemma NoFlightsCountNothing()
    ensures TotalCount(map[]) == 0
  {
  }

  lemma MigratedTable(found: seq<Position>, gap: int)
    ensures Migrated(found, gap).index.flights == if found != [] then SegTable(found, gap) else map[]
  {
  }

  /** Reopens are quiet when no import comes before the first flight. */
  lemma {:induction false} NoEarlyImportIsQuiet(found: seq<Position>, gap: int, es: seq<Event>)
    requires gap >= 0 && NoEarlyImport(found, es)
    ensures var s := Migrated(found, gap);
      Quiet(s, gap, es) && (Run(s, gap, es).positions != [] ==> found + Arrivals(es) != [])
  {
    hide Opened, WellFormed, TotalCount, SegTable;
    var s := Migrated(found, gap);
    if es != [] {
      var n := |es| - 1;
      forall i | 0 <= i < n && es[..n][i].Import? ensures found + Arrivals(es[..n][..i]) != [] {
        assert es[..n][..i] == es[..i];
      }
      NoEarlyImportIsQuiet(found, gap, es[..n]);
      MigratedIsWellFormed(found, gap);
      RunConservesPositions(s, gap, es[..n]);
      SegTableCounts(found, gap);
      NoFlightsCountNothing();
      assert s.index.flights == if found != [] then SegTable(found, gap) else map[] by { MigratedTable(found, gap); }
      if es[n].Prune? {
        FilterShrinks((p: Position) => Recent(es[n].cutoff, p), Run(s, gap, es[..n]).positions);
      }
    }
  }

  lemma IndexedTable(idx: Index, ps: seq<Position>, gap: int)
    requires Indexed(idx, ps, gap)
    ensures SameTable(idx.flights, SegTable(ps, gap))
  {
  }

  lemma NothingToMigrate(gap: int)
    ensures Migrated([], gap) == FRESH
  {
    assert RebuiltTracker(map[]) == map[];
  }

  /**
   * Two runs of a fresh store that bring the same in-order arrivals end with the
   * same index, however they cut them into batches and wherever they prune, import
   * and reopen, as long as no reopen migrates.
   */
  lemma CutsAndReopensAreInvisible(gap: int, es: seq<Event>, fs: seq<Event>)
    requires gap >= 0 && Quiet(FRESH, gap, es) && Quiet(FRESH, gap, fs)
    requires Arrivals(es) == Arrivals(fs) && InOrder(Arrivals(es))
    ensures Run(FRESH, gap, es).index == Run(FRESH, gap, fs).index
    ensures SameTable(Run(FRESH, gap, es).index.flights, SegTable(Arrivals(es), gap))
  {
    hide Indexed, Follows, InOrder, SegTable, Quiet, Run, Arrivals, InsertAll, Opened;
    InOrderFollows(Arrivals(es));
    assert Migrated([], gap) == FRESH by { NothingToMigrate(gap); }
    RunsAreTransparent([], gap, es);
    RunsAreTransparent([], gap, fs);
    assert [] + Arrivals(es) == Arrivals(es);
    IndexedTable(Run(FRESH, gap, es).index, Arrivals(es), gap);
  }

  /** An import into an empty store makes the next reopen visible: it numbers the imported row. */
  lemma EarlyImportIsVisible(gap: int, q: Position)
    requires gap >= 0
    ensures Run(FRESH, gap, [Import([q])]).index == EMPTY
    ensures Run(FRESH, gap, [Import([q]), Reopen]).index != EMPTY
  {
    hide Opened;
    var es := [Import([q]), Reopen];
    assert es[..1] == [Import([q])] && [Import([q])][..0] == [];
    assert Run(FRESH, gap, []) == FRESH && Run(FRESH, gap, es[..1]) == Store([] + [q], EMPTY);
    EmptyIsWellFormed();
    RunConservesPositions(FRESH, gap, es);
  }
}
