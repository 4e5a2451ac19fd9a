// Tracks of a scenario, kept in the order their ordinals give.
module ScenarioTracks {
  import opened Common
  import opened Segmentation

  /** A scenario_tracks row, by its id; the fields that no order depends on are left out. */
  datatype Track = Track(scenario: string, ordinal: int)

  type Tracks = map<string, Track>

  datatype Library = Library(scenarios: set<string>, tracks: Tracks)

  predicate Has(tracks: Tracks, scenario: string, id: string) {
    id in tracks && tracks[id].scenario == scenario
  }

  function Ordinals(tracks: Tracks, scenario: string): set<int> {
    set id | id in tracks && tracks[id].scenario == scenario :: tracks[id].ordinal
  }

  /** COALESCE(MAX(ordinal) + 1, 0). */
  ghost predicate IsNextOrdinal(tracks: Tracks, scenario: string, n: int) {
    var s := Ordinals(tracks, scenario);
    if s == {} then n == 0 else IsLatest(s, n - 1)
  }

  ghost function NextOrdinal(tracks: Tracks, scenario: string): (n: int)
    ensures IsNextOrdinal(tracks, scenario, n)
  {
    var s := Ordinals(tracks, scenario);
    if s == {} then 0
    else
      LatestExists(s);
      var m :| IsLatest(s, m);
      m + 1
  }

  ghost function WithTrack(tracks: Tracks, scenario: string, id: string): Tracks {
    tracks[id := Track(scenario, NextOrdinal(tracks, scenario))]
  }

  /** One UPDATE of the reorder loop; an id of another scenario matches no row. */
  function Placed(tracks: Tracks, scenario: string, id: string, index: nat): Tracks {
    if Has(tracks, scenario, id) then tracks[id := tracks[id].(ordinal := index)] else tracks
  }

  /** The first `k` updates of a reorder. */
  function Reordered(tracks: Tracks, scenario: string, ids: seq<string>, k: nat): Tracks
    requires k <= |ids|
  {
    if k == 0 then tracks else Placed(Reordered(tracks, scenario, ids, k - 1), scenario, ids[k - 1], k - 1)
  }

  function WithoutScenario(tracks: Tracks, scenario: string): Tracks {
    map id | id in tracks && tracks[id].scenario != scenario :: tracks[id]
  }

  /** No two tracks of the scenario share an ordinal. */
  ghost predicate Distinct(tracks: Tracks, scenario: string) {
    forall a, b | Has(tracks, scenario, a) && Has(tracks, scenario, b) && a != b ::
      tracks[a].ordinal != tracks[b].ordinal
  }

  ghost predicate NoRepeats(ids: seq<string>) {
    forall i, j | 0 <= i < j < |ids| :: ids[i] != ids[j]
  }

  /** The ids are the scenario's tracks, each once. */
  ghost predicate Lists(tracks: Tracks, scenario: string, ids: seq<string>) {
    && NoRepeats(ids)
    && (forall i | 0 <= i < |ids| :: Has(tracks, scenario, ids[i]))
    && (forall id | Has(tracks, scenario, id) :: id in ids)
  }

  /** Reading a scenario: its tracks, each once, ORDER BY ordinal ASC. */
  ghost predicate IsReading(tracks: Tracks, scenario: string, ids: seq<string>) {
    && Lists(tracks, scenario, ids)
    && (forall i, j | 0 <= i < j < |ids| :: tracks[ids[i]].ordinal <= tracks[ids[j]].ordinal)
  }

  // ------------------------------------------------------------------- reading

  lemma LastIsGreatest(tracks: Tracks, scenario: string, ids: seq<string>, id: string)
    requires IsReading(tracks, scenario, ids) && id in ids
    ensures Has(tracks, scenario, ids[|ids| - 1]) && Has(tracks, scenario, id)
    ensures tracks[id].ordinal <= tracks[ids[|ids| - 1]].ordinal
  {
    var i :| 0 <= i < |ids| && ids[i] == id;
  }

  lemma DropLast(tracks: Tracks, scenario: string, ids: seq<string>)
    requires ids != [] && IsReading(tracks, scenario, ids)
    ensures IsReading(tracks - {ids[|ids| - 1]}, scenario, ids[..|ids| - 1])
  {
    var n := |ids| - 1;
    forall id | Has(tracks - {ids[n]}, scenario, id) ensures id in ids[..n] {
      assert Has(tracks, scenario, id);
      var i :| 0 <= i < |ids| && ids[i] == id;
      assert ids[..n][i] == id;
    }
  }

  /** With distinct ordinals there is only one way to read a scenario. */
  lemma {:induction false} ReadingIsUnique(tracks: Tracks, scenario: string, a: seq<string>, b: seq<string>)
    requires Distinct(tracks, scenario) && IsReading(tracks, scenario, a) && IsReading(tracks, scenario, b)
    ensures a == b
    decreases |a|
  {
    if a == [] {
      Inhabited(b);
    } else {
      var n := |a| - 1;
      assert a[n] in a && a[n] in b;
      var m := |b| - 1;
      assert b[m] in b && b[m] in a;
      LastIsGreatest(tracks, scenario, a, b[m]);
      LastIsGreatest(tracks, scenario, b, a[n]);
      assert a[n] == b[m];
      var rest := tracks - {a[n]};
      DropLast(tracks, scenario, a);
      DropLast(tracks, scenario, b);
      ReadingIsUnique(rest, scenario, a[..n], b[..m]);
      assert a == a[..n] + [a[n]] && b == b[..m] + [b[m]];
    }
  }

  // ------------------------------------------------------------------- inserts

  lemma NewOrdinalIsGreatest(tracks: Tracks, scenario: string, id: string)
    requires Has(tracks, scenario, id)
    ensures tracks[id].ordinal < NextOrdinal(tracks, scenario)
  {
    assert tracks[id].ordinal in Ordinals(tracks, scenario);
  }

  /** A new track always reads back last, and leaves the other scenarios' readings alone. */
  lemma NewTrackReadsLast(tracks: Tracks, scenario: string, id: string, ids: seq<string>)
    requires id !in tracks && IsReading(tracks, scenario, ids)
    ensures IsReading(WithTrack(tracks, scenario, id), scenario, ids + [id])
    ensures forall r | IsReading(WithTrack(tracks, scenario, id), scenario, r) :: r != [] && r[|r| - 1] == id
  {
    var after, all := WithTrack(tracks, scenario, id), ids + [id];
    forall i | 0 <= i < |ids| ensures tracks[ids[i]].ordinal < after[id].ordinal && ids[i] != id {
      NewOrdinalIsGreatest(tracks, scenario, ids[i]);
    }
    forall other | Has(after, scenario, other) ensures other in all {
      assert all[|ids|] == id;
    }
    forall r | IsReading(after, scenario, r) ensures r != [] && r[|r| - 1] == id {
      assert id in r;
      var last := r[|r| - 1];
      assert last in r;
      LastIsGreatest(after, scenario, r, id);
      if last != id {
        NewOrdinalIsGreatest(tracks, scenario, last);
      }
    }
  }

  lemma NewTrackKeepsDistinct(tracks: Tracks, scenario: string, id: string, other: string)
    requires id !in tracks && Distinct(tracks, other)
    ensures Distinct(WithTrack(tracks, scenario, id), other)
  {
    forall a | Has(tracks, scenario, a) { NewOrdinalIsGreatest(tracks, scenario, a); }
  }

  // ------------------------------------------------------------------- reorder

  /** What a reorder does to each track: the last position it is listed at, if it is the scenario's. */
  lemma {:induction false} ReorderedTrack(tracks: Tracks, scenario: string, ids: seq<string>, k: nat, id: string)
    requires k <= |ids|
    ensures var r := Reordered(tracks, scenario, ids, k);
      && (id in r <==> id in tracks)
      && (id in tracks ==> r[id].scenario == tracks[id].scenario)
      && (id in tracks && (!Has(tracks, scenario, id) || id !in ids[..k]) ==> r[id] == tracks[id])
      && (Has(tracks, scenario, id) && id in ids[..k] ==>
            0 <= r[id].ordinal < k && ids[r[id].ordinal] == id
            && forall i | r[id].ordinal < i < k :: ids[i] != id)
  {
    if k > 0 {
      ReorderedTrack(tracks, scenario, ids, k - 1, id);
      assert ids[..k] == ids[..k - 1] + [ids[k - 1]];
    }
  }

  /**
   * A full reorder reads back exactly in the order given, with ordinals 0, 1, ...,
   * and moves no track of another scenario.
   */
  lemma FullReorderReadsBack(tracks: Tracks, scenario: string, ids: seq<string>)
    requires Lists(tracks, scenario, ids)
    ensures var r := Reordered(tracks, scenario, ids, |ids|);
      && IsReading(r, scenario, ids)
      && (forall i | 0 <= i < |ids| :: ids[i] in r && r[ids[i]].ordinal == i)
      && (forall id | id in tracks && tracks[id].scenario != scenario :: id in r && r[id] == tracks[id])
      && forall other | Distinct(tracks, other) || other == scenario :: Distinct(r, other)
  {
    var r := Reordered(tracks, scenario, ids, |ids|);
    assert ids[..|ids|] == ids;
    forall id { ReorderedTrack(tracks, scenario, ids, |ids|, id); }
    forall i | 0 <= i < |ids| ensures ids[i] in r && r[ids[i]].ordinal == i {
      assert ids[i] in ids;
    }
    forall other, a, b
      | (Distinct(tracks, other) || other == scenario) && Has(r, other, a) && Has(r, other, b) && a != b
      ensures r[a].ordinal != r[b].ordinal
    {
      if other == scenario {
        assert a in ids && b in ids;
      } else {
        assert r[a] == tracks[a] && r[b] == tracks[b];
      }
    }
  }

  /**
   * A partial or stale list can make two ordinals collide. It does not exactly when
   * no track left out already sits at a position the list hands out.
   */
  lemma ReorderKeepsDistinctIff(tracks: Tracks, scenario: string, ids: seq<string>)
    requires NoRepeats(ids) && Distinct(tracks, scenario)
    ensures Distinct(Reordered(tracks, scenario, ids, |ids|), scenario)
       <==> forall i, id | 0 <= i < |ids| && Has(tracks, scenario, ids[i]) && Has(tracks, scenario, id) && id !in ids ::
              tracks[id].ordinal != i
  {
    var r := Reordered(tracks, scenario, ids, |ids|);
    assert ids[..|ids|] == ids;
    forall id { ReorderedTrack(tracks, scenario, ids, |ids|, id); }
    forall i | 0 <= i < |ids| && Has(tracks, scenario, ids[i]) ensures r[ids[i]].ordinal == i {
      assert ids[i] in ids;
    }
    if Distinct(r, scenario) {
      forall i, id | 0 <= i < |ids| && Has(tracks, scenario, ids[i]) && Has(tracks, scenario, id) && id !in ids
        ensures tracks[id].ordinal != i
      {
        assert ids[i] in ids && Has(r, scenario, ids[i]) && Has(r, scenario, id);
      }
    }
  }

  // ---------------------------------------------------------------------- runs

  datatype Event =
    | CreateScenario(scenario: string)
    | DeleteScenario(scenario: string)
    | InsertTrack(scenario: string, id: string)
    | DeleteTrack(id: string)
    | Reorder(scenario: string, ids: seq<string>)

  /** Deleting an unknown scenario fails and is rolled back. */
  ghost function Step(lib: Library, e: Event): Library {
    match e
    case CreateScenario(scenario) => lib.(scenarios := lib.scenarios + {scenario})
    case DeleteScenario(scenario) =>
      if scenario in lib.scenarios
      then Library(lib.scenarios - {scenario}, WithoutScenario(lib.tracks, scenario))
      else lib
    case InsertTrack(scenario, id) => lib.(tracks := WithTrack(lib.tracks, scenario, id))
    case DeleteTrack(id) => lib.(tracks := lib.tracks - {id})
    case Reorder(scenario, ids) => lib.(tracks := Reordered(lib.tracks, scenario, ids, |ids|))
  }

  ghost function Run(lib: Library, es: seq<Event>): Library {
    if es == [] then lib else Step(Run(lib, es[..|es| - 1]), es[|es| - 1])
  }

  /** New ids are new, and reorders list the whole scenario. */
  ghost predicate Proper(lib: Library, e: Event) {
    match e
    case InsertTrack(_, id) => id !in lib.tracks
    case Reorder(scenario, ids) => Lists(lib.tracks, scenario, ids)
    case _ => true
  }

  ghost predicate AllProper(lib: Library, es: seq<Event>) {
    es == [] || (AllProper(lib, es[..|es| - 1]) && Proper(Run(lib, es[..|es| - 1]), es[|es| - 1]))
  }

  /** Ordinals within a scenario stay distinct over any run of inserts, deletes and full reorders. */
  lemma {:induction false} OrdinalsStayDistinct(lib: Library, es: seq<Event>, scenario: string)
    requires AllProper(lib, es) && Distinct(lib.tracks, scenario)
    ensures Distinct(Run(lib, es).tracks, scenario)
  {
    if es != [] {
      var n := |es| - 1;
      OrdinalsStayDistinct(lib, es[..n], scenario);
      var before := Run(lib, es[..n]);
      match es[n]
      case InsertTrack(sc, id) => NewTrackKeepsDistinct(before.tracks, sc, id, scenario);
      case Reorder(sc, ids) => FullReorderReadsBack(before.tracks, sc, ids);
      case _ =>
    }
  }

  /**
   * After a delete the scenario has no tracks if and only if it existed or had none:
   * tracks filed under a scenario that was never created outlive the failed delete.
   * Other scenarios keep theirs.
   */
  lemma DeleteScenarioIff(lib: Library, scenario: string)
    ensures var r := Step(lib, DeleteScenario(scenario));
      && ((forall id :: !Has(r.tracks, scenario, id))
          <==> scenario in lib.scenarios || forall id :: !Has(lib.tracks, scenario, id))
      && forall id | id in lib.tracks && lib.tracks[id].scenario != scenario ::
           id in r.tracks && r.tracks[id] == lib.tracks[id]
  {
    var r := Step(lib, DeleteScenario(scenario));
    if scenario in lib.scenarios {
      assert forall id :: !Has(r.tracks, scenario, id);
    }
  }

  /**
   * What creating and deleting do to the library, row by row. A created scenario is
   * there; a deleted one that was there is gone with its tracks, and one that was not
   * leaves everything as it is; a deleted track is gone. All other rows stay as they are.
   */
  lemma DeletedIsGone(lib: Library, scenario: string, id: string, other: string)
    ensures other in Step(lib, CreateScenario(scenario)).scenarios <==> other in lib.scenarios || other == scenario
    ensures Step(lib, CreateScenario(scenario)).tracks == lib.tracks
    ensures other in Step(lib, DeleteScenario(scenario)).scenarios <==> other in lib.scenarios && other != scenario
    ensures var r := Step(lib, DeleteScenario(scenario)).tracks;
      && (id in r <==> id in lib.tracks && !(scenario in lib.scenarios && lib.tracks[id].scenario == scenario))
      && (id in r ==> r[id] == lib.tracks[id])
    ensures var r := Step(lib, DeleteTrack(id));
      && r.scenarios == lib.scenarios
      && id !in r.tracks
      && (other != id ==> (other in r.tracks <==> other in lib.tracks))
      && (other != id && other in lib.tracks ==> r.tracks[other] == lib.tracks[other])
  {
  }

  const NOTHING := Library({}, map[])

  lemma RunSnoc(lib: Library, es: seq<Event>, e: Event)
    ensures Run(lib, []) == lib && Run(lib, es + [e]) == Step(Run(lib, es), e)
  {
    assert (es + [e])[..|es|] == es;
  }

  /** A track filed under a scenario that was never created survives the scenario's delete. */
  lemma TrackOutlivesItsScenario()
    ensures Has(Run(NOTHING, [InsertTrack("s", "t"), DeleteScenario("s")]).tracks, "s", "t")
  {
    var insert, delete := InsertTrack("s", "t"), DeleteScenario("s");
    RunSnoc(NOTHING, [], insert);
    RunSnoc(NOTHING, [insert], delete);
    assert [] + [insert] == [insert] && [insert] + [delete] == [insert, delete];
    DeleteScenarioIff(Run(NOTHING, [insert]), "s");
  }

  lemma FirstTwoOrdinals(scenario: string, a: string, b: string)
    requires a != b
    ensures var tracks := WithTrack(WithTrack(map[], scenario, a), scenario, b);
      tracks == map[a := Track(scenario, 0), b := Track(scenario, 1)]
  {
    var one := WithTrack(map[], scenario, a);
    assert Ordinals(map[], scenario) == {};
    assert one == map[a := Track(scenario, 0)];
    assert Has(one, scenario, a);
    NewOrdinalIsGreatest(one, scenario, a);
    assert forall n | n in Ordinals(one, scenario) :: n == 0;
  }

  /** Reordering by a stale list, made when "a" was not there, gives two tracks the same ordinal. */
  lemma StaleReorderCollides()
    ensures var tracks := Run(NOTHING, [InsertTrack("s", "a"), InsertTrack("s", "b"), Reorder("s", ["b"])]).tracks;
      && Has(tracks, "s", "a") && Has(tracks, "s", "b") && tracks["a"].ordinal == tracks["b"].ordinal
      && !Distinct(tracks, "s")
  {
    var a, b, reorder := InsertTrack("s", "a"), InsertTrack("s", "b"), Reorder("s", ["b"]);
    RunSnoc(NOTHING, [], a);
    RunSnoc(NOTHING, [a], b);
    RunSnoc(NOTHING, [a, b], reorder);
    assert [] + [a] == [a] && [a] + [b] == [a, b] && [a, b] + [reorder] == [a, b, reorder];
    FirstTwoOrdinals("s", "a", "b");
    var tracks := Run(NOTHING, [a, b]).tracks;
    assert ["b"][..1] == ["b"];
    ReorderedTrack(tracks, "s", ["b"], 1, "a");
    ReorderedTrack(tracks, "s", ["b"], 1, "b");
  }

  // ------------------------------------------------------------- the statements

  method MaxOf(s: set<int>) returns (m: int)
    requires s != {}
    ensures IsLatest(s, m)
  {
    ghost var some := SomeElement(s);
    m :| m in s;
    var left := s - {m};
    while left != {}
      invariant left <= s && m in s && forall x | x in s :: x <= m || x in left
      decreases left
    {
      ghost var any := SomeElement(left);
      var x :| x in left;
      left := left - {x};
      if m < x {
        m := x;
      }
    }
  }

  class ScenarioStore {
    var scenarios: set<string>
    var tracks: Tracks

    ghost function Contents(): Library
      reads this
    {
      Library(scenarios, tracks)
    }

    constructor ()
      ensures Contents() == NOTHING
    {
      scenarios, tracks := {}, map[];
    }

    /** Appends a track: its ordinal is the scenario's maximum plus one. */
    method InsertScenarioTrack(scenario: string, id: string) returns (ordinal: int)
      requires id !in tracks
      modifies this`tracks
      ensures Contents() == Step(old(Contents()), InsertTrack(scenario, id))
      ensures ordinal == tracks[id].ordinal
    {
      var ordinals := Ordinals(tracks, scenario);
      if |ordinals| == 0 {
        ordinal := 0;
      } else {
        var greatest := MaxOf(ordinals);
        ordinal := greatest + 1;
      }
      tracks := tracks[id := Track(scenario, ordinal)];
    }

    method DeleteScenarioTrack(id: string) returns (found: bool)
      modifies this`tracks
      ensures found <==> id in old(tracks)
      ensures Contents() == Step(old(Contents()), DeleteTrack(id))
      ensures id !in tracks && forall other | other in old(tracks) && other != id ::
        other in tracks && tracks[other] == old(tracks)[other]
    {
      found := id in tracks;
      tracks := tracks - {id};
    }

    method ReorderScenarioTracks(scenario: string, ids: seq<string>)
      modifies this`tracks
      ensures Contents() == Step(old(Contents()), Reorder(scenario, ids))
    {
      for index := 0 to |ids|
        invariant tracks == Reordered(old(tracks), scenario, ids, index)
      {
        if Has(tracks, scenario, ids[index]) {
          tracks := tracks[ids[index] := tracks[ids[index]].(ordinal := index)];
        }
      }
    }

    method DeleteScenario(scenario: string) returns (found: bool)
      modifies this
      ensures found <==> scenario in old(scenarios)
      ensures Contents() == Step(old(Contents()), Event.DeleteScenario(scenario))
      ensures found ==> scenario !in scenarios && forall id :: !Has(tracks, scenario, id)
      ensures !found ==> scenarios == old(scenarios) && tracks == old(tracks)
    {
      var savedTracks, savedScenarios := tracks, scenarios;
      tracks := WithoutScenario(tracks, scenario);
      found := scenario in scenarios;
      scenarios := scenarios - {scenario};
      if !found {
        tracks, scenarios := savedTracks, savedScenarios;
      }
    }
  }
}
