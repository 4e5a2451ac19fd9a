// Recording retained weather snapshots: an in-memory last-hour filter in front of
// a table that dedupes on (source, model hour) itself.
module WeatherRecording {
  import opened Common
  import opened ImportJoin

  type Payload = seq<bv8>

  /** A decoded snapshot, by the model hour it is valid for; the grid stays in the payload. */
  datatype Snapshot = Snapshot(validTime: int)

  /** JSON decoding, as an input. */
  type Decoder = Payload -> Result<Snapshot, string>

  datatype WeatherAction = Store(snapshot: Snapshot) | Duplicate | Cleared | Rejected(reason: string)

  datatype Row = Row(sourceId: string, validTime: int, payload: Payload)

  function RowKey(): Row -> (string, int) {
    (r: Row) => (r.sourceId, r.validTime)
  }

  /** Decides what to do with a payload, given the hour last stored. */
  function NextWeather(decode: Decoder, last: Option<int>, payload: Payload): WeatherAction {
    if payload == [] then Cleared
    else
      match decode(payload)
      case Ok(snapshot) => if Some(snapshot.validTime) == last then Duplicate else Store(snapshot)
      case Err(reason) => Rejected(reason)
  }

  ghost predicate HasRow(table: seq<Row>, sourceId: string, hour: int) {
    exists i | 0 <= i < |table| :: table[i].sourceId == sourceId && table[i].validTime == hour
  }

  /** INSERT ... WHERE NOT EXISTS on (source, model hour). */
  ghost function Inserted(table: seq<Row>, row: Row): seq<Row> {
    if HasRow(table, row.sourceId, row.validTime) then table else table + [row]
  }

  /** What the store does with an insert: it is released, it errors, or it works. */
  datatype Storage = Unavailable | Fails | Works

  /** A delivery, an empty wake-up, a restart of the recorder, or an import by someone else. */
  datatype Event = Delivery(payload: Payload, storage: Storage) | Nothing | Restart | Merge(source: seq<Row>)

  datatype Recorder = Recorder(last: Option<int>, table: seq<Row>)

  ghost function Step(decode: Decoder, own: string, s: Recorder, e: Event): Recorder {
    match e
    case Delivery(payload, storage) =>
      var action := NextWeather(decode, s.last, payload);
      if action.Store? && storage.Works? then
        var hour := action.snapshot.validTime;
        Recorder(Some(hour), Inserted(s.table, Row(own, hour, payload)))
      else s
    case Nothing => s
    case Restart => s.(last := None)
    case Merge(source) => s.(table := Import(s.table, source, RowKey()).0)
  }

  ghost function Run(decode: Decoder, own: string, s: Recorder, es: seq<Event>): Recorder {
    if es == [] then s else Step(decode, own, Run(decode, own, s, es[..|es| - 1]), es[|es| - 1])
  }

  /** The same without the filter: every usable payload goes to the table. */
  ghost function RunUnfiltered(decode: Decoder, own: string, table: seq<Row>, es: seq<Event>): seq<Row> {
    if es == [] then table
    else Step(decode, own, Recorder(None, RunUnfiltered(decode, own, table, es[..|es| - 1])), es[|es| - 1]).table
  }

  /** A remembered hour is already in the table. */
  ghost predicate Remembers(s: Recorder, own: string) {
    s.last.Some? ==> HasRow(s.table, own, s.last.value)
  }

  lemma RowsStay(table: seq<Row>, more: seq<Row>, own: string, hour: int)
    requires HasRow(table, own, hour)
    ensures HasRow(table + more, own, hour)
  {
    var i :| 0 <= i < |table| && table[i].sourceId == own && table[i].validTime == hour;
    assert (table + more)[i] == table[i];
  }

  lemma StepRemembers(decode: Decoder, own: string, s: Recorder, e: Event)
    requires Remembers(s, own)
    ensures Remembers(Step(decode, own, s, e), own)
  {
    var r := Step(decode, own, s, e);
    match e
    case Delivery(payload, storage) =>
      var action := NextWeather(decode, s.last, payload);
      if action.Store? && storage.Works? && !HasRow(s.table, own, action.snapshot.validTime) {
        assert r.table[|s.table|] == Row(own, action.snapshot.validTime, payload);
      }
    case Merge(source) =>
      if s.last.Some? {
        RowsStay(s.table, Missing(s.table, source, RowKey()), own, s.last.value);
      }
    case _ =>
  }

  /**
   * The filter never changes what is stored, over any run of deliveries, repeated
   * deliveries, cleared or rejected payloads, failed inserts, imports and restarts.
   */
  lemma {:induction false} FilterIsInvisible(decode: Decoder, own: string, s: Recorder, es: seq<Event>)
    requires Remembers(s, own)
    ensures Remembers(Run(decode, own, s, es), own)
    ensures Run(decode, own, s, es).table == RunUnfiltered(decode, own, s.table, es)
  {
    if es != [] {
      var n := |es| - 1;
      FilterIsInvisible(decode, own, s, es[..n]);
      var before := Run(decode, own, s, es[..n]);
      StepRemembers(decode, own, before, es[n]);
    }
  }

  /** Only an empty payload clears, only one that does not decode is rejected, and neither changes anything. */
  lemma UnusablePayloads(decode: Decoder, own: string, s: Recorder, payload: Payload, storage: Storage, reason: string)
    ensures NextWeather(decode, s.last, payload) == Cleared <==> payload == []
    ensures NextWeather(decode, s.last, payload) == Rejected(reason)
       <==> payload != [] && decode(payload) == Err(reason)
    ensures payload == [] || decode(payload).Err? ==> Step(decode, own, s, Delivery(payload, storage)) == s
  {
  }

  /**
   * The filter does its work: once a payload is stored, another delivery of its hour
   * is a duplicate and does not reach the table, until another hour or a restart. A
   * failed insert is not remembered, and is tried again.
   */
  lemma RedeliveryIsFiltered(decode: Decoder, own: string, s: Recorder,
                             payload: Payload, again: Payload, storage: Storage)
    requires payload != [] && again != [] && decode(payload).Ok? && decode(again) == decode(payload)
    ensures var r := Step(decode, own, s, Delivery(payload, storage));
      && (storage == Works || s.last == Some(decode(payload).value.validTime) ==>
            NextWeather(decode, r.last, again) == Duplicate)
      && (storage != Works && s.last != Some(decode(payload).value.validTime) ==>
            r == s && NextWeather(decode, r.last, again) == Store(decode(again).value))
    ensures NextWeather(decode, Step(decode, own, s, Restart).last, again) == Store(decode(again).value)
  {
  }

  /** It would if it could remember an hour the table lacks: exactly that is ruled out. */
  lemma FilterMattersIffForgotten(decode: Decoder, own: string, s: Recorder, payload: Payload)
    ensures Step(decode, own, s, Delivery(payload, Works)).table
         == Step(decode, own, s.(last := None), Delivery(payload, Works)).table
       <==> !(payload != [] && decode(payload).Ok? && Some(decode(payload).value.validTime) == s.last
              && !HasRow(s.table, own, decode(payload).value.validTime))
  {
  }

  // ------------------------------------------------------- one row per hour

  /** Whatever an import brings that the table lacks, it brings once. */
  ghost predicate CleanMerges(decode: Decoder, own: string, s: Recorder, es: seq<Event>) {
    es == [] ||
    var n := |es| - 1;
    && CleanMerges(decode, own, s, es[..n])
    && (es[n].Merge? ==> UniqueKeys(Missing(Run(decode, own, s, es[..n]).table, es[n].source, RowKey()), RowKey()))
  }

  lemma InsertKeepsUnique(table: seq<Row>, row: Row)
    ensures UniqueKeys(Inserted(table, row), RowKey()) <==> UniqueKeys(table, RowKey())
  {
    assert Inserted(table, row)[..|table|] == table;
    if UniqueKeys(Inserted(table, row), RowKey()) {
      forall i, j | 0 <= i < j < |table| ensures RowKey()(table[i]) != RowKey()(table[j]) {
        assert Inserted(table, row)[i] == table[i] && Inserted(table, row)[j] == table[j];
      }
    }
  }

  /**
   * Over every run there is at most one row per source and model hour if and only if
   * there was at the start and every import was clean.
   */
  lemma {:induction false} OneRowPerHour(decode: Decoder, own: string, s: Recorder, es: seq<Event>)
    ensures UniqueKeys(Run(decode, own, s, es).table, RowKey())
       <==> UniqueKeys(s.table, RowKey()) && CleanMerges(decode, own, s, es)
  {
    hide UniqueKeys, Inserted;
    if es != [] {
      var n := |es| - 1;
      OneRowPerHour(decode, own, s, es[..n]);
      var before := Run(decode, own, s, es[..n]);
      match es[n]
      case Delivery(payload, storage) =>
        var action := NextWeather(decode, before.last, payload);
        if action.Store? {
          InsertKeepsUnique(before.table, Row(own, action.snapshot.validTime, payload));
        }
      case Merge(source) =>
        UniquenessAfterImport(before.table, source, RowKey());
      case _ =>
    }
  }

  /** Importing sources without repeated keys is clean. */
  lemma {:induction false} UniqueSourcesAreClean(decode: Decoder, own: string, s: Recorder, es: seq<Event>)
    requires forall i | 0 <= i < |es| && es[i].Merge? :: UniqueKeys(es[i].source, RowKey())
    ensures CleanMerges(decode, own, s, es)
  {
    hide UniqueKeys, Inserted;
    if es != [] {
      var n := |es| - 1;
      UniqueSourcesAreClean(decode, own, s, es[..n]);
      if es[n].Merge? {
        MissingKeepsUnique(Run(decode, own, s, es[..n]).table, es[n].source, RowKey());
      }
    }
  }

  // ------------------------------------------------------- first payload wins

  /** A (source, model hour) pair. */
  type Hour = (string, int)

  /** What an event has to offer for an hour: a usable payload in a working store, or imported rows. */
  function Offered(decode: Decoder, own: string, e: Event, k: Hour): seq<Row> {
    match e
    case Delivery(payload, Works) =>
      if payload != [] && k.0 == own && decode(payload) == Ok(Snapshot(k.1)) then [Row(own, k.1, payload)] else []
    case Merge(source) => RowsWith(source, RowKey(), k)
    case _ => []
  }

  /** The first offer of a run that is not empty. */
  function FirstOffer(decode: Decoder, own: string, es: seq<Event>, k: Hour): seq<Row> {
    if es == [] then []
    else
      var n := |es| - 1;
      var earlier := FirstOffer(decode, own, es[..n], k);
      if earlier != [] then earlier else Offered(decode, own, es[n], k)
  }

  lemma HasRowHasRows(table: seq<Row>, k: Hour)
    ensures HasRow(table, k.0, k.1) <==> RowsWith(table, RowKey(), k) != []
  {
    HasRowsWith(table, RowKey(), k);
    if k in Keys(table, RowKey()) {
      var i :| 0 <= i < |table| && RowKey()(table[i]) == k;
      assert table[i].sourceId == k.0;
    }
    if HasRow(table, k.0, k.1) {
      var i :| 0 <= i < |table| && table[i].sourceId == k.0 && table[i].validTime == k.1;
      assert RowKey()(table[i]) == k;
    }
  }

  lemma InsertedRowsFor(table: seq<Row>, row: Row, k: Hour)
    ensures RowsWith(Inserted(table, row), RowKey(), k)
         == if RowsWith(table, RowKey(), k) == [] && RowKey()(row) == k then [row] else RowsWith(table, RowKey(), k)
  {
    hide HasRow;
    HasRowHasRows(table, (row.sourceId, row.validTime));
    FilterSnoc((r: Row) => RowKey()(r) == k, table, row);
  }

  lemma OfferedOnce(decode: Decoder, own: string, s: Recorder, e: Event, k: Hour)
    requires Remembers(s, own)
    ensures RowsWith(Step(decode, own, s, e).table, RowKey(), k)
         == if RowsWith(s.table, RowKey(), k) != [] then RowsWith(s.table, RowKey(), k) else Offered(decode, own, e, k)
  {
    hide HasRow, Inserted, Filter;
    match e
    case Delivery(payload, storage) =>
      var action := NextWeather(decode, s.last, payload);
      if action.Store? {
        InsertedRowsFor(s.table, Row(own, action.snapshot.validTime, payload), k);
      }
      HasRowHasRows(s.table, k);
    case Merge(source) =>
      ImportedRowsWith(s.table, source, RowKey(), k);
    case _ =>
  }

  /**
   * What a table holds for a source and model hour never changes once there is
   * something, and is otherwise the first thing that came: the first usable payload
   * that reached a working store, or the first imported rows.
   */
  lemma {:induction false} FirstPayloadWins(decode: Decoder, own: string, s: Recorder, es: seq<Event>, k: Hour)
    requires Remembers(s, own)
    ensures RowsWith(Run(decode, own, s, es).table, RowKey(), k)
         == if RowsWith(s.table, RowKey(), k) != []
            then RowsWith(s.table, RowKey(), k) else FirstOffer(decode, own, es, k)
  {
    hide RowsWith, Remembers, HasRow, Inserted;
    if es != [] {
      var n := |es| - 1;
      FirstPayloadWins(decode, own, s, es[..n], k);
      FilterIsInvisible(decode, own, s, es[..n]);
      OfferedOnce(decode, own, Run(decode, own, s, es[..n]), es[n], k);
    }
  }

  // ---------------------------------------------------------------- the loop

  class WeatherStore {
    const sourceId: string
    var table: seq<Row>

    constructor (sourceId: string)
      ensures this.sourceId == sourceId && table == []
    {
      this.sourceId := sourceId;
      table := [];
    }

    /** Stores the record under this store's own identity, unless the hour is there. */
    method InsertWeatherSnapshot(validTime: int, payload: Payload) returns (stored: bool)
      modifies this`table
      ensures table == Inserted(old(table), Row(sourceId, validTime, payload))
      ensures stored <==> !HasRow(old(table), sourceId, validTime)
    {
      var i := 0;
      while i < |table|
        invariant i <= |table|
        invariant forall j | 0 <= j < i :: !(table[j].sourceId == sourceId && table[j].validTime == validTime)
      {
        if table[i].sourceId == sourceId && table[i].validTime == validTime {
          return false;
        }
        i := i + 1;
      }
      table := table + [Row(sourceId, validTime, payload)];
      return true;
    }

    /** The recording task, from its start until the channel closes. */
    method PersistWeather(decode: Decoder, events: seq<Event>)
      requires forall i | 0 <= i < |events| :: events[i].Delivery? || events[i].Nothing?
      modifies this`table
      ensures table == Run(decode, sourceId, Recorder(None, old(table)), events).table
    {
      var lastValidTime: Option<int> := None;
      ghost var start := Recorder(None, table);
      assert events[..0] == [];
      for i := 0 to |events|
        invariant Run(decode, sourceId, start, events[..i]) == Recorder(lastValidTime, table)
      {
        assert events[..i + 1][..i] == events[..i];
        if events[i].Delivery? {
          match NextWeather(decode, lastValidTime, events[i].payload) {
            case Store(snapshot) =>
              if events[i].storage.Works? {
                var stored := InsertWeatherSnapshot(snapshot.validTime, events[i].payload);
                lastValidTime := Some(snapshot.validTime);
              }
            case _ =>
          }
        }
      }
      assert events[..|events|] == events;
    }
  }
}
