// Import of another database file, and export of this one, table by table.
module DatabaseImport {
  import opened Common
  import opened FlightIndex
  import opened WeatherRecording
  import opened ImportJoin

  datatype RawMessage = RawMessage(hex: string, ts: int, text: string)

  datatype Database = Database(positions: seq<Position>, rawMessages: seq<RawMessage>, weather: seq<Row>)

  /** An attached file; a table it does not have imports as nothing. */
  datatype File = File(
    positions: Option<seq<Position>>,
    rawMessages: Option<seq<RawMessage>>,
    weather: Option<seq<Row>>)

  datatype ImportResult = ImportResult(positions: nat, rawMessages: nat, weather: nat)

  function PositionKey(): Position -> (string, int) {
    (p: Position) => (p.hex, p.ts)
  }

  function RawKey(): RawMessage -> (string, int, string) {
    (m: RawMessage) => (m.hex, m.ts, m.text)
  }

  /** A position is the one already there if address and timestamp are equal. */
  lemma ImportedPosition(table: seq<Position>, source: seq<Position>, p: Position)
    ensures multiset(Import(table, source, PositionKey()).0)[p] == multiset(table)[p] +
      if exists q | q in table :: q.hex == p.hex && q.ts == p.ts then 0 else multiset(source)[p]
  {
    ImportedCount(table, source, PositionKey(), p);
    if PositionKey()(p) in Keys(table, PositionKey()) {
      var i :| 0 <= i < |table| && PositionKey()(table[i]) == PositionKey()(p);
      assert table[i] in table;
    }
  }

  /** A raw message is the one already there if address, timestamp and text are equal. */
  lemma ImportedRawMessage(table: seq<RawMessage>, source: seq<RawMessage>, m: RawMessage)
    ensures multiset(Import(table, source, RawKey()).0)[m] == multiset(table)[m] +
      if exists q | q in table :: q.hex == m.hex && q.ts == m.ts && q.text == m.text then 0 else multiset(source)[m]
  {
    ImportedCount(table, source, RawKey(), m);
    if RawKey()(m) in Keys(table, RawKey()) {
      var i :| 0 <= i < |table| && RawKey()(table[i]) == RawKey()(m);
      assert table[i] in table;
    }
  }

  /** A weather row is the one already there if source and model hour are equal. */
  lemma ImportedWeather(table: seq<Row>, source: seq<Row>, r: Row)
    ensures multiset(Import(table, source, RowKey()).0)[r] == multiset(table)[r] +
      if exists q | q in table :: q.sourceId == r.sourceId && q.validTime == r.validTime then 0 else multiset(source)[r]
  {
    ImportedCount(table, source, RowKey(), r);
    if RowKey()(r) in Keys(table, RowKey()) {
      var i :| 0 <= i < |table| && RowKey()(table[i]) == RowKey()(r);
      assert table[i] in table;
    }
  }

  function ImportTable<R, K(==)>(table: seq<R>, source: Option<seq<R>>, key: R -> K): (seq<R>, nat) {
    if source.Some? then Import(table, source.value, key) else (table, 0)
  }

  function ImportDatabase(db: Database, file: File): (Database, ImportResult) {
    var (positions, p) := ImportTable(db.positions, file.positions, PositionKey());
    var (rawMessages, r) := ImportTable(db.rawMessages, file.rawMessages, RawKey());
    var (weather, w) := ImportTable(db.weather, file.weather, RowKey());
    (Database(positions, rawMessages, weather), ImportResult(p, r, w))
  }

  /**
   * What an import adds to each table, column by column: nothing for a row whose key
   * columns are there already, and every copy of any other.
   */
  lemma ImportBringsMissingRows(db: Database, file: File, p: Position, m: RawMessage, w: Row)
    ensures var r := ImportDatabase(db, file).0;
      && multiset(r.positions)[p] == multiset(db.positions)[p] +
           (if file.positions.None? || exists q | q in db.positions :: q.hex == p.hex && q.ts == p.ts
            then 0 else multiset(file.positions.value)[p])
      && multiset(r.rawMessages)[m] == multiset(db.rawMessages)[m] +
           (if file.rawMessages.None?
               || exists q | q in db.rawMessages :: q.hex == m.hex && q.ts == m.ts && q.text == m.text
            then 0 else multiset(file.rawMessages.value)[m])
      && multiset(r.weather)[w] == multiset(db.weather)[w] +
           (if file.weather.None?
               || exists q | q in db.weather :: q.sourceId == w.sourceId && q.validTime == w.validTime
            then 0 else multiset(file.weather.value)[w])
  {
    hide Import, PositionKey, RawKey, RowKey;
    if file.positions.Some? { ImportedPosition(db.positions, file.positions.value, p); }
    if file.rawMessages.Some? { ImportedRawMessage(db.rawMessages, file.rawMessages.value, m); }
    if file.weather.Some? { ImportedWeather(db.weather, file.weather.value, w); }
  }

  function Export(db: Database): File {
    File(Some(db.positions), Some(db.rawMessages), Some(db.weather))
  }

  /** `later` is `db` with rows added at the end of its tables. */
  ghost predicate Grew(db: Database, later: Database) {
    db.positions <= later.positions && db.rawMessages <= later.rawMessages && db.weather <= later.weather
  }

  /** An import adds at the end of each table, and doing it again adds nothing. */
  lemma ImportIsIdempotent(db: Database, file: File)
    ensures var (r, n) := ImportDatabase(db, file);
      && Grew(db, r)
      && n == ImportResult(|r.positions| - |db.positions|, |r.rawMessages| - |db.rawMessages|,
                           |r.weather| - |db.weather|)
      && ImportDatabase(r, file) == (r, ImportResult(0, 0, 0))
  {
    if file.positions.Some? { ImportIsUnion(db.positions, file.positions.value, PositionKey()); }
    if file.rawMessages.Some? { ImportIsUnion(db.rawMessages, file.rawMessages.value, RawKey()); }
    if file.weather.Some? { ImportIsUnion(db.weather, file.weather.value, RowKey()); }
  }

  /** One's own export adds nothing, even to a database that has grown since. */
  lemma ExportImportsAsNothing(db: Database, later: Database)
    requires Grew(db, later)
    ensures ImportDatabase(later, Export(db)) == (later, ImportResult(0, 0, 0))
  {
    var p, r, w := |db.positions|, |db.rawMessages|, |db.weather|;
    assert later.positions == db.positions + later.positions[p..];
    assert later.rawMessages == db.rawMessages + later.rawMessages[r..];
    assert later.weather == db.weather + later.weather[w..];
    OwnExportAddsNothing(db.positions, later.positions[p..], PositionKey());
    OwnExportAddsNothing(db.rawMessages, later.rawMessages[r..], RawKey());
    OwnExportAddsNothing(db.weather, later.weather[w..], RowKey());
  }

  /** Importing an export into an empty database restores it, row by row and in order. */
  lemma ExportRestores(db: Database)
    ensures ImportDatabase(Database([], [], []), Export(db))
         == (db, ImportResult(|db.positions|, |db.rawMessages|, |db.weather|))
  {
    hide Import;
    ImportIntoEmpty(db.positions, PositionKey());
    ImportIntoEmpty(db.rawMessages, RawKey());
    ImportIntoEmpty(db.weather, RowKey());
  }

  /** Weather keeps one row per source and model hour, exactly when the missing rows do. */
  lemma ImportKeepsWeatherUnique(db: Database, file: File)
    requires UniqueKeys(db.weather, RowKey())
    ensures UniqueKeys(ImportDatabase(db, file).0.weather, RowKey())
       <==> (file.weather.Some? ==> UniqueKeys(Missing(db.weather, file.weather.value, RowKey()), RowKey()))
  {
    if file.weather.Some? {
      UniquenessAfterImport(db.weather, file.weather.value, RowKey());
    }
  }
}
