// Import by anti-join: rows of another database whose key this one lacks.
module ImportJoin {
  import opened Common

  /** The keys of a table. */
  function Keys<Row, Key(==)>(table: seq<Row>, key: Row -> Key): set<Key> {
    set i | 0 <= i < |table| :: key(table[i])
  }

  lemma KeyOf<Row, Key>(table: seq<Row>, key: Row -> Key, i: nat)
    requires i < |table|
    ensures key(table[i]) in Keys(table, key)
  {
  }

  /** The source rows that are imported. Duplicates inside the source are all selected. */
  function Missing<Row, Key(==)>(table: seq<Row>, source: seq<Row>, key: Row -> Key): seq<Row> {
    var keys := Keys(table, key);
    Filter((r: Row) => key(r) !in keys, source)
  }

  /** INSERT INTO table SELECT ... WHERE NOT EXISTS, with the number of rows it reports. */
  function Import<Row, Key(==)>(table: seq<Row>, source: seq<Row>, key: Row -> Key): (seq<Row>, nat) {
    var added := Missing(table, source, key);
    (table + added, |added|)
  }

  ghost predicate UniqueKeys<Row, Key>(table: seq<Row>, key: Row -> Key) {
    forall i, j | 0 <= i < j < |table| :: key(table[i]) != key(table[j])
  }

  lemma KeysOfAppend<Row, Key>(a: seq<Row>, b: seq<Row>, key: Row -> Key)
    ensures Keys(a + b, key) == Keys(a, key) + Keys(b, key)
  {
    var c := a + b;
    forall k ensures k in Keys(c, key) <==> k in Keys(a, key) || k in Keys(b, key) {
      if k in Keys(a, key) {
        var i :| 0 <= i < |a| && key(a[i]) == k;
        assert key(c[i]) == k;
      }
      if k in Keys(b, key) {
        var i :| 0 <= i < |b| && key(b[i]) == k;
        assert key(c[|a| + i]) == k;
      }
    }
    SameElements(Keys(c, key), Keys(a, key) + Keys(b, key));
  }

  lemma MissingRows<Row, Key>(table: seq<Row>, source: seq<Row>, key: Row -> Key)
    ensures forall r :: r in Missing(table, source, key) <==> r in source && key(r) !in Keys(table, key)
    ensures Keys(Missing(table, source, key), key) == Keys(source, key) - Keys(table, key)
  {
    var keys := Keys(table, key);
    var added := Missing(table, source, key);
    FilterElements((r: Row) => key(r) !in keys, source);
    forall k ensures k in Keys(added, key) <==> k in Keys(source, key) && k !in keys {
      if k in Keys(added, key) {
        var i :| 0 <= i < |added| && key(added[i]) == k;
        assert added[i] in added;
        var j :| 0 <= j < |source| && source[j] == added[i];
      }
      if k in Keys(source, key) && k !in keys {
        var j :| 0 <= j < |source| && key(source[j]) == k;
        assert source[j] in source && source[j] in added;
      }
    }
    SameElements(Keys(added, key), Keys(source, key) - keys);
  }

  lemma MissingSnoc<Row, Key>(table: seq<Row>, source: seq<Row>, r: Row, key: Row -> Key)
    ensures Missing(table, source + [r], key)
         == Missing(table, source, key) + if key(r) in Keys(table, key) then [] else [r]
  {
    var keys := Keys(table, key);
    FilterSnoc((r: Row) => key(r) !in keys, source, r);
  }

  /** A table's rows with one key. */
  function RowsWith<Row, Key(==)>(table: seq<Row>, key: Row -> Key, k: Key): seq<Row> {
    Filter((r: Row) => key(r) == k, table)
  }

  lemma HasRowsWith<Row, Key>(table: seq<Row>, key: Row -> Key, k: Key)
    ensures RowsWith(table, key, k) != [] <==> k in Keys(table, key)
  {
    var with := (r: Row) => key(r) == k;
    if Filter(with, table) != [] {
      var i := FilterMember(with, table, 0);
      KeyOf(table, key, i);
    }
    if k in Keys(table, key) {
      var i :| 0 <= i < |table| && key(table[i]) == k;
      FilterElements(with, table);
      assert table[i] in table;
    }
  }

  lemma {:induction false} MissingRowsWith<Row, Key>(table: seq<Row>, source: seq<Row>, key: Row -> Key, k: Key)
    ensures RowsWith(Missing(table, source, key), key, k)
         == if k in Keys(table, key) then [] else RowsWith(source, key, k)
  {
    if source != [] {
      var n := |source| - 1;
      var r := source[n];
      MissingRowsWith(table, source[..n], key, k);
      assert source == source[..n] + [r];
      MissingSnoc(table, source[..n], r, key);
      FilterSnoc((r: Row) => key(r) == k, Missing(table, source[..n], key), r);
      assert Missing(table, source[..n], key) + [] == Missing(table, source[..n], key);
    }
  }

  /** Key by key, an import leaves the rows a table has, and otherwise takes all the source's. */
  lemma ImportedRowsWith<Row, Key>(table: seq<Row>, source: seq<Row>, key: Row -> Key, k: Key)
    ensures RowsWith(Import(table, source, key).0, key, k)
         == if RowsWith(table, key, k) != [] then RowsWith(table, key, k) else RowsWith(source, key, k)
  {
    FilterAppend((r: Row) => key(r) == k, table, Missing(table, source, key));
    MissingRowsWith(table, source, key, k);
    HasRowsWith(table, key, k);
  }

  function CountMissing<Row, Key(==)>(keys: set<Key>, source: seq<Row>, key: Row -> Key): nat {
    if source == [] then 0
    else CountMissing(keys, source[..|source| - 1], key) + if key(source[|source| - 1]) in keys then 0 else 1
  }

  lemma {:induction false} CountIsFilterLength<Row, Key>(keys: set<Key>, source: seq<Row>, key: Row -> Key)
    ensures |Filter((r: Row) => key(r) !in keys, source)| == CountMissing(keys, source, key)
  {
    if source != [] {
      CountIsFilterLength(keys, source[..|source| - 1], key);
    }
  }

  lemma NothingMissing<Row, Key>(table: seq<Row>, source: seq<Row>, key: Row -> Key)
    requires Keys(source, key) <= Keys(table, key)
    ensures Import(table, source, key) == (table, 0)
  {
    var added := Missing(table, source, key);
    if added != [] {
      var i := FilterMember((r: Row) => key(r) !in Keys(table, key), source, 0);
      KeyOf(source, key, i);
    }
    assert table + [] == table;
  }

  /**
   * An import leaves existing rows where they are, brings the keys to the union,
   * reports exactly the rows whose key was missing, and is idempotent.
   */
  lemma ImportIsUnion<Row, Key>(table: seq<Row>, source: seq<Row>, key: Row -> Key)
    ensures var (r, n) := Import(table, source, key);
      && table <= r
      && Keys(r, key) == Keys(table, key) + Keys(source, key)
      && n == |r| - |table| == CountMissing(Keys(table, key), source, key)
      && Import(r, source, key) == (r, 0)
  {
    var (r, n) := Import(table, source, key);
    MissingRows(table, source, key);
    KeysOfAppend(table, Missing(table, source, key), key);
    CountIsFilterLength(Keys(table, key), source, key);
    NothingMissing(r, source, key);
  }

  /** Importing one's own export adds nothing, even after more rows have come in. */
  lemma OwnExportAddsNothing<Row, Key>(exported: seq<Row>, since: seq<Row>, key: Row -> Key)
    ensures Import(exported + since, exported, key) == (exported + since, 0)
  {
    KeysOfAppend(exported, since, key);
    NothingMissing(exported + since, exported, key);
  }

  /** An import adds a row as often as the source has it if its key was missing, and not at all otherwise. */
  lemma ImportedCount<Row, Key>(table: seq<Row>, source: seq<Row>, key: Row -> Key, r: Row)
    ensures multiset(Import(table, source, key).0)[r]
         == multiset(table)[r] + if key(r) in Keys(table, key) then 0 else multiset(source)[r]
  {
    var keys := Keys(table, key);
    FilterCount((s: Row) => key(s) !in keys, source, r);
  }

  lemma {:induction false} FilterKeepsUnique<Row, Key>(keep: Row -> bool, source: seq<Row>, key: Row -> Key)
    requires UniqueKeys(source, key)
    ensures UniqueKeys(Filter(keep, source), key)
  {
    if source != [] {
      var n := |source| - 1;
      FilterKeepsUnique(keep, source[..n], key);
      var rest := Filter(keep, source[..n]);
      forall i | 0 <= i < |rest| ensures key(rest[i]) != key(source[n]) {
        var j := FilterMember(keep, source[..n], i);
        assert source[j] == rest[i];
      }
    }
  }

  lemma MissingKeepsUnique<Row, Key>(table: seq<Row>, source: seq<Row>, key: Row -> Key)
    requires UniqueKeys(source, key)
    ensures UniqueKeys(Missing(table, source, key), key)
  {
    var keys := Keys(table, key);
    FilterKeepsUnique((r: Row) => key(r) !in keys, source, key);
  }

  /**
   * Keys stay unique exactly when they were unique and the imported rows do not
   * repeat a key among themselves: the anti-join does not look at rows it adds.
   */
  lemma UniquenessAfterImport<Row, Key>(table: seq<Row>, source: seq<Row>, key: Row -> Key)
    ensures UniqueKeys(Import(table, source, key).0, key)
       <==> UniqueKeys(table, key) && UniqueKeys(Missing(table, source, key), key)
    ensures UniqueKeys(table, key) && UniqueKeys(source, key) ==> UniqueKeys(Import(table, source, key).0, key)
  {
    var added := Missing(table, source, key);
    var r := Import(table, source, key).0;
    MissingRows(table, source, key);
    assert forall i | 0 <= i < |table| :: r[i] == table[i];
    assert forall i | 0 <= i < |added| :: r[|table| + i] == added[i];
    if UniqueKeys(table, key) && UniqueKeys(added, key) {
      forall i, j | 0 <= i < j < |r| ensures key(r[i]) != key(r[j]) {
        if i < |table| <= j {
          assert added[j - |table|] in added;
          assert key(r[i]) in Keys(table, key);
        }
      }
    }
    if UniqueKeys(r, key) {
      forall i, j | 0 <= i < j < |added| ensures key(added[i]) != key(added[j]) {
        assert key(r[|table| + i]) != key(r[|table| + j]);
      }
    }
    if UniqueKeys(source, key) {
      MissingKeepsUnique(table, source, key);
    }
  }

  /** An empty table takes every row of the source, in order. */
  lemma {:induction false} ImportIntoEmpty<Row, Key>(source: seq<Row>, key: Row -> Key)
    ensures Import([], source, key) == (source, |source|)
  {
    assert [] + Missing([], source, key) == Missing([], source, key);
    if source != [] {
      var n := |source| - 1;
      ImportIntoEmpty(source[..n], key);
      assert source == source[..n] + [source[n]];
      MissingSnoc([], source[..n], source[n], key);
      assert [] + Missing([], source[..n], key) == Missing([], source[..n], key);
    }
  }

  /** A source that has one key twice imports it twice, even into an empty table. */
  lemma RepeatedKeyImportsTwice<Row, Key>(a: Row, b: Row, key: Row -> Key)
    requires key(a) == key(b)
    ensures Import([], [a, b], key) == ([a, b], 2)
    ensures !UniqueKeys(Import([], [a, b], key).0, key)
  {
    ImportIntoEmpty([a, b], key);
    assert key([a, b][0]) == key([a, b][1]);
  }
}
