// Flight identifiers: the aircraft address, an underscore, and the flight
// number in decimal. The identifier is the primary key of the flights table.
module FlightIds {

  /** Decimal notation of a natural number, as `format!("{}", n)` prints it. */
  function Decimal(n: nat): (s: string)
    ensures |s| >= 1
    ensures forall i | 0 <= i < |s| :: '0' <= s[i] <= '9'
  {
    var digit := ("0123456789")[n % 10];
    if n < 10 then [digit] else Decimal(n / 10) + [digit]
  }

  function Value(s: string): int {
    if s == "" then 0
    else 10 * Value(s[..|s| - 1]) + (s[|s| - 1] as int - '0' as int)
  }

  lemma {:induction false} ValueOfDecimal(n: nat)
    ensures Value(Decimal(n)) == n
  {
    var digit := ("0123456789")[n % 10];
    assert digit as int - '0' as int == n % 10;
    if n >= 10 {
      ValueOfDecimal(n / 10);
      assert Decimal(n)[..|Decimal(n)| - 1] == Decimal(n / 10);
    } else {
      assert Decimal(n)[..0] == "";
    }
  }

  /** Length of the part of `id` before its last underscore. */
  function Cut(id: string): (n: nat)
    ensures n <= |id|
  {
    if id == "" || id[|id| - 1] == '_' then if id == "" then 0 else |id| - 1
    else Cut(id[..|id| - 1])
  }

  lemma {:induction false} CutAtLastUnderscore(hex: string, digits: string)
    requires forall i | 0 <= i < |digits| :: '0' <= digits[i] <= '9'
    ensures Cut(hex + "_" + digits) == |hex|
  {
    var id := hex + "_" + digits;
    if digits != "" {
      var n := |digits| - 1;
      assert id[..|id| - 1] == hex + "_" + digits[..n];
      CutAtLastUnderscore(hex, digits[..n]);
    }
  }

  function HexOf(id: string): string {
    id[..Cut(id)]
  }

  function NumOf(id: string): int {
    if Cut(id) < |id| then Value(id[Cut(id) + 1..]) else -1
  }

  /** An aircraft's flight, by address and number. */
  datatype FlightKey = FlightKey(hex: string, num: nat) {

    /** The `flight_id` text of this flight. */
    function Text(): string {
      hex + "_" + Decimal(num)
    }
  }

  /** Both parts can be read back from the text, even when the address contains underscores. */
  lemma TextReadsBack(key: FlightKey)
    ensures HexOf(key.Text()) == key.hex && NumOf(key.Text()) == key.num
  {
    var digits := Decimal(key.num);
    CutAtLastUnderscore(key.hex, digits);
    ValueOfDecimal(key.num);
    assert key.Text()[..|key.hex|] == key.hex && key.Text()[|key.hex| + 1..] == digits;
  }

  /** The format itself, on an address that contains an underscore. */
  lemma TextExample()
    ensures FlightKey("a_1b", 120).Text() == "a_1b_120"
  {
    assert Decimal(1) == "1" && Decimal(12) == "12" && Decimal(120) == "120";
  }

  /** Two different flights never share an identifier. */
  lemma TextIsInjective(a: FlightKey, b: FlightKey)
    ensures a.Text() == b.Text() <==> a == b
  {
    TextReadsBack(a);
    TextReadsBack(b);
  }

  /** A table on flights, as it is stored: under the identifier texts. */
  ghost function Stored<Row>(table: map<FlightKey, Row>): map<string, Row> {
    forall a: FlightKey, b: FlightKey ensures a.Text() == b.Text() ==> a == b { TextIsInjective(a, b); }
    map key | key in table :: key.Text() := table[key]
  }

  /**
   * Looking up, inserting and updating by `flight_id` is looking up, inserting
   * and updating by address and number.
   */
  lemma StoredByTextIsByKey<Row>(table: map<FlightKey, Row>, key: FlightKey, row: Row)
    ensures key.Text() in Stored(table) <==> key in table
    ensures key in table ==> Stored(table)[key.Text()] == table[key]
    ensures Stored(table[key := row]) == Stored(table)[key.Text() := row]
  {
    forall other: FlightKey ensures other.Text() == key.Text() <==> other == key { TextIsInjective(other, key); }
    var left, right := Stored(table[key := row]), Stored(table)[key.Text() := row];
    assert left.Keys == right.Keys;
  }
}
