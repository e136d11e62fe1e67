/**
 * Queries from the query unit tests, proved on the model: three objects of
 * `StandardColumnTestClass` are stored in `Standard1`, each with a string
 * column and an integer column, and the store's range scan returns the
 * requested column of every row, in key order.
 */
module QueryScenarios {
  import opened Errors
  import opened JavaLang
  import opened OperationUtils
  import opened ResultSets
  import opened Queries
  import opened Sorting

  const TestClass := "org.nate.cassandra.StandardColumnTestClass"

  /** The test class: annotated `@ColumnFamily(name="Standard1")`. */
  const Descriptor := ClassDescriptor(TestClass, "StandardColumnTestClass", Some("Standard1"), [
    FieldDescriptor("key", None, true, "String"),
    FieldDescriptor("aStringColumn", None, false, "String"),
    FieldDescriptor("anIntegerColumn", None, false, "Integer")])

  function Object(key: string, text: string, n: int): Record
  {
    Record(TestClass, map["key" := Str(key), "aStringColumn" := Str(text), "anIntegerColumn" := Int(n)])
  }

  const First := Object("firstKey", "AAAAA", 10)
  const Second := Object("secondKey", "BBBBB", 20)
  const Third := Object("thirdKey", "CCCCC", 30)

  /** A stored row: the key, then one column per non-key field. */
  function Row(key: string, text: string, number: string): KeySlice
  {
    KeySlice(key, [Column(Encode("aStringColumn"), Encode(text), 0), Column(Encode("anIntegerColumn"), Encode(number), 0)])
  }

  const Stored := [Row("firstKey", "AAAAA", "10"), Row("secondKey", "BBBBB", "20"), Row("thirdKey", "CCCCC", "30")]

  /** The columns whose names a slice predicate lists. */
  function Restrict(cols: seq<Column>, names: seq<seq<byte>>): seq<Column>
  {
    if cols == [] then []
    else (if cols[0].name in names then [cols[0]] else []) + Restrict(cols[1..], names)
  }

  /** The store's range scan over `Standard1`: every row, with the requested columns. */
  function Scan(columnFamily: string, slice: SlicePredicate): Result<seq<KeySlice>>
  {
    if columnFamily == "Standard1" && slice.ColumnNames? then
      Ok(seq(|Stored|, i requires 0 <= i < |Stored| => KeySlice(Stored[i].key, Restrict(Stored[i].columns, slice.names))))
    else Ok([])
  }

  /** The load of an object by key. */
  function Get(key: string): Result<Record>
  {
    if key == "firstKey" then Ok(First)
    else if key == "secondKey" then Ok(Second)
    else if key == "thirdKey" then Ok(Third)
    else Fail(Remote("no such key"))
  }

  /** The three integer texts decode and parse to their numbers. */
  lemma Numbers()
    ensures Decode(Encode("10")) == "10" && Decode(Encode("20")) == "20" && Decode(Encode("30")) == "30"
    ensures StoredNumber("10") == Ok(Some(10)) && StoredNumber("20") == Ok(Some(20)) && StoredNumber("30") == Ok(Some(30))
    ensures ParseInt("10") == Some(10)
  {
    DecodeEncode("10");
    DecodeEncode("20");
    DecodeEncode("30");
    TwoDigits('1', '0');
    TwoDigits('2', '0');
    TwoDigits('3', '0');
  }

  lemma TwoDigits(a: char, b: char)
    requires IsDigit(a) && IsDigit(b)
    ensures IsNumeric([a, b]) && DigitsValue([a, b]) == 10 * DigitValue(a) + DigitValue(b)
  {
    assert [a, b][..1] == [a] && [a][..0] == [];
    assert DigitsValue([a]) == DigitValue(a);
  }

  /** Asking for `anIntegerColumn` leaves a row only that column. */
  lemma RestrictRow(key: string, text: string, number: string)
    ensures Restrict(Row(key, text, number).columns, [Encode("anIntegerColumn")]) ==
      [Column(Encode("anIntegerColumn"), Encode(number), 0)]
  {
    var names := [Encode("anIntegerColumn")];
    var cols := Row(key, text, number).columns;
    assert |Encode("aStringColumn")| != |Encode("anIntegerColumn")|;
    assert cols[0].name !in names && cols[1].name in names;
    assert cols[1..] == [cols[1]] && cols[1..][1..] == [];
    assert Restrict(cols[1..][1..], names) == [];
    assert Restrict(cols[1..], names) == [cols[1]];
    assert Restrict(cols, names) == [] + [cols[1]];
  }

  /** The integer column's slice of a row of `Stored`. */
  function IntegerSlice(key: string, number: string): KeySlice
  {
    KeySlice(key, [Column(Encode("anIntegerColumn"), Encode(number), 0)])
  }

  /** The scan for `anIntegerColumn` returns each row with only that column. */
  lemma ScanIntegers(clause: Clause)
    requires clause.column == "anIntegerColumn"
    ensures Scan("Standard1", ScanPredicate(clause)) ==
      Ok([IntegerSlice("firstKey", "10"), IntegerSlice("secondKey", "20"), IntegerSlice("thirdKey", "30")])
  {
    assert ScanPredicate(clause) == ColumnNames([Encode("anIntegerColumn")]);
    RestrictRow("firstKey", "AAAAA", "10");
    RestrictRow("secondKey", "BBBBB", "20");
    RestrictRow("thirdKey", "CCCCC", "30");
    var scanned := Scan("Standard1", ScanPredicate(clause)).value;
    assert |scanned| == 3;
    assert scanned[0] == IntegerSlice("firstKey", "10");
    assert scanned[1] == IntegerSlice("secondKey", "20");
    assert scanned[2] == IntegerSlice("thirdKey", "30");
    assert scanned == [IntegerSlice("firstKey", "10"), IntegerSlice("secondKey", "20"), IntegerSlice("thirdKey", "30")];
  }

  /** `anIntegerColumn > 10` holds of 20 and 30, not of 10. */
  lemma GreaterThanTen(clause: Clause)
    requires clause == Clause("anIntegerColumn", GreaterThan, "10")
    ensures AnyColumnSatisfies(IntegerSlice("firstKey", "10").columns, clause) == Ok(false)
    ensures AnyColumnSatisfies(IntegerSlice("secondKey", "20").columns, clause) == Ok(true)
    ensures AnyColumnSatisfies(IntegerSlice("thirdKey", "30").columns, clause) == Ok(true)
  {
    Numbers();
    assert ColumnSatisfies(Encode("10"), clause) == Ok(false);
    assert ColumnSatisfies(Encode("20"), clause) == Ok(true);
    assert ColumnSatisfies(Encode("30"), clause) == Ok(true);
  }

  /** The clause `anIntegerColumn > 10` contributes the second and third objects. */
  lemma GreaterThanTenResults(clause: Clause)
    requires clause == Clause("anIntegerColumn", GreaterThan, "10")
    ensures ClauseResults("Standard1", clause, Scan, Get) == Ok([Second, Third])
  {
    ScanIntegers(clause);
    GreaterThanTen(clause);
    var slices := [IntegerSlice("firstKey", "10"), IntegerSlice("secondKey", "20"), IntegerSlice("thirdKey", "30")];
    FilterDropsFirst(slices[0], slices[1], slices[2], clause);
    LoadTwo(slices[1], slices[2], Get);
  }

  lemma FilterDropsFirst(a: KeySlice, b: KeySlice, c: KeySlice, clause: Clause)
    requires AnyColumnSatisfies(a.columns, clause) == Ok(false)
    requires AnyColumnSatisfies(b.columns, clause) == Ok(true) && AnyColumnSatisfies(c.columns, clause) == Ok(true)
    ensures FilterSlices([a, b, c], clause) == Ok([b, c])
  {
    assert [c] + [] == [c] && [b] + [c] == [b, c] && [a] + [b, c] == [a, b, c];
    assert [] + [b, c] == [b, c];
    FilterCons(c, [], clause);
    assert FilterSlices([c], clause) == Ok([c]);
    FilterCons(b, [c], clause);
    assert FilterSlices([b, c], clause) == Ok([b, c]);
    FilterCons(a, [b, c], clause);
  }

  lemma LoadTwo(a: KeySlice, b: KeySlice, get: string -> Result<Record>)
    requires get(a.key).Ok? && get(b.key).Ok?
    ensures LoadAll([a, b], get) == Ok([get(a.key).value, get(b.key).value])
  {
    assert [b] + [] == [b] && [a] + [b] == [a, b];
    LoadCons(b, [], get);
    assert [get(b.key).value] + [] == [get(b.key).value];
    assert LoadAll([b], get) == Ok([get(b.key).value]);
    LoadCons(a, [b], get);
    assert [get(a.key).value] + [get(b.key).value] == [get(a.key).value, get(b.key).value];
  }

  lemma LoadCons(x: KeySlice, rest: seq<KeySlice>, get: string -> Result<Record>)
    requires get(x.key).Ok? && LoadAll(rest, get).Ok?
    ensures LoadAll([x] + rest, get) == Ok([get(x.key).value] + LoadAll(rest, get).value)
  {
    assert ([x] + rest)[0] == x && ([x] + rest)[1..] == rest;
  }

  /** Ascending by `anIntegerColumn`, 20 stays before 30. */
  lemma AscendingTwentyThirty()
    ensures SortedBy([Second, Third], "anIntegerColumn", true) == Ok([Second, Third])
  {
    var cmp := Sorter(true, TestClass, "anIntegerColumn");
    assert FieldOf(TestClass, "anIntegerColumn", Second) == Some(Int(20));
    assert FieldOf(TestClass, "anIntegerColumn", Third) == Some(Int(30));
    assert CompareAscending(Int(20), Int(30)) == Ok(-10);
    assert cmp(Second, Third) == Ok(-10);
    SortPairKeeps(Second, Third, cmp);
  }

  /**
   * `testB_queryGreaterThan`: `anIntegerColumn > 10` keeps the second and
   * third objects, in scan order, and sorting them ascending by that column
   * keeps that order.
   */
  method GreaterThanAscending() returns (results: seq<Record>)
    ensures results == [Second, Third]
  {
    var query := new Query(Scan, Get);
    var clause := Clause("anIntegerColumn", GreaterThan, "10");
    var executed := query.Execute(Descriptor, [clause]);
    SingleClause("Standard1", clause, Scan, Get);
    GreaterThanTenResults(clause);
    AscendingTwentyThirty();
    var sorted := executed.value.AscendingBy("anIntegerColumn");
    results := sorted.value.results;
  }
}
