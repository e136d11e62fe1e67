/**
 * The mapping helpers of `CassandraOperationUtils`: naming a column family
 * and a column, converting field values to and from the strings that are
 * stored, finding the key field, and building the Thrift column and slice
 * predicate structures. Reflection and annotations are replaced by explicit
 * descriptors of a class and of its fields.
 */
module OperationUtils {
  import opened Errors
  import opened JavaLang
  import Sorting

  /** A declared field: its name, its `@Column(name=...)` if present, whether it carries `@Key`, and its type's simple name. */
  datatype FieldDescriptor = FieldDescriptor(
    name: string,
    columnAnnotation: Option<string>,
    isKey: bool,
    typeName: string)

  /** A mapped class: its qualified and simple names, its `@ColumnFamily(name=...)` if present, and its declared fields in order. */
  datatype ClassDescriptor = ClassDescriptor(
    name: string,
    simpleName: string,
    columnFamilyAnnotation: Option<string>,
    fields: seq<FieldDescriptor>)

  /** The Thrift `Column` struct. */
  datatype Column = Column(name: seq<byte>, value: seq<byte>, timestamp: int)

  /**
   * The Thrift `SlicePredicate`: an explicit list of column names, or a
   * range of them, read backwards when `reversed`, of at most `count` columns.
   */
  datatype SlicePredicate =
    | ColumnNames(names: seq<seq<byte>>)
    | SliceRange(start: seq<byte>, finish: seq<byte>, reversed: bool, count: nat)

  /** The `count` a Thrift `SliceRange` carries unless it is set. */
  const DEFAULT_COUNT: nat := 100

  /** An annotation's name counts only when it is non-empty. */
  function AnnotatedName(annotation: Option<string>, fallback: string): (r: string)
    ensures annotation.Some? && annotation.value != [] ==> r == annotation.value
    ensures annotation.None? || annotation.value == [] ==> r == fallback
  {
    match annotation
    case Some(n) => if n == [] then fallback else n
    case None => fallback
  }

  function DetermineColumnFamily(c: ClassDescriptor): (r: string)
    ensures r == c.simpleName <==>
      c.columnFamilyAnnotation.None? || c.columnFamilyAnnotation.value in {[], c.simpleName}
    ensures r != c.simpleName ==> c.columnFamilyAnnotation == Some(r)
  {
    AnnotatedName(c.columnFamilyAnnotation, c.simpleName)
  }

  function DetermineColumnName(f: FieldDescriptor): (r: string)
    ensures r == f.name <==> f.columnAnnotation.None? || f.columnAnnotation.value in {[], f.name}
    ensures r != f.name ==> f.columnAnnotation == Some(r)
  {
    AnnotatedName(f.columnAnnotation, f.name)
  }

  /**
   * `convertStringToValue`: the stored text as a value of the field's type.
   * Of the classes with a String constructor only Integer and Long are covered;
   * a parse failure inside the reflective constructor call arrives wrapped.
   */
  function ConvertStringToValue(s: string, typeName: string): (r: Result<Value>)
    ensures typeName == "String" ==> r == Ok(Str(s))
    ensures typeName == "byte[]" ==> r == Ok(Bytes(Encode(s)))
    ensures typeName !in {"String", "byte[]"} && !IsNumeric(s) ==> r == Ok(Null)
    ensures typeName == "Integer" && r.Ok? && IsNumeric(s) ==> r == Ok(Int(DigitsValue(s)))
    ensures typeName == "Integer" && IsNumeric(s) ==> (r.Ok? <==> s != [] && DigitsValue(s) <= INT_MAX)
    ensures typeName in {"Integer", "Long"} && r.Fail? ==> r.error == ConstructorFailed(NumberFormat(s))
  {
    if typeName == "String" then Ok(Str(s))
    else if typeName == "byte[]" then Ok(Bytes(Encode(s)))
    else if IsNumeric(s) then
      if typeName == "Integer" then
        ParseNumericCases(s, INT_MIN, INT_MAX);
        match ParseInt(s)
        case Some(n) => Ok(Int(n))
        case None => Fail(ConstructorFailed(NumberFormat(s)))
      else if typeName == "Long" then
        match ParseLong(s)
        case Some(n) => Ok(Long(n))
        case None => Fail(ConstructorFailed(NumberFormat(s)))
      else Fail(ReflectionFailed)
    else Ok(Null)
  }

  /** Digit-only text parses exactly when it is non-empty and its value fits. */
  lemma ParseNumericCases(s: string, lo: int, hi: int)
    requires IsNumeric(s) && lo <= 0
    ensures ParseSigned(s, lo, hi).Some? <==> s != [] && DigitsValue(s) <= hi
    ensures ParseSigned(s, lo, hi).Some? ==> ParseSigned(s, lo, hi).value == DigitsValue(s)
  {
    if s != [] {
      ParseNumeric(s, lo, hi);
    }
  }

  /** `convertValueToString`: Strings as they are, byte arrays decoded, Numbers by their `toString`; anything else is refused. */
  function ConvertValueToString(v: Value): (r: Result<string>)
    ensures r.Ok? <==> v.Str? || v.Bytes? || IsNumber(v)
    ensures v.Num? ==> r == Ok(v.text)
    ensures v.Other? ==> r == Fail(IllegalArgument)
    ensures v.Null? ==> r == Fail(NullReference)
  {
    match v
    case Str(s) => Ok(s)
    case Bytes(b) => Ok(Decode(b))
    case Int(n) => Ok(IntToString(n))
    case Long(n) => Ok(IntToString(n))
    case Num(_, text) => Ok(text)
    case Other => Fail(IllegalArgument)
    case Null => Fail(NullReference)
  }

  /** A String field survives being stored and read back. */
  lemma StringRoundTrip(s: string)
    ensures ConvertValueToString(Str(s)) == Ok(s)
    ensures ConvertStringToValue(ConvertValueToString(Str(s)).value, "String") == Ok(Str(s))
  {
  }

  /** A byte[] field survives being stored and read back. */
  lemma BytesRoundTrip(b: seq<byte>)
    ensures ConvertStringToValue(ConvertValueToString(Bytes(b)).value, "byte[]") == Ok(Bytes(b))
  {
    EncodeDecode(b);
  }

  /** A non-negative Integer survives the round trip; a negative one comes back as null, because its sign is not a digit. */
  lemma IntegerRoundTrip(n: int)
    requires INT_MIN <= n <= INT_MAX
    ensures var text := ConvertValueToString(Int(n)).value;
      ConvertStringToValue(text, "Integer") == if n >= 0 then Ok(Int(n)) else Ok(Null)
  {
    NumericIffNonNegative(n);
    if n >= 0 {
      ParseIntToString(n, INT_MIN, INT_MAX);
    }
  }

  /** The same round trip for Long fields. */
  lemma LongRoundTrip(n: int)
    requires LONG_MIN <= n <= LONG_MAX
    ensures var text := ConvertValueToString(Long(n)).value;
      ConvertStringToValue(text, "Long") == if n >= 0 then Ok(Long(n)) else Ok(Null)
  {
    NumericIffNonNegative(n);
    if n >= 0 {
      ParseIntToString(n, LONG_MIN, LONG_MAX);
    }
  }

  /** `keyFieldFor`: the first field carrying `@Key`. */
  function KeyFieldFor(fields: seq<FieldDescriptor>): (r: Option<FieldDescriptor>)
    ensures r.None? <==> forall i | 0 <= i < |fields| :: !fields[i].isKey
    ensures r.Some? ==> exists i | 0 <= i < |fields| ::
      fields[i] == r.value && r.value.isKey && forall j | 0 <= j < i :: !fields[j].isKey
  {
    if fields == [] then None
    else if fields[0].isKey then Some(fields[0])
    else
      var r := KeyFieldFor(fields[1..]);
      assert r.Some? ==> exists i | 1 <= i < |fields| ::
        fields[i] == r.value && r.value.isKey && forall j | 0 <= j < i :: !fields[j].isKey by {
        if r.Some? {
          var k :| 0 <= k < |fields[1..]| && fields[1..][k] == r.value && r.value.isKey
            && forall j | 0 <= j < k :: !fields[1..][j].isKey;
          assert fields[k + 1] == r.value;
          assert forall j | 0 <= j < k + 1 :: !fields[j].isKey by {
            forall j | 0 <= j < k + 1 ensures !fields[j].isKey {
              if j > 0 { assert fields[j] == fields[1..][j - 1]; }
            }
          }
        }
      }
      assert r.None? ==> forall i | 0 <= i < |fields| :: !fields[i].isKey by {
        if r.None? {
          forall i | 0 <= i < |fields| ensures !fields[i].isKey {
            if i > 0 { assert fields[i] == fields[1..][i - 1]; }
          }
        }
      }
      r
  }

  /** `createColumnObject`: the column is named by the raw field name, whatever its `@Column` says. */
  function CreateColumnObject(field: FieldDescriptor, fieldValue: Value, timestamp: int): (r: Result<Column>)
    ensures r.Ok? <==> ConvertValueToString(fieldValue).Ok?
    ensures r.Ok? ==> r.value.name == Encode(field.name) && r.value.timestamp == timestamp
    ensures r.Ok? ==> r.value.value == Encode(ConvertValueToString(fieldValue).value)
  {
    match ConvertValueToString(fieldValue)
    case Ok(text) => Ok(Column(Encode(field.name), Encode(text), timestamp))
    case Fail(e) => Fail(e)
  }

  /** An annotated column name that differs from the field name is not the name the column object gets. */
  lemma ColumnObjectIgnoresAnnotation(field: FieldDescriptor, fieldValue: Value, timestamp: int)
    requires InCharset(field.name) && InCharset(DetermineColumnName(field))
    requires DetermineColumnName(field) != field.name
    requires CreateColumnObject(field, fieldValue, timestamp).Ok?
    ensures Decode(CreateColumnObject(field, fieldValue, timestamp).value.name) == field.name
    ensures CreateColumnObject(field, fieldValue, timestamp).value.name != Encode(DetermineColumnName(field))
  {
    DecodeEncode(field.name);
    DecodeEncode(DetermineColumnName(field));
  }

  /** Lexicographic order on byte strings, the order of Cassandra's BytesType comparator. */
  predicate BytesLe(a: seq<byte>, b: seq<byte>) {
    a == [] || (b != [] && (a[0] < b[0] || (a[0] == b[0] && BytesLe(a[1..], b[1..]))))
  }

  /** Which column names a slice predicate asks for; an empty bound leaves that end open. */
  predicate Selects(p: SlicePredicate, column: seq<byte>) {
    match p
    case ColumnNames(names) => column in names
    case SliceRange(start, finish, _, _) =>
      (start == [] || BytesLe(start, column)) && (finish == [] || BytesLe(column, finish))
  }

  /** The columns of a row whose names the predicate asks for, in the row's order. */
  function Matching(p: SlicePredicate, row: seq<Column>): (r: seq<Column>)
    ensures |r| <= |row|
    ensures forall c | c in r :: c in row && Selects(p, c.name)
    ensures forall c | c in row && Selects(p, c.name) :: c in r
  {
    if row == [] then []
    else (if Selects(p, row[0].name) then [row[0]] else []) + Matching(p, row[1..])
  }

  /**
   * What the store returns of a row (its columns in name order) for a slice
   * predicate: the named columns, or the first `count` columns of the range,
   * taken from the end of the row when the range is reversed.
   */
  function Slice(p: SlicePredicate, row: seq<Column>): (r: seq<Column>)
    ensures forall c | c in r :: c in row && Selects(p, c.name)
    ensures p.ColumnNames? ==> forall c | c in row && Selects(p, c.name) :: c in r
    ensures p.SliceRange? ==> |r| <= p.count
  {
    var m := Matching(p, row);
    if p.ColumnNames? then m
    else
      ReversedMembers(m);
      var ordered := if p.reversed then Sorting.Reversed(m) else m;
      if |ordered| <= p.count then ordered else ordered[..p.count]
  }

  /** A reversed column list holds only columns of the original, so a reversed slice stays within the row. */
  lemma ReversedMembers(m: seq<Column>)
    ensures forall c | c in Sorting.Reversed(m) :: c in m
  {
    var rev := Sorting.Reversed(m);
    forall c | c in rev ensures c in m {
      var i :| 0 <= i < |rev| && rev[i] == c;
      assert m[|m| - 1 - i] == c;
    }
  }

  /** `createEmptySlicePredicate`: a forward range with both ends open and the default count. */
  function CreateEmptySlicePredicate(): (p: SlicePredicate)
    ensures p.SliceRange? && !p.reversed && p.count == DEFAULT_COUNT
    ensures forall column :: Selects(p, column)
  {
    SliceRange([], [], false, DEFAULT_COUNT)
  }

  /** When every column of the row is asked for, the matching columns are the row itself. */
  lemma {:induction false} MatchingAll(p: SlicePredicate, row: seq<Column>)
    requires forall c | c in row :: Selects(p, c.name)
    ensures Matching(p, row) == row
  {
    if row != [] {
      assert forall c | c in row[1..] :: c in row;
      MatchingAll(p, row[1..]);
      assert row == [row[0]] + row[1..];
    }
  }

  /**
   * The empty slice predicate returns a whole row only up to the default
   * count: a row of more than 100 columns comes back as its first 100.
   */
  lemma EmptySliceTakesFirstColumns(row: seq<Column>)
    ensures Slice(CreateEmptySlicePredicate(), row) == if |row| <= DEFAULT_COUNT then row else row[..DEFAULT_COUNT]
  {
    MatchingAll(CreateEmptySlicePredicate(), row);
  }
}
