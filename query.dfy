/**
 * `Query.execute`: for each clause, scan every row of the class's column
 * family, asking the store for the clause's column only; keep the rows in
 * which some returned column satisfies the clause; load each kept row's
 * object by its key; and append those objects, clause after clause, to one
 * result set. The range scan and the load by key are parameters of the
 * query object.
 */
module Queries {
  import opened Errors
  import opened JavaLang
  import opened OperationUtils
  import opened ResultSets
  import Sorting

  /** `QueryConditional`. */
  datatype Conditional = Equal | GreaterThan | GreaterThanEqualTo | LessThanEqualTo | LessThan | NotEqual

  /** One query argument triplet: a column name, a conditional and the literal to compare with. */
  datatype Clause = Clause(column: string, op: Conditional, literal: string)

  /** A row of a range scan: its key and the columns the slice predicate selected, in the store's order. */
  datatype KeySlice = KeySlice(key: string, columns: seq<Column>)

  predicate IsOrdering(op: Conditional) {
    op != Equal && op != NotEqual
  }

  /** What an ordering conditional says about a stored number `n` and the literal's number `m`. */
  function Holds(op: Conditional, n: int, m: int): bool
    requires IsOrdering(op)
  {
    match op
    case GreaterThan => n > m
    case GreaterThanEqualTo => n >= m
    case LessThanEqualTo => n <= m
    case LessThan => n < m
  }

  /**
   * The stored text as an `Integer`: digit-only text (the empty text
   * included) is parsed and must fit; any other text gives null.
   */
  function StoredNumber(text: string): (r: Result<Option<int>>)
    ensures !IsNumeric(text) ==> r == Ok(None)
    ensures IsNumeric(text) && text != [] && DigitsValue(text) <= INT_MAX ==> r == Ok(Some(DigitsValue(text)))
    ensures IsNumeric(text) && (text == [] || DigitsValue(text) > INT_MAX) ==> r == Fail(NumberFormat(text))
  {
    if IsNumeric(text) then
      ParseNumericCases(text, INT_MIN, INT_MAX);
      match ParseInt(text)
      case Some(n) => Ok(Some(n))
      case None => Fail(NumberFormat(text))
    else Ok(None)
  }

  /**
   * Whether one column value satisfies the clause. The value is parsed as
   * a number before the conditional is looked at; an ordering conditional
   * unboxes the stored number (its left operand) before it parses the
   * literal, so null text fails before a bad literal is noticed.
   */
  function ColumnSatisfies(value: seq<byte>, clause: Clause): (r: Result<bool>)
    ensures StoredNumber(Decode(value)).Fail? ==> r == Fail(StoredNumber(Decode(value)).error)
    ensures r.Fail? ==> r.error == NullReference || r.error.NumberFormat?
    ensures r.Fail? && IsOrdering(clause.op) && StoredNumber(Decode(value)).Ok? ==>
      (r.error == NullReference <==> StoredNumber(Decode(value)).value.None?)
    ensures !IsOrdering(clause.op) && StoredNumber(Decode(value)).Ok? ==>
      r == Ok((Decode(value) == clause.literal) == (clause.op == Equal))
  {
    var text := Decode(value);
    match StoredNumber(text)
    case Fail(e) => Fail(e)
    case Ok(stored) =>
      if clause.op == Equal then Ok(text == clause.literal)
      else if clause.op == NotEqual then Ok(text != clause.literal)
      else if stored.None? then Fail(NullReference)
      else
        match ParseInt(clause.literal)
        case None => Fail(NumberFormat(clause.literal))
        case Some(m) => Ok(Holds(clause.op, stored.value, m))
  }

  /** `find` over a row's columns: the first column that satisfies the clause ends the search. */
  function AnyColumnSatisfies(cols: seq<Column>, clause: Clause): (r: Result<bool>)
    ensures cols == [] ==> r == Ok(false)
    ensures r.Fail? ==> r.error == NullReference || r.error.NumberFormat?
  {
    if cols == [] then Ok(false)
    else
      match ColumnSatisfies(cols[0].value, clause)
      case Fail(e) => Fail(e)
      case Ok(true) => Ok(true)
      case Ok(false) => AnyColumnSatisfies(cols[1..], clause)
  }

  /** `filter` over the rows of a scan, keeping their order. */
  function FilterSlices(slices: seq<KeySlice>, clause: Clause): (r: Result<seq<KeySlice>>)
    ensures r.Ok? ==> |r.value| <= |slices|
  {
    if slices == [] then Ok([])
    else
      match AnyColumnSatisfies(slices[0].columns, clause)
      case Fail(e) => Fail(e)
      case Ok(keep) =>
        match FilterSlices(slices[1..], clause)
        case Fail(e) => Fail(e)
        case Ok(rest) => Ok((if keep then [slices[0]] else []) + rest)
  }

  /** `transform` of the kept rows into objects, loading each by its key. */
  function LoadAll(slices: seq<KeySlice>, get: string -> Result<Record>): (r: Result<seq<Record>>)
    ensures r.Ok? ==> |r.value| == |slices| && forall i | 0 <= i < |slices| :: get(slices[i].key) == Ok(r.value[i])
    ensures r.Fail? ==> exists i | 0 <= i < |slices| :: get(slices[i].key) == Fail(r.error)
  {
    if slices == [] then Ok([])
    else
      match get(slices[0].key)
      case Fail(e) => Fail(e)
      case Ok(x) =>
        match LoadAll(slices[1..], get)
        case Fail(e) => Fail(e)
        case Ok(rest) => Ok([x] + rest)
  }

  /** The range scan of one clause: every key, only the clause's column. */
  function ScanPredicate(clause: Clause): (p: SlicePredicate)
    ensures p.ColumnNames?
    ensures forall name :: Selects(p, name) <==> name == Encode(clause.column)
  {
    ColumnNames([Encode(clause.column)])
  }

  /** The objects one clause contributes, in scan order. */
  function ClauseResults(columnFamily: string, clause: Clause,
                         scan: (string, SlicePredicate) -> Result<seq<KeySlice>>,
                         get: string -> Result<Record>): (r: Result<seq<Record>>)
    ensures scan(columnFamily, ScanPredicate(clause)).Fail? ==> r == Fail(scan(columnFamily, ScanPredicate(clause)).error)
    ensures r.Ok? ==> scan(columnFamily, ScanPredicate(clause)).Ok?
    ensures r.Ok? ==> var kept := FilterSlices(scan(columnFamily, ScanPredicate(clause)).value, clause);
      kept.Ok? && |r.value| == |kept.value| &&
      forall i | 0 <= i < |kept.value| :: get(kept.value[i].key) == Ok(r.value[i])
  {
    match scan(columnFamily, ScanPredicate(clause))
    case Fail(e) => Fail(e)
    case Ok(slices) =>
      match FilterSlices(slices, clause)
      case Fail(e) => Fail(e)
      case Ok(kept) => LoadAll(kept, get)
  }

  /** The clauses' contributions concatenated in clause order, or the first failure. */
  function Accumulated(columnFamily: string, clauses: seq<Clause>,
                       scan: (string, SlicePredicate) -> Result<seq<KeySlice>>,
                       get: string -> Result<Record>): (r: Result<seq<Record>>)
    ensures clauses == [] ==> r == Ok([])
    ensures r.Fail? ==> exists i | 0 <= i < |clauses| :: ClauseResults(columnFamily, clauses[i], scan, get) == Fail(r.error)
  {
    if clauses == [] then Ok([])
    else
      match Accumulated(columnFamily, clauses[..|clauses| - 1], scan, get)
      case Fail(e) => Fail(e)
      case Ok(prefix) =>
        match ClauseResults(columnFamily, clauses[|clauses| - 1], scan, get)
        case Fail(e) => Fail(e)
        case Ok(more) => Ok(prefix + more)
  }

  // ---------------------------------------------------------------------
  // The clause predicate

  /** `NOT_EQUAL` is the negation of `EQUAL`, failing exactly when `EQUAL` fails. */
  lemma NotEqualNegatesEqual(value: seq<byte>, column: string, literal: string)
    ensures var eq := ColumnSatisfies(value, Clause(column, Equal, literal));
      ColumnSatisfies(value, Clause(column, NotEqual, literal)) == if eq.Ok? then Ok(!eq.value) else eq
  {
  }

  /** `EQUAL` compares the stored text with the literal as strings, unless the text is digits that do not fit an `Integer`. */
  lemma EqualIsTextEquality(value: seq<byte>, column: string, literal: string)
    ensures var text := Decode(value);
      ColumnSatisfies(value, Clause(column, Equal, literal)) ==
        if IsNumeric(text) && (text == [] || DigitsValue(text) > INT_MAX) then Fail(NumberFormat(text))
        else Ok(text == literal)
  {
  }

  /** An empty stored value counts as digit-only text, whose parse fails, whatever the conditional. */
  lemma EmptyValueFails(clause: Clause)
    ensures ColumnSatisfies([], clause) == Fail(NumberFormat(""))
  {
    assert Decode([]) == "";
  }

  /** Digit-only text beyond `Integer.MAX_VALUE` fails whatever the conditional. */
  lemma OverflowingValueFails(value: seq<byte>, clause: Clause)
    requires IsNumeric(Decode(value)) && Decode(value) != [] && DigitsValue(Decode(value)) > INT_MAX
    ensures ColumnSatisfies(value, clause) == Fail(NumberFormat(Decode(value)))
  {
  }

  /** An ordering conditional on digit-only text that fits compares the two numbers. */
  lemma OrderingComparesNumbers(value: seq<byte>, clause: Clause, m: int)
    requires IsOrdering(clause.op) && ParseInt(clause.literal) == Some(m)
    requires IsNumeric(Decode(value)) && Decode(value) != [] && DigitsValue(Decode(value)) <= INT_MAX
    ensures ColumnSatisfies(value, clause) == Ok(Holds(clause.op, DigitsValue(Decode(value)), m))
  {
  }

  /**
   * Text with anything but digits (a minus sign included) leaves the stored
   * number null, so ordering fails whatever the literal.
   */
  lemma OrderingOnTextFails(value: seq<byte>, clause: Clause)
    requires IsOrdering(clause.op) && !IsNumeric(Decode(value))
    ensures ColumnSatisfies(value, clause) == Fail(NullReference)
  {
  }

  /** An ordering conditional whose literal is not an `Integer` fails on every value that parses to a number. */
  lemma OrderingOnBadLiteralFails(value: seq<byte>, clause: Clause)
    requires IsOrdering(clause.op) && ParseInt(clause.literal).None?
    requires StoredNumber(Decode(value)).Ok? && StoredNumber(Decode(value)).value.Some?
    ensures ColumnSatisfies(value, clause) == Fail(NumberFormat(clause.literal))
  {
  }

  /** `GREATER_THAN` and `LESS_THAN_EQUAL_TO` are complements, as are `LESS_THAN` and `GREATER_THAN_EQUAL_TO`. */
  lemma OrderingComplements(value: seq<byte>, column: string, literal: string)
    ensures var gt := ColumnSatisfies(value, Clause(column, GreaterThan, literal));
      ColumnSatisfies(value, Clause(column, LessThanEqualTo, literal)) == if gt.Ok? then Ok(!gt.value) else gt
    ensures var lt := ColumnSatisfies(value, Clause(column, LessThan, literal));
      ColumnSatisfies(value, Clause(column, GreaterThanEqualTo, literal)) == if lt.Ok? then Ok(!lt.value) else lt
  {
  }

  // ---------------------------------------------------------------------
  // Keeping rows

  /** Column `i` is the first that satisfies the clause: every column before it is decided and does not. */
  ghost predicate FirstMatch(cols: seq<Column>, clause: Clause, i: int)
  {
    && 0 <= i < |cols|
    && ColumnSatisfies(cols[i].value, clause) == Ok(true)
    && forall j | 0 <= j < i :: ColumnSatisfies(cols[j].value, clause) == Ok(false)
  }

  lemma FirstMatchUnfold(cols: seq<Column>, clause: Clause)
    requires cols != []
    ensures forall i :: FirstMatch(cols, clause, i) <==>
      (i == 0 && ColumnSatisfies(cols[0].value, clause) == Ok(true)) ||
      (i > 0 && ColumnSatisfies(cols[0].value, clause) == Ok(false) && FirstMatch(cols[1..], clause, i - 1))
  {
    forall i ensures FirstMatch(cols, clause, i) <==>
      (i == 0 && ColumnSatisfies(cols[0].value, clause) == Ok(true)) ||
      (i > 0 && ColumnSatisfies(cols[0].value, clause) == Ok(false) && FirstMatch(cols[1..], clause, i - 1))
    {
      if 0 < i < |cols| {
        assert forall j | 0 <= j < i - 1 :: cols[1..][j] == cols[j + 1];
        assert forall j | 0 < j < i :: cols[j] == cols[1..][j - 1];
      }
    }
  }

  /** The search ends with "found" exactly when there is a first column that satisfies the clause. */
  lemma {:induction false} AnyColumnFinds(cols: seq<Column>, clause: Clause)
    ensures AnyColumnSatisfies(cols, clause) == Ok(true) <==> exists i :: FirstMatch(cols, clause, i)
  {
    if cols != [] {
      AnyColumnFinds(cols[1..], clause);
      FirstMatchUnfold(cols, clause);
      var first := ColumnSatisfies(cols[0].value, clause);
      if first == Ok(true) {
        assert FirstMatch(cols, clause, 0);
      } else if first == Ok(false) {
        if AnyColumnSatisfies(cols[1..], clause) == Ok(true) {
          var k :| FirstMatch(cols[1..], clause, k);
          assert FirstMatch(cols, clause, k + 1);
        }
        if exists i :: FirstMatch(cols, clause, i) {
          var i :| FirstMatch(cols, clause, i);
          assert FirstMatch(cols[1..], clause, i - 1);
        }
      }
    }
  }

  /** The search ends with "not found" exactly when every column is decided and does not satisfy the clause. */
  lemma {:induction false} AnyColumnMisses(cols: seq<Column>, clause: Clause)
    ensures AnyColumnSatisfies(cols, clause) == Ok(false) <==>
      forall i | 0 <= i < |cols| :: ColumnSatisfies(cols[i].value, clause) == Ok(false)
  {
    if cols != [] {
      AnyColumnMisses(cols[1..], clause);
      assert forall i | 0 <= i < |cols[1..]| :: cols[1..][i] == cols[i + 1];
      assert forall i | 0 < i < |cols| :: cols[i] == cols[1..][i - 1];
    }
  }

  /**
   * The filter succeeds exactly when every row can be decided, and then it
   * keeps exactly the rows in which some column satisfies the clause.
   */
  lemma {:induction false} FilterKeepsSatisfying(slices: seq<KeySlice>, clause: Clause)
    ensures FilterSlices(slices, clause).Ok? <==>
      forall i | 0 <= i < |slices| :: AnyColumnSatisfies(slices[i].columns, clause).Ok?
    ensures FilterSlices(slices, clause).Ok? ==> forall s ::
      s in FilterSlices(slices, clause).value <==> s in slices && AnyColumnSatisfies(s.columns, clause) == Ok(true)
  {
    if slices != [] {
      FilterKeepsSatisfying(slices[1..], clause);
      assert forall i | 0 <= i < |slices[1..]| :: slices[1..][i] == slices[i + 1];
      if FilterSlices(slices, clause).Ok? {
        FilterUncons(slices, clause);
        FilterFirst(slices, clause);
        forall s ensures s in FilterSlices(slices, clause).value <==> s in slices && AnyColumnSatisfies(s.columns, clause) == Ok(true) {
          InFirstOrRest(slices, s);
        }
      }
    }
  }

  /** The filter works row by row, so it keeps the scan order. */
  lemma {:induction false} FilterAppend(a: seq<KeySlice>, b: seq<KeySlice>, clause: Clause)
    requires FilterSlices(a, clause).Ok? && FilterSlices(b, clause).Ok?
    ensures FilterSlices(a + b, clause) == Ok(FilterSlices(a, clause).value + FilterSlices(b, clause).value)
  {
    if a == [] {
      assert a + b == b;
      assert FilterSlices(a, clause).value + FilterSlices(b, clause).value == FilterSlices(b, clause).value;
    } else {
      FilterUncons(a, clause);
      FilterAppend(a[1..], b, clause);
      FilterAppendStep(a, b, clause);
    }
  }

  lemma FilterAppendStep(a: seq<KeySlice>, b: seq<KeySlice>, clause: Clause)
    ensures (a != [] && FilterSlices(a, clause).Ok? && FilterSlices(b, clause).Ok? &&
             AnyColumnSatisfies(a[0].columns, clause).Ok? && FilterSlices(a[1..], clause).Ok? &&
             FilterSlices(a[1..] + b, clause) == Ok(FilterSlices(a[1..], clause).value + FilterSlices(b, clause).value))
      ==> FilterSlices(a + b, clause) == Ok(FilterSlices(a, clause).value + FilterSlices(b, clause).value)
  {
    if a != [] && AnyColumnSatisfies(a[0].columns, clause).Ok? && FilterSlices(a[1..], clause).Ok? &&
       FilterSlices(b, clause).Ok? &&
       FilterSlices(a[1..] + b, clause) == Ok(FilterSlices(a[1..], clause).value + FilterSlices(b, clause).value)
    {
      var keep := AnyColumnSatisfies(a[0].columns, clause);
      FilterFirst(a, clause);
      FirstOfAppend(a, b);
      FilterFirst(a + b, clause);
      var head := if keep.value then [a[0]] else [];
      Associative(head, FilterSlices(a[1..], clause).value, FilterSlices(b, clause).value);
    }
  }

  /** A filter that succeeds on some rows succeeds on the first row's columns and on the rest. */
  lemma FilterUncons(slices: seq<KeySlice>, clause: Clause)
    requires slices != [] && FilterSlices(slices, clause).Ok?
    ensures AnyColumnSatisfies(slices[0].columns, clause).Ok? && FilterSlices(slices[1..], clause).Ok?
  {
  }

  /** The filter on non-empty rows: the first row's verdict, then the rest. */
  lemma FilterFirst(slices: seq<KeySlice>, clause: Clause)
    requires slices != [] && AnyColumnSatisfies(slices[0].columns, clause).Ok? && FilterSlices(slices[1..], clause).Ok?
    ensures FilterSlices(slices, clause) ==
      Ok((if AnyColumnSatisfies(slices[0].columns, clause).value then [slices[0]] else []) + FilterSlices(slices[1..], clause).value)
  {
  }

  lemma InFirstOrRest<T>(xs: seq<T>, x: T)
    requires xs != []
    ensures x in xs <==> x == xs[0] || x in xs[1..]
  {
    assert xs == [xs[0]] + xs[1..];
  }

  lemma PrefixSnoc<T>(xs: seq<T>, i: nat)
    requires i < |xs|
    ensures xs[..i + 1] == xs[..i] + [xs[i]] && xs[..i + 1][..i] == xs[..i]
  {
  }

  lemma FirstOfAppend<T>(a: seq<T>, b: seq<T>)
    requires a != []
    ensures a + b != [] && (a + b)[0] == a[0] && (a + b)[1..] == a[1..] + b
  {
  }

  /** The filter on a row followed by more rows. */
  lemma FilterCons(x: KeySlice, rest: seq<KeySlice>, clause: Clause)
    requires AnyColumnSatisfies(x.columns, clause).Ok? && FilterSlices(rest, clause).Ok?
    ensures FilterSlices([x] + rest, clause) ==
      Ok((if AnyColumnSatisfies(x.columns, clause).value then [x] else []) + FilterSlices(rest, clause).value)
  {
    assert ([x] + rest)[0] == x && ([x] + rest)[1..] == rest;
  }

  // ---------------------------------------------------------------------
  // Accumulation over clauses

  /** One more clause: its contribution is appended, or its failure ends the query. */
  lemma AccumulatedSnoc(columnFamily: string, clauses: seq<Clause>, clause: Clause,
                        scan: (string, SlicePredicate) -> Result<seq<KeySlice>>,
                        get: string -> Result<Record>)
    ensures var before := Accumulated(columnFamily, clauses, scan, get);
      var more := ClauseResults(columnFamily, clause, scan, get);
      Accumulated(columnFamily, clauses + [clause], scan, get) ==
        if before.Fail? then before
        else if more.Fail? then Fail(more.error)
        else Ok(before.value + more.value)
  {
    assert (clauses + [clause])[..|clauses|] == clauses;
  }

  /** The result of a list of clauses is the result of its first part followed by that of the rest. */
  lemma {:induction false} AccumulatedAppend(columnFamily: string, c1: seq<Clause>, c2: seq<Clause>,
                                             scan: (string, SlicePredicate) -> Result<seq<KeySlice>>,
                                             get: string -> Result<Record>)
    requires Accumulated(columnFamily, c1, scan, get).Ok? && Accumulated(columnFamily, c2, scan, get).Ok?
    ensures Accumulated(columnFamily, c1 + c2, scan, get) ==
      Ok(Accumulated(columnFamily, c1, scan, get).value + Accumulated(columnFamily, c2, scan, get).value)
  {
    if c2 == [] {
      assert c1 + c2 == c1;
      var p1 := Accumulated(columnFamily, c1, scan, get).value;
      assert p1 + [] == p1;
    } else {
      var init, last := c2[..|c2| - 1], c2[|c2| - 1];
      Sorting.SplitLast(c2);
      AccumulatedSnoc(columnFamily, init, last, scan, get);
      AccumulatedAppend(columnFamily, c1, init, scan, get);
      AppendOneMore(columnFamily, c1, init, last, scan, get);
    }
  }

  lemma AppendOneMore(columnFamily: string, c1: seq<Clause>, init: seq<Clause>, last: Clause,
                      scan: (string, SlicePredicate) -> Result<seq<KeySlice>>,
                      get: string -> Result<Record>)
    ensures (Accumulated(columnFamily, c1, scan, get).Ok? && Accumulated(columnFamily, init + [last], scan, get).Ok? &&
             Accumulated(columnFamily, init, scan, get).Ok? &&
             Accumulated(columnFamily, c1 + init, scan, get) ==
               Ok(Accumulated(columnFamily, c1, scan, get).value + Accumulated(columnFamily, init, scan, get).value))
      ==> Accumulated(columnFamily, c1 + (init + [last]), scan, get) ==
          Ok(Accumulated(columnFamily, c1, scan, get).value + Accumulated(columnFamily, init + [last], scan, get).value)
  {
    Associative(c1, init, [last]);
    AccumulatedSnoc(columnFamily, init, last, scan, get);
    AccumulatedSnoc(columnFamily, c1 + init, last, scan, get);
    if Accumulated(columnFamily, c1, scan, get).Ok? && Accumulated(columnFamily, init, scan, get).Ok? &&
       ClauseResults(columnFamily, last, scan, get).Ok?
    {
      var p1, p2 := Accumulated(columnFamily, c1, scan, get).value, Accumulated(columnFamily, init, scan, get).value;
      var more := ClauseResults(columnFamily, last, scan, get).value;
      Associative(p1, p2, more);
    }
  }

  lemma Associative<T>(a: seq<T>, b: seq<T>, c: seq<T>)
    ensures (a + b) + c == a + (b + c)
  {
  }

  /** Once a prefix of the clauses fails, the whole list fails with the same error. */
  lemma {:induction false} AccumulatedFailurePersists(columnFamily: string, clauses: seq<Clause>, k: nat,
                                                      scan: (string, SlicePredicate) -> Result<seq<KeySlice>>,
                                                      get: string -> Result<Record>)
    requires k <= |clauses|
    ensures Accumulated(columnFamily, clauses[..k], scan, get).Fail? ==>
      Accumulated(columnFamily, clauses, scan, get) == Accumulated(columnFamily, clauses[..k], scan, get)
    decreases |clauses| - k
  {
    if k < |clauses| {
      PrefixSnoc(clauses, k);
      FailureSticks(columnFamily, clauses[..k], clauses[k], scan, get);
      AccumulatedFailurePersists(columnFamily, clauses, k + 1, scan, get);
    } else {
      assert clauses[..k] == clauses;
    }
  }

  lemma FailureSticks(columnFamily: string, clauses: seq<Clause>, clause: Clause,
                      scan: (string, SlicePredicate) -> Result<seq<KeySlice>>,
                      get: string -> Result<Record>)
    ensures Accumulated(columnFamily, clauses, scan, get).Fail? ==>
      Accumulated(columnFamily, clauses + [clause], scan, get) == Accumulated(columnFamily, clauses, scan, get)
  {
    AccumulatedSnoc(columnFamily, clauses, clause, scan, get);
  }

  /** A single clause contributes its own results; so the whole result is each clause's, in order, repeats and all. */
  lemma SingleClause(columnFamily: string, clause: Clause,
                     scan: (string, SlicePredicate) -> Result<seq<KeySlice>>,
                     get: string -> Result<Record>)
    ensures Accumulated(columnFamily, [clause], scan, get) == ClauseResults(columnFamily, clause, scan, get)
  {
    assert [clause][..0] == [];
    var more := ClauseResults(columnFamily, clause, scan, get);
    if more.Ok? {
      assert [] + more.value == more.value;
    }
  }

  /** A query object: its range scan over the store and its load of an object by key. */
  class Query {
    const scan: (string, SlicePredicate) -> Result<seq<KeySlice>>
    const get: string -> Result<Record>

    constructor (scan: (string, SlicePredicate) -> Result<seq<KeySlice>>, get: string -> Result<Record>)
      ensures this.scan == scan && this.get == get
    {
      this.scan := scan;
      this.get := get;
    }

    /**
     * `execute`: no clause is an error of its own; a class that is not a
     * column family, and any failure of a scan, the filter or a load,
     * aborts the whole call with one wrapped error.
     */
    method Execute(c: ClassDescriptor, clauses: seq<Clause>) returns (r: Result<ResultSet>)
      ensures clauses == [] ==> r == Fail(NoQueryArguments)
      ensures clauses != [] && c.columnFamilyAnnotation.None? ==> r == Fail(QueryFailed(NotColumnFamily(c.name)))
      ensures clauses != [] && c.columnFamilyAnnotation.Some? ==>
        var expected := Accumulated(DetermineColumnFamily(c), clauses, scan, get);
        if expected.Ok? then r.Ok? && fresh(r.value) && r.value.results == expected.value
        else r == Fail(QueryFailed(expected.error))
    {
      if |clauses| == 0 {
        return Fail(NoQueryArguments);
      }
      var consolidated := new ResultSet();
      var i := 0;
      while i < |clauses|
        invariant 0 <= i <= |clauses|
        invariant fresh(consolidated)
        invariant i > 0 ==> c.columnFamilyAnnotation.Some?
        invariant Accumulated(DetermineColumnFamily(c), clauses[..i], scan, get) == Ok(consolidated.results)
      {
        PrefixSnoc(clauses, i);
        if c.columnFamilyAnnotation.None? {
          return Fail(QueryFailed(NotColumnFamily(c.name)));
        }
        var columnFamily := DetermineColumnFamily(c);
        var clause := clauses[i];
        AccumulatedSnoc(columnFamily, clauses[..i], clause, scan, get);
        var slices := scan(columnFamily, ScanPredicate(clause));
        if slices.Fail? {
          AccumulatedFailurePersists(columnFamily, clauses, i + 1, scan, get);
          return Fail(QueryFailed(slices.error));
        }
        var kept := FilterSlices(slices.value, clause);
        if kept.Fail? {
          AccumulatedFailurePersists(columnFamily, clauses, i + 1, scan, get);
          return Fail(QueryFailed(kept.error));
        }
        var loaded := LoadAll(kept.value, get);
        if loaded.Fail? {
          AccumulatedFailurePersists(columnFamily, clauses, i + 1, scan, get);
          return Fail(QueryFailed(loaded.error));
        }
        consolidated.results := consolidated.results + loaded.value;
        i := i + 1;
      }
      assert clauses[..i] == clauses;
      r := Ok(consolidated);
    }
  }
}
