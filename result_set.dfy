/**
 * `ResultSet`: the list of objects a query returns, with the two ways of
 * combining result sets (`or`, `and`) and the two sorts by a named field.
 * An object is a `Record`: the name of its class and the values of its
 * declared fields; reflective field access becomes a map lookup.
 */
module ResultSets {
  import opened Errors
  import opened JavaLang
  import opened Sorting

  /** A mapped object: its class and the value of each declared field. */
  datatype Record = Record(className: string, fields: map<string, Value>)

  // ---------------------------------------------------------------------
  // Membership-based combination

  /** The elements of `other` that `base` does not contain, in `other`'s order, repeats included. */
  function Missing<T(==)>(base: seq<T>, other: seq<T>): (r: seq<T>)
    ensures |r| <= |other|
  {
    if other == [] then []
    else
      var last := other[|other| - 1];
      Missing(base, other[..|other| - 1]) + (if last in base then [] else [last])
  }

  /** The elements of `other` that `base` contains, in `other`'s order, repeats included. */
  function Shared<T(==)>(base: seq<T>, other: seq<T>): (r: seq<T>)
    ensures |r| <= |other|
  {
    if other == [] then []
    else
      var last := other[|other| - 1];
      Shared(base, other[..|other| - 1]) + (if last in base then [last] else [])
  }

  /** Each element of `other` outside `base` occurs in `Missing` as often as in `other`; no element of `base` occurs. */
  lemma {:induction false} MissingCount<T>(base: seq<T>, other: seq<T>, x: T)
    ensures multiset(Missing(base, other))[x] == if x in base then 0 else multiset(other)[x]
  {
    if other != [] {
      var init, last := other[..|other| - 1], other[|other| - 1];
      MissingCount(base, init, x);
      assert other == init + [last];
    }
  }

  /** Each element of `other` inside `base` occurs in `Shared` as often as in `other`; nothing else occurs. */
  lemma {:induction false} SharedCount<T>(base: seq<T>, other: seq<T>, x: T)
    ensures multiset(Shared(base, other))[x] == if x in base then multiset(other)[x] else 0
  {
    if other != [] {
      var init, last := other[..|other| - 1], other[|other| - 1];
      SharedCount(base, init, x);
      assert other == init + [last];
    }
  }

  /** `Missing` works element by element, so it keeps the order of `other`. */
  lemma {:induction false} MissingAppend<T>(base: seq<T>, o1: seq<T>, o2: seq<T>)
    ensures Missing(base, o1 + o2) == Missing(base, o1) + Missing(base, o2)
  {
    if o2 != [] {
      var init, last := o2[..|o2| - 1], o2[|o2| - 1];
      MissingAppend(base, o1, init);
      assert (o1 + o2)[..|o1 + o2| - 1] == o1 + init;
    } else {
      assert o1 + o2 == o1;
    }
  }

  /** `Shared` works element by element, so it keeps the order of `other`. */
  lemma {:induction false} SharedAppend<T>(base: seq<T>, o1: seq<T>, o2: seq<T>)
    ensures Shared(base, o1 + o2) == Shared(base, o1) + Shared(base, o2)
  {
    if o2 != [] {
      var init, last := o2[..|o2| - 1], o2[|o2| - 1];
      SharedAppend(base, o1, init);
      assert (o1 + o2)[..|o1 + o2| - 1] == o1 + init;
    } else {
      assert o1 + o2 == o1;
    }
  }

  /** The union built by `or` holds exactly the elements of either set. */
  lemma OrMembers<T>(base: seq<T>, other: seq<T>, x: T)
    ensures x in base + Missing(base, other) <==> x in base || x in other
  {
    MissingCount(base, other, x);
    assert x in Missing(base, other) <==> multiset(Missing(base, other))[x] > 0;
  }

  /** The intersection built by `and` holds exactly the elements of both sets. */
  lemma AndMembers<T>(base: seq<T>, other: seq<T>, x: T)
    ensures x in Shared(base, other) <==> x in base && x in other
  {
    SharedCount(base, other, x);
    assert x in Shared(base, other) <==> multiset(Shared(base, other))[x] > 0;
  }

  /** With nothing in common, `and` is empty. */
  lemma {:induction false} SharedDisjoint<T>(base: seq<T>, other: seq<T>)
    requires forall x | x in other :: x !in base
    ensures Shared(base, other) == []
  {
    if other != [] {
      assert other[|other| - 1] in other;
      SharedDisjoint(base, other[..|other| - 1]);
    }
  }

  // ---------------------------------------------------------------------
  // The field comparators

  /** `AscendingSorter.compare` on the two field values: strings ignoring case, numbers by `intValue` difference. */
  function CompareAscending(v1: Value, v2: Value): (r: Result<int>)
    ensures !v1.Str? && !IsNumber(v1) ==> r == Ok(0)
    ensures r == Fail(NullReference) <==> (v1.Str? || IsNumber(v1)) && v2.Null?
    ensures r == Fail(ClassCast) <==>
      (v1.Str? && !v2.Str? && !v2.Null?) || (IsNumber(v1) && !IsNumber(v2) && !v2.Null?)
  {
    if v1.Str? then
      if v2.Str? then Ok(CompareIgnoreCase(v1.s, v2.s))
      else if v2.Null? then Fail(NullReference)
      else Fail(ClassCast)
    else if IsNumber(v1) then
      if IsNumber(v2) then Ok(Wrap32(IntValue(v1) - IntValue(v2)))
      else if v2.Null? then Fail(NullReference)
      else Fail(ClassCast)
    else Ok(0)
  }

  /** `DescendingSorter.compare`: the type tests are on the first value, the comparison runs from the second. */
  function CompareDescending(v1: Value, v2: Value): (r: Result<int>)
    ensures !v1.Str? && !IsNumber(v1) ==> r == Ok(0)
    ensures r == Fail(NullReference) <==> (v1.Str? || IsNumber(v1)) && v2.Null?
    ensures r == Fail(ClassCast) <==>
      (v1.Str? && !v2.Str? && !v2.Null?) || (IsNumber(v1) && !IsNumber(v2) && !v2.Null?)
  {
    if v1.Str? then
      if v2.Str? then Ok(CompareIgnoreCase(v2.s, v1.s))
      else if v2.Null? then Fail(NullReference)
      else Fail(ClassCast)
    else if IsNumber(v1) then
      if IsNumber(v2) then Ok(Wrap32(IntValue(v2) - IntValue(v1)))
      else if v2.Null? then Fail(NullReference)
      else Fail(ClassCast)
    else Ok(0)
  }

  /** The value the sort field holds in `rec`, when `rec` is of the class the field was looked up in. */
  function FieldOf(owner: string, field: string, rec: Record): (r: Option<Value>)
    ensures r.Some? <==> rec.className == owner && field in rec.fields
    ensures r.Some? ==> r.value == rec.fields[field]
  {
    if rec.className == owner && field in rec.fields then Some(rec.fields[field]) else None
  }

  /**
   * A sorter's `compare` on two records: reading the field of an object of
   * another class throws `IllegalArgumentException`, which `compare` turns into 0.
   */
  function CompareRecords(ascending: bool, owner: string, field: string, a: Record, b: Record): (r: Result<int>)
    ensures FieldOf(owner, field, a).None? || FieldOf(owner, field, b).None? ==> r == Ok(0)
    ensures FieldOf(owner, field, a).Some? && FieldOf(owner, field, b).Some? ==>
      r == (if ascending then CompareAscending else CompareDescending)(a.fields[field], b.fields[field])
  {
    match (FieldOf(owner, field, a), FieldOf(owner, field, b))
    case (Some(v1), Some(v2)) => if ascending then CompareAscending(v1, v2) else CompareDescending(v1, v2)
    case _ => Ok(0)
  }

  /**
   * The comparator `ascendingBy` or `descendingBy` hands to the sort: the
   * field comparison on two records of the owning class, and a tie otherwise.
   */
  function Sorter(ascending: bool, owner: string, field: string): (cmp: (Record, Record) -> Result<int>)
    ensures forall a, b | FieldOf(owner, field, a).None? || FieldOf(owner, field, b).None? :: cmp(a, b) == Ok(0)
    ensures forall a, b | FieldOf(owner, field, a).Some? && FieldOf(owner, field, b).Some? ::
      cmp(a, b) == (if ascending then CompareAscending else CompareDescending)(a.fields[field], b.fields[field])
  {
    (a: Record, b: Record) => CompareRecords(ascending, owner, field, a, b)
  }

  /**
   * `ascendingBy` (when `ascending`) and `descendingBy` on a list of
   * records: the field is looked up in the class of the first record, and
   * any failure of the lookup or of a comparison is wrapped.
   */
  function SortedBy(results: seq<Record>, field: string, ascending: bool): (r: Result<seq<Record>>)
    ensures results == [] ==> r == Ok([])
    ensures results != [] && field !in results[0].fields ==> r == Fail(SortFailed(ascending, NoSuchField(field)))
    ensures r.Ok? ==> multiset(r.value) == multiset(results)
    ensures r.Fail? ==> r.error.SortFailed? && r.error.ascending == ascending
  {
    if results == [] then Ok([])
    else if field !in results[0].fields then Fail(SortFailed(ascending, NoSuchField(field)))
    else
      match Sort(results, Sorter(ascending, results[0].className, field))
      case Ok(s) => Ok(s)
      case Fail(e) => Fail(SortFailed(ascending, e))
  }

  // ---------------------------------------------------------------------
  // When the comparators are consistent

  const SMALL: int := 0x4000_0000

  /** Every record is of class `owner` and holds a string in `field`. */
  ghost predicate AllStrings(rs: seq<Record>, owner: string, field: string)
  {
    forall r | r in rs :: FieldOf(owner, field, r).Some? && FieldOf(owner, field, r).value.Str?
  }

  /** Every record is of class `owner` and holds in `field` a number whose `intValue` is below 2^30 in magnitude. */
  ghost predicate AllSmallNumbers(rs: seq<Record>, owner: string, field: string)
  {
    forall r | r in rs :: FieldOf(owner, field, r).Some? && IsNumber(FieldOf(owner, field, r).value)
      && -SMALL <= IntValue(FieldOf(owner, field, r).value) < SMALL
  }

  ghost predicate Comparable(rs: seq<Record>, owner: string, field: string)
  {
    AllStrings(rs, owner, field) || AllSmallNumbers(rs, owner, field)
  }

  ghost function Dom(rs: seq<Record>): set<Record>
  {
    set r | r in rs
  }

  lemma StringSorterConsistent(rs: seq<Record>, owner: string, field: string)
    requires AllStrings(rs, owner, field)
    ensures ConsistentOn(Dom(rs), Sorter(true, owner, field))
  {
    var cmp := Sorter(true, owner, field);
    forall a, b | a in Dom(rs) && b in Dom(rs)
      ensures cmp(a, b) == Ok(CompareIgnoreCase(a.fields[field].s, b.fields[field].s))
    {
      assert a in rs && b in rs;
    }
    forall a, b | a in Dom(rs) && b in Dom(rs)
      ensures Sign(cmp(a, b).value) == -Sign(cmp(b, a).value)
    {
      CompareIgnoreCaseAntisymmetric(a.fields[field].s, b.fields[field].s);
    }
    forall a, b, c | a in Dom(rs) && b in Dom(rs) && c in Dom(rs) && cmp(a, b).value <= 0 && cmp(b, c).value <= 0
      ensures cmp(a, c).value <= 0
    {
      CompareIgnoreCaseTransitive(a.fields[field].s, b.fields[field].s, c.fields[field].s);
    }
  }

  lemma NumberSorterConsistent(rs: seq<Record>, owner: string, field: string)
    requires AllSmallNumbers(rs, owner, field)
    ensures ConsistentOn(Dom(rs), Sorter(true, owner, field))
  {
    var cmp := Sorter(true, owner, field);
    forall a, b | a in Dom(rs) && b in Dom(rs)
      ensures cmp(a, b) == Ok(IntValue(a.fields[field]) - IntValue(b.fields[field]))
    {
      assert a in rs && b in rs;
    }
  }

  /** With both values strings, or both numbers, the descending sorter is the ascending one with its arguments swapped. */
  lemma DescendingIsSwapped(rs: seq<Record>, owner: string, field: string)
    requires AllStrings(rs, owner, field) || AllSmallNumbers(rs, owner, field)
    ensures forall a, b | a in Dom(rs) && b in Dom(rs) ::
      Sorter(false, owner, field)(a, b) == Sorter(true, owner, field)(b, a)
  {
    forall a, b | a in Dom(rs) && b in Dom(rs)
      ensures Sorter(false, owner, field)(a, b) == Sorter(true, owner, field)(b, a)
    {
      assert a in rs && b in rs;
    }
  }

  lemma ConsistentSorters(rs: seq<Record>, owner: string, field: string)
    requires Comparable(rs, owner, field)
    ensures ConsistentOn(Dom(rs), Sorter(true, owner, field))
    ensures ConsistentOn(Dom(rs), Sorter(false, owner, field))
  {
    if AllStrings(rs, owner, field) {
      StringSorterConsistent(rs, owner, field);
    } else {
      NumberSorterConsistent(rs, owner, field);
    }
    DescendingIsSwapped(rs, owner, field);
    SwappedConsistent(Sorter(true, owner, field), Sorter(false, owner, field), Dom(rs));
  }

  /**
   * On records of one class whose field values are all strings, or all
   * small numbers, the sort succeeds, orders the list by the comparator and
   * keeps the input order of records that compare equal.
   */
  lemma SortedByOrdered(results: seq<Record>, field: string, ascending: bool, k: Record)
    requires results != [] && Comparable(results, results[0].className, field) && k in results
    ensures SortedBy(results, field, ascending).Ok?
    ensures var cmp := Sorter(ascending, results[0].className, field);
      && Sorted(SortedBy(results, field, ascending).value, cmp)
      && Ties(SortedBy(results, field, ascending).value, k, cmp) == Ties(results, k, cmp)
  {
    var owner := results[0].className;
    assert field in results[0].fields by {
      assert results[0] in results;
    }
    ConsistentSorters(results, owner, field);
    var cmp := Sorter(ascending, owner, field);
    forall x | x in results ensures x in Dom(results) { }
    SortSorted(results, cmp, Dom(results));
    SortStable(results, k, cmp, Dom(results));
  }

  /** Records that compare equal by the ascending sorter are the same record. */
  ghost predicate NoTies(rs: seq<Record>, owner: string, field: string)
  {
    forall a, b | a in Dom(rs) && b in Dom(rs) && Sorter(true, owner, field)(a, b) == Ok(0) :: a == b
  }

  /** Distinct records with string values that differ beyond case never tie. */
  lemma DistinctStringsNoTies(rs: seq<Record>, owner: string, field: string)
    requires AllStrings(rs, owner, field)
    requires forall a, b | a in rs && b in rs && a != b :: FoldAll(a.fields[field].s) != FoldAll(b.fields[field].s)
    ensures NoTies(rs, owner, field)
  {
    forall a, b | a in Dom(rs) && b in Dom(rs) && Sorter(true, owner, field)(a, b) == Ok(0) ensures a == b {
      assert a in rs && b in rs;
      CompareIgnoreCaseZero(a.fields[field].s, b.fields[field].s);
    }
  }

  /** Distinct records with different small numbers never tie. */
  lemma DistinctNumbersNoTies(rs: seq<Record>, owner: string, field: string)
    requires AllSmallNumbers(rs, owner, field)
    requires forall a, b | a in rs && b in rs && a != b :: IntValue(a.fields[field]) != IntValue(b.fields[field])
    ensures NoTies(rs, owner, field)
  {
    forall a, b | a in Dom(rs) && b in Dom(rs) && Sorter(true, owner, field)(a, b) == Ok(0) ensures a == b {
      assert a in rs && b in rs;
    }
  }

  /** With no ties, `descendingBy` gives the reverse of `ascendingBy`. */
  lemma DescendingReversesAscending(results: seq<Record>, field: string)
    requires results != [] && Comparable(results, results[0].className, field)
    requires NoTies(results, results[0].className, field)
    ensures SortedBy(results, field, true).Ok? && SortedBy(results, field, false).Ok?
    ensures SortedBy(results, field, false).value == Reversed(SortedBy(results, field, true).value)
  {
    var owner := results[0].className;
    assert field in results[0].fields by {
      assert results[0] in results;
    }
    ConsistentSorters(results, owner, field);
    DescendingIsSwapped(results, owner, field);
    forall x | x in results ensures x in Dom(results) { }
    SortSwappedIsReversed(results, Sorter(true, owner, field), Sorter(false, owner, field), Dom(results));
  }

  /** When no record holds a string or a number in the field, every comparison is 0 and the order is kept. */
  lemma SortedByUnorderable(results: seq<Record>, field: string, ascending: bool)
    requires results != [] && field in results[0].fields
    requires forall r | r in results && field in r.fields :: !r.fields[field].Str? && !IsNumber(r.fields[field])
    ensures SortedBy(results, field, ascending) == Ok(results)
  {
    var cmp := Sorter(ascending, results[0].className, field);
    forall a, b | a in results && b in results ensures cmp(a, b) == Ok(0) { }
    SortOfTies(results, cmp);
  }

  /**
   * A string in one record and a number in the other: `compare` throws a
   * ClassCastException whichever comes first, so the sort fails.
   */
  lemma SortedByStringAgainstNumber(a: Record, b: Record, field: string, ascending: bool)
    requires a.className == b.className && field in a.fields && field in b.fields
    requires a.fields[field].Str? && IsNumber(b.fields[field])
    ensures Sorter(ascending, a.className, field)(b, a) == Fail(ClassCast)
    ensures SortedBy([a, b], field, ascending) == Fail(SortFailed(ascending, ClassCast))
  {
    var cmp := Sorter(ascending, a.className, field);
    assert cmp(a, b) == Fail(ClassCast);
    SortPairFails(a, b, cmp);
  }

  /**
   * Numbers compare by `intValue` alone: two numbers that truncate to the
   * same int (3.7 and 3.2) tie and keep their order, in either direction.
   */
  lemma SortedByIntValueTies(a: Record, b: Record, field: string, ascending: bool)
    requires a.className == b.className && field in a.fields && field in b.fields
    requires IsNumber(a.fields[field]) && IsNumber(b.fields[field])
    requires IntValue(a.fields[field]) == IntValue(b.fields[field])
    ensures SortedBy([a, b], field, ascending) == Ok([a, b])
  {
    var cmp := Sorter(ascending, a.className, field);
    assert cmp(a, b) == Ok(0);
    SortPairKeeps(a, b, cmp);
  }

  /** Two numbers whose `intValue`s are out of order (3.7 before 1.2) are swapped by the ascending sort. */
  lemma SortedByIntValueSwaps(a: Record, b: Record, field: string)
    requires a.className == b.className && field in a.fields && field in b.fields
    requires IsNumber(a.fields[field]) && IsNumber(b.fields[field])
    requires -SMALL <= IntValue(b.fields[field]) < IntValue(a.fields[field]) < SMALL
    ensures SortedBy([a, b], field, true) == Ok([b, a])
  {
    var cmp := Sorter(true, a.className, field);
    assert cmp(a, b) == Ok(IntValue(a.fields[field]) - IntValue(b.fields[field]));
    SortPairSwaps(a, b, cmp);
  }

  // ---------------------------------------------------------------------
  // The result set object

  class ResultSet {
    var results: seq<Record>

    constructor ()
      ensures results == []
    {
      results := [];
    }

    /** `or`: a new set holding this set's results, then those of `other` this set does not contain. */
    method Or(other: ResultSet) returns (sum: ResultSet)
      ensures fresh(sum)
      ensures sum.results == results + Missing(results, other.results)
    {
      sum := new ResultSet();
      sum.results := sum.results + results;
      var i := 0;
      while i < |other.results|
        invariant 0 <= i <= |other.results|
        invariant sum.results == results + Missing(results, other.results[..i])
      {
        var x := other.results[i];
        assert other.results[..i + 1][..i] == other.results[..i];
        if x !in results {
          sum.results := sum.results + [x];
        }
        i := i + 1;
      }
      assert other.results[..i] == other.results;
    }

    /** `and`: a new set holding the results of `other` this set contains. */
    method And(other: ResultSet) returns (sum: ResultSet)
      ensures fresh(sum)
      ensures sum.results == Shared(results, other.results)
    {
      sum := new ResultSet();
      var i := 0;
      while i < |other.results|
        invariant 0 <= i <= |other.results|
        invariant sum.results == Shared(results, other.results[..i])
      {
        var x := other.results[i];
        assert other.results[..i + 1][..i] == other.results[..i];
        if x in results {
          sum.results := sum.results + [x];
        }
        i := i + 1;
      }
      assert other.results[..i] == other.results;
    }

    /** `ascendingBy`: a sorted copy; this set is left as it is. */
    method AscendingBy(field: string) returns (r: Result<ResultSet>)
      ensures SortedBy(results, field, true).Ok? ==>
        r.Ok? && fresh(r.value) && r.value.results == SortedBy(results, field, true).value
      ensures SortedBy(results, field, true).Fail? ==> r == Fail(SortedBy(results, field, true).error)
    {
      r := SortCopy(field, true);
    }

    /** `descendingBy`: a sorted copy; this set is left as it is. */
    method DescendingBy(field: string) returns (r: Result<ResultSet>)
      ensures SortedBy(results, field, false).Ok? ==>
        r.Ok? && fresh(r.value) && r.value.results == SortedBy(results, field, false).value
      ensures SortedBy(results, field, false).Fail? ==> r == Fail(SortedBy(results, field, false).error)
    {
      r := SortCopy(field, false);
    }

    /** The body both sorts share: copy the list, look the field up in the first element's class, sort the copy. */
    method SortCopy(field: string, ascending: bool) returns (r: Result<ResultSet>)
      ensures SortedBy(results, field, ascending).Ok? ==>
        r.Ok? && fresh(r.value) && r.value.results == SortedBy(results, field, ascending).value
      ensures SortedBy(results, field, ascending).Fail? ==> r == Fail(SortedBy(results, field, ascending).error)
    {
      var sorted := new ResultSet();
      sorted.results := sorted.results + results;
      assert sorted.results == results;
      if results != [] {
        if field !in results[0].fields {
          return Fail(SortFailed(ascending, NoSuchField(field)));
        }
        var outcome := Sort(sorted.results, Sorter(ascending, results[0].className, field));
        if outcome.Fail? {
          return Fail(SortFailed(ascending, outcome.error));
        }
        sorted.results := outcome.value;
      }
      r := Ok(sorted);
    }
  }
}
