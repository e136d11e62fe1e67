/**
 * `Collections.sort` with a comparator that may throw, as the result sets
 * use it: a stable sort of a list. It is modelled as insertion sort, which
 * inserts each element after every element that does not compare greater
 * than it; a comparator failure aborts the sort.
 */
module Sorting {
  import opened Errors

  /** `x` inserted into `ys`, scanning from the end. */
  function Insert<T>(x: T, ys: seq<T>, cmp: (T, T) -> Result<int>): (r: Result<seq<T>>)
    ensures r.Ok? ==> multiset(r.value) == multiset(ys) + multiset{x}
  {
    if ys == [] then Ok([x])
    else
      var last := ys[|ys| - 1];
      match cmp(last, x)
      case Fail(e) => Fail(e)
      case Ok(c) =>
        if c <= 0 then Ok(ys + [x])
        else
          match Insert(x, ys[..|ys| - 1], cmp)
          case Fail(e) => Fail(e)
          case Ok(zs) =>
            assert ys == ys[..|ys| - 1] + [last];
            Ok(zs + [last])
  }

  /** The list sorted by `cmp`, or the first failure of a comparison. */
  function Sort<T>(xs: seq<T>, cmp: (T, T) -> Result<int>): (r: Result<seq<T>>)
    ensures r.Ok? ==> multiset(r.value) == multiset(xs)
  {
    if xs == [] then Ok([])
    else
      match Sort(xs[..|xs| - 1], cmp)
      case Fail(e) => Fail(e)
      case Ok(s) =>
        assert xs == xs[..|xs| - 1] + [xs[|xs| - 1]];
        Insert(xs[|xs| - 1], s, cmp)
  }

  function Sign(n: int): int { if n < 0 then -1 else if n > 0 then 1 else 0 }

  /**
   * The contract of `Comparator`, on the elements of `dom`: every
   * comparison succeeds, swapping the arguments flips the sign, and "not
   * greater" is transitive.
   */
  ghost predicate ConsistentOn<T>(dom: set<T>, cmp: (T, T) -> Result<int>)
  {
    && (forall a, b | a in dom && b in dom :: cmp(a, b).Ok?)
    && (forall a, b | a in dom && b in dom :: Sign(cmp(a, b).value) == -Sign(cmp(b, a).value))
    && (forall a, b, c | a in dom && b in dom && c in dom && cmp(a, b).value <= 0 && cmp(b, c).value <= 0 ::
          cmp(a, c).value <= 0)
  }

  /** Every pair in order, by `cmp`. */
  ghost predicate Sorted<T>(s: seq<T>, cmp: (T, T) -> Result<int>)
  {
    forall i, j | 0 <= i < j < |s| :: cmp(s[i], s[j]).Ok? && cmp(s[i], s[j]).value <= 0
  }

  /** The elements of `s` that compare equal to `k`, in their order in `s`. */
  function Ties<T>(s: seq<T>, k: T, cmp: (T, T) -> Result<int>): seq<T>
  {
    if s == [] then []
    else Ties(s[..|s| - 1], k, cmp) + (if cmp(s[|s| - 1], k) == Ok(0) then [s[|s| - 1]] else [])
  }

  lemma TiesSnoc<T>(s: seq<T>, x: T, k: T, cmp: (T, T) -> Result<int>)
    ensures Ties(s + [x], k, cmp) == Ties(s, k, cmp) + (if cmp(x, k) == Ok(0) then [x] else [])
  {
    assert (s + [x])[..|s|] == s;
  }

  lemma {:induction false} InsertSucceeds<T>(x: T, ys: seq<T>, cmp: (T, T) -> Result<int>, dom: set<T>)
    requires ConsistentOn(dom, cmp) && x in dom && forall y | y in ys :: y in dom
    ensures Insert(x, ys, cmp).Ok?
  {
    if ys != [] {
      InsertSucceeds(x, ys[..|ys| - 1], cmp, dom);
    }
  }

  /** With a consistent comparator the sort never fails. */
  lemma {:induction false} SortSucceeds<T>(xs: seq<T>, cmp: (T, T) -> Result<int>, dom: set<T>)
    requires ConsistentOn(dom, cmp) && forall x | x in xs :: x in dom
    ensures Sort(xs, cmp).Ok?
  {
    if xs != [] {
      SortSucceeds(xs[..|xs| - 1], cmp, dom);
      var s := Sort(xs[..|xs| - 1], cmp).value;
      forall y | y in s ensures y in dom {
        assert y in multiset(s);
      }
      InsertSucceeds(xs[|xs| - 1], s, cmp, dom);
    }
  }

  /** Appending an element not smaller than the last keeps a list ordered. */
  lemma SnocSorted<T>(ys: seq<T>, x: T, cmp: (T, T) -> Result<int>, dom: set<T>)
    requires ConsistentOn(dom, cmp) && x in dom && forall y | y in ys :: y in dom
    requires Sorted(ys, cmp) && ys != [] && cmp(ys[|ys| - 1], x).value <= 0
    ensures Sorted(ys + [x], cmp)
  {
    var r := ys + [x];
    forall i, j | 0 <= i < j < |r| ensures cmp(r[i], r[j]).Ok? && cmp(r[i], r[j]).value <= 0 {
      if j == |ys| && i < |ys| - 1 {
        assert cmp(ys[i], ys[|ys| - 1]).value <= 0;
      }
    }
  }

  /** Appending an element that every element is not greater than keeps a list ordered. */
  lemma SnocAbove<T>(zs: seq<T>, last: T, cmp: (T, T) -> Result<int>)
    requires Sorted(zs, cmp) && forall z | z in zs :: cmp(z, last).Ok? && cmp(z, last).value <= 0
    ensures Sorted(zs + [last], cmp)
  {
    var r := zs + [last];
    forall i, j | 0 <= i < j < |r| ensures cmp(r[i], r[j]).Ok? && cmp(r[i], r[j]).value <= 0 {
      if j == |zs| {
        assert r[i] == zs[i];
      } else {
        assert r[i] == zs[i] && r[j] == zs[j];
      }
    }
  }

  /** Every element of `zs`, a permutation of `init` plus `x`, is not greater than `last`. */
  lemma BelowLast<T>(zs: seq<T>, init: seq<T>, x: T, last: T, cmp: (T, T) -> Result<int>, dom: set<T>)
    requires ConsistentOn(dom, cmp) && x in dom && last in dom && forall y | y in init :: y in dom
    requires Sorted(init + [last], cmp) && cmp(last, x).value > 0
    requires multiset(zs) == multiset(init) + multiset{x}
    ensures forall z | z in zs :: cmp(z, last).Ok? && cmp(z, last).value <= 0
  {
    assert Sign(cmp(last, x).value) == -Sign(cmp(x, last).value);
    forall z | z in zs ensures cmp(z, last).Ok? && cmp(z, last).value <= 0 {
      assert z in multiset(init) + multiset{x} by {
        assert z in multiset(zs);
      }
      if z != x {
        var k :| 0 <= k < |init| && init[k] == z;
        assert (init + [last])[k] == z && (init + [last])[|init|] == last;
      }
    }
  }

  lemma {:induction false} InsertSorted<T>(x: T, ys: seq<T>, cmp: (T, T) -> Result<int>, dom: set<T>)
    requires ConsistentOn(dom, cmp) && x in dom && forall y | y in ys :: y in dom
    requires Sorted(ys, cmp)
    ensures Insert(x, ys, cmp).Ok? && Sorted(Insert(x, ys, cmp).value, cmp)
  {
    InsertSucceeds(x, ys, cmp, dom);
    if ys != [] {
      var init, last := ys[..|ys| - 1], ys[|ys| - 1];
      if cmp(last, x).value <= 0 {
        SnocSorted(ys, x, cmp, dom);
      } else {
        assert ys == init + [last];
        assert Sorted(init, cmp) by {
          forall i, j | 0 <= i < j < |init| ensures cmp(init[i], init[j]).Ok? && cmp(init[i], init[j]).value <= 0 {
            assert init[i] == ys[i] && init[j] == ys[j];
          }
        }
        InsertSorted(x, init, cmp, dom);
        var zs := Insert(x, init, cmp).value;
        BelowLast(zs, init, x, last, cmp, dom);
        SnocAbove(zs, last, cmp);
      }
    }
  }

  /** The sorted list is ordered by the comparator. */
  lemma {:induction false} SortSorted<T>(xs: seq<T>, cmp: (T, T) -> Result<int>, dom: set<T>)
    requires ConsistentOn(dom, cmp) && forall x | x in xs :: x in dom
    ensures Sort(xs, cmp).Ok? && Sorted(Sort(xs, cmp).value, cmp)
  {
    SortSucceeds(xs, cmp, dom);
    if xs != [] {
      SortSorted(xs[..|xs| - 1], cmp, dom);
      var s := Sort(xs[..|xs| - 1], cmp).value;
      forall y | y in s ensures y in dom {
        assert y in multiset(s);
      }
      InsertSorted(xs[|xs| - 1], s, cmp, dom);
    }
  }

  /** Two elements that tie with the same `k` tie with each other. */
  lemma TiesTie<T>(a: T, b: T, k: T, cmp: (T, T) -> Result<int>, dom: set<T>)
    requires ConsistentOn(dom, cmp) && a in dom && b in dom && k in dom
    ensures cmp(a, k) == Ok(0) && cmp(b, k) == Ok(0) ==> cmp(a, b) == Ok(0)
  {
    assert Sign(cmp(k, b).value) == -Sign(cmp(b, k).value);
    assert Sign(cmp(k, a).value) == -Sign(cmp(a, k).value);
    assert Sign(cmp(a, b).value) == -Sign(cmp(b, a).value);
    if cmp(a, k) == Ok(0) && cmp(b, k) == Ok(0) {
      assert cmp(a, b).value <= 0;
      assert cmp(b, a).value <= 0;
    }
  }

  /** One step of `Insert`: `x` goes after the last element, or the last element goes after `x`'s insertion into the rest. */
  lemma InsertLast<T>(x: T, ys: seq<T>, cmp: (T, T) -> Result<int>)
    requires ys != [] && cmp(ys[|ys| - 1], x).Ok?
    ensures cmp(ys[|ys| - 1], x).value <= 0 ==> Insert(x, ys, cmp) == Ok(ys + [x])
    ensures cmp(ys[|ys| - 1], x).value > 0 && Insert(x, ys[..|ys| - 1], cmp).Ok? ==>
      Insert(x, ys, cmp) == Ok(Insert(x, ys[..|ys| - 1], cmp).value + [ys[|ys| - 1]])
  {
  }

  lemma InsertStable<T>(x: T, ys: seq<T>, k: T, cmp: (T, T) -> Result<int>, dom: set<T>)
    requires ConsistentOn(dom, cmp) && x in dom && k in dom && forall y | y in ys :: y in dom
    ensures Insert(x, ys, cmp).Ok?
    ensures Ties(Insert(x, ys, cmp).value, k, cmp) == Ties(ys, k, cmp) + (if cmp(x, k) == Ok(0) then [x] else [])
  {
    forall i | 0 <= i < |ys|
      ensures cmp(ys[i], x).Ok?
      ensures cmp(ys[i], x).value > 0 ==> cmp(ys[i], k) != Ok(0) || cmp(x, k) != Ok(0)
    {
      // an element greater than x cannot tie with k when x does
      TiesTie(ys[i], x, k, cmp, dom);
    }
    InsertStableCore(x, ys, k, cmp);
  }

  /** Stability of one insertion, from the comparisons it makes: `x` never passes an element it ties with. */
  lemma {:induction false} InsertStableCore<T>(x: T, ys: seq<T>, k: T, cmp: (T, T) -> Result<int>)
    requires forall i | 0 <= i < |ys| :: cmp(ys[i], x).Ok?
    requires forall i | 0 <= i < |ys| :: cmp(ys[i], x).value > 0 ==> cmp(ys[i], k) != Ok(0) || cmp(x, k) != Ok(0)
    ensures Insert(x, ys, cmp).Ok?
    ensures Ties(Insert(x, ys, cmp).value, k, cmp) == Ties(ys, k, cmp) + (if cmp(x, k) == Ok(0) then [x] else [])
  {
    if ys == [] {
      TiesSnoc([], x, k, cmp);
    } else {
      var init, last := ys[..|ys| - 1], ys[|ys| - 1];
      SplitLast(ys);
      if cmp(last, x).value <= 0 {
        InsertLast(x, ys, cmp);
        TiesSnoc(ys, x, k, cmp);
      } else {
        assert forall i | 0 <= i < |init| :: init[i] == ys[i];
        InsertStableCore(x, init, k, cmp);
        InsertLast(x, ys, cmp);
        TiesSnoc(Insert(x, init, cmp).value, last, k, cmp);
        TiesSnoc(init, last, k, cmp);
      }
    }
  }

  lemma SplitLast<T>(xs: seq<T>)
    requires xs != []
    ensures xs == xs[..|xs| - 1] + [xs[|xs| - 1]]
  {
  }

  /** Stability: the elements that tie with any `k` keep their input order. */
  lemma {:induction false} SortStable<T>(xs: seq<T>, k: T, cmp: (T, T) -> Result<int>, dom: set<T>)
    requires ConsistentOn(dom, cmp) && k in dom && forall x | x in xs :: x in dom
    ensures Sort(xs, cmp).Ok? && Ties(Sort(xs, cmp).value, k, cmp) == Ties(xs, k, cmp)
  {
    SortSucceeds(xs, cmp, dom);
    if xs != [] {
      var init, x := xs[..|xs| - 1], xs[|xs| - 1];
      SortStable(init, k, cmp, dom);
      var s := Sort(init, cmp).value;
      forall y | y in s ensures y in dom {
        assert y in multiset(s);
      }
      InsertStable(x, s, k, cmp, dom);
      SplitLast(xs);
      TiesSnoc(init, x, k, cmp);
    }
  }

  /** A pair whose comparison fails cannot be sorted. */
  lemma SortPairFails<T>(x: T, y: T, cmp: (T, T) -> Result<int>)
    requires cmp(x, y).Fail?
    ensures Sort([x, y], cmp) == Fail(cmp(x, y).error)
  {
    assert [x, y][..1] == [x] && [x][..0] == [];
    assert Sort([x], cmp) == Ok([x]);
  }

  /** Two elements the comparison does not put in reverse stay as they are. */
  lemma SortPairKeeps<T>(x: T, y: T, cmp: (T, T) -> Result<int>)
    requires cmp(x, y).Ok? && cmp(x, y).value <= 0
    ensures Sort([x, y], cmp) == Ok([x, y])
  {
    assert [x, y][..1] == [x] && [x][..0] == [];
    assert Sort([x], cmp) == Ok([x]);
    assert [x] + [y] == [x, y];
  }

  /** Two elements the comparison puts in reverse are swapped. */
  lemma SortPairSwaps<T>(x: T, y: T, cmp: (T, T) -> Result<int>)
    requires cmp(x, y).Ok? && cmp(x, y).value > 0
    ensures Sort([x, y], cmp) == Ok([y, x])
  {
    assert [x, y][..1] == [x] && [x][..0] == [];
    assert Sort([x], cmp) == Ok([x]);
    assert Insert(y, [], cmp) == Ok([y]);
    assert [y] + [x] == [y, x];
  }

  /** When every comparison is a tie, sorting leaves the list as it is. */
  lemma {:induction false} SortOfTies<T>(xs: seq<T>, cmp: (T, T) -> Result<int>)
    requires forall a, b | a in xs && b in xs :: cmp(a, b) == Ok(0)
    ensures Sort(xs, cmp) == Ok(xs)
  {
    if xs != [] {
      var init, x := xs[..|xs| - 1], xs[|xs| - 1];
      SortOfTies(init, cmp);
      assert xs == init + [x];
      if init != [] {
        assert init[|init| - 1] in xs;
      }
    }
  }

  /** The head of an ordered list is not greater than any of its elements. */
  lemma HeadNotGreater<T>(s: seq<T>, x: T, cmp: (T, T) -> Result<int>, dom: set<T>)
    requires ConsistentOn(dom, cmp) && s != [] && s[0] in dom
    requires Sorted(s, cmp) && x in s
    ensures cmp(s[0], x).value <= 0
  {
    var i :| 0 <= i < |s| && s[i] == x;
    if i == 0 {
      assert Sign(cmp(x, x).value) == -Sign(cmp(x, x).value);
    } else {
      assert cmp(s[0], s[i]).value <= 0;
    }
  }

  lemma SortedTail<T>(s: seq<T>, cmp: (T, T) -> Result<int>)
    requires s != [] && Sorted(s, cmp)
    ensures Sorted(s[1..], cmp)
  {
    forall i, j | 0 <= i < j < |s[1..]| ensures cmp(s[1..][i], s[1..][j]).Ok? && cmp(s[1..][i], s[1..][j]).value <= 0 {
      assert s[1..][i] == s[i + 1] && s[1..][j] == s[j + 1];
    }
  }

  lemma TailMultiset<T>(s: seq<T>)
    requires s != []
    ensures multiset(s[1..]) == multiset(s) - multiset{s[0]}
  {
    assert s == [s[0]] + s[1..];
  }

  lemma SameHead<T>(s: seq<T>, t: seq<T>, cmp: (T, T) -> Result<int>, dom: set<T>)
    requires ConsistentOn(dom, cmp) && forall x | x in s :: x in dom
    requires forall a, b | a in dom && b in dom && cmp(a, b) == Ok(0) :: a == b
    requires s != [] && multiset(s) == multiset(t) && Sorted(s, cmp) && Sorted(t, cmp)
    ensures t != [] && s[0] == t[0]
  {
    var x := s[0];
    assert x in multiset(t);
    var y := t[0];
    assert y in multiset(s);
    HeadNotGreater(t, x, cmp, dom);
    HeadNotGreater(s, y, cmp, dom);
    assert Sign(cmp(x, y).value) == -Sign(cmp(y, x).value);
  }

  lemma SameTails<T>(s: seq<T>, t: seq<T>, cmp: (T, T) -> Result<int>, dom: set<T>)
    requires forall x | x in s :: x in dom
    requires s != [] && t != [] && s[0] == t[0]
    requires multiset(s) == multiset(t) && Sorted(s, cmp) && Sorted(t, cmp)
    ensures forall x | x in s[1..] :: x in dom
    ensures multiset(s[1..]) == multiset(t[1..]) && Sorted(s[1..], cmp) && Sorted(t[1..], cmp)
  {
    TailMultiset(s);
    TailMultiset(t);
    SortedTail(s, cmp);
    SortedTail(t, cmp);
    forall z | z in s[1..] ensures z in dom {
      assert z in s;
    }
  }

  /** Two lists with the same elements, both in order by a comparator without ties, are equal. */
  lemma {:induction false} SortedUnique<T>(s: seq<T>, t: seq<T>, cmp: (T, T) -> Result<int>, dom: set<T>)
    requires ConsistentOn(dom, cmp) && forall x | x in s :: x in dom
    requires forall a, b | a in dom && b in dom && cmp(a, b) == Ok(0) :: a == b
    requires multiset(s) == multiset(t) && Sorted(s, cmp) && Sorted(t, cmp)
    ensures s == t
  {
    if s != [] {
      SameHead(s, t, cmp, dom);
      SameTails(s, t, cmp, dom);
      SortedUnique(s[1..], t[1..], cmp, dom);
      assert s == [s[0]] + s[1..] && t == [t[0]] + t[1..];
    }
  }

  function Reversed<T>(s: seq<T>): (r: seq<T>)
    ensures |r| == |s| && forall i | 0 <= i < |s| :: r[i] == s[|s| - 1 - i]
  {
    if s == [] then [] else Reversed(s[1..]) + [s[0]]
  }

  lemma {:induction false} ReversedMultiset<T>(s: seq<T>)
    ensures multiset(Reversed(s)) == multiset(s)
  {
    if s != [] {
      ReversedMultiset(s[1..]);
      assert s == [s[0]] + s[1..];
    }
  }

  /** Swapping the arguments of a consistent comparator keeps it consistent. */
  lemma SwappedConsistent<T>(cmp: (T, T) -> Result<int>, swapped: (T, T) -> Result<int>, dom: set<T>)
    requires ConsistentOn(dom, cmp)
    requires forall a, b | a in dom && b in dom :: swapped(a, b) == cmp(b, a)
    ensures ConsistentOn(dom, swapped)
  {
    forall a, b, c | a in dom && b in dom && c in dom && swapped(a, b).value <= 0 && swapped(b, c).value <= 0
      ensures swapped(a, c).value <= 0
    {
      assert cmp(c, b).value <= 0 && cmp(b, a).value <= 0;
    }
  }

  /** A list in order by a comparator is, reversed, in order by the swapped comparator. */
  lemma ReversedSorted<T>(s: seq<T>, cmp: (T, T) -> Result<int>, swapped: (T, T) -> Result<int>, dom: set<T>)
    requires forall x | x in s :: x in dom
    requires forall a, b | a in dom && b in dom :: swapped(a, b) == cmp(b, a)
    requires Sorted(s, cmp)
    ensures Sorted(Reversed(s), swapped)
  {
    var rev := Reversed(s);
    forall i, j | 0 <= i < j < |rev|
      ensures swapped(rev[i], rev[j]).Ok? && swapped(rev[i], rev[j]).value <= 0
    {
      assert rev[i] == s[|s| - 1 - i] && rev[j] == s[|s| - 1 - j];
      assert rev[i] in s && rev[j] in s;
    }
  }

  /**
   * Sorting by a comparator without ties, and by the same comparator with
   * its arguments swapped, gives lists that are each other's reverse.
   */
  lemma SortSwappedIsReversed<T>(xs: seq<T>, cmp: (T, T) -> Result<int>, swapped: (T, T) -> Result<int>, dom: set<T>)
    requires ConsistentOn(dom, cmp) && forall x | x in xs :: x in dom
    requires forall a, b | a in dom && b in dom && cmp(a, b) == Ok(0) :: a == b
    requires forall a, b | a in dom && b in dom :: swapped(a, b) == cmp(b, a)
    ensures Sort(xs, cmp).Ok? && Sort(xs, swapped).Ok?
    ensures Sort(xs, swapped).value == Reversed(Sort(xs, cmp).value)
  {
    SwappedConsistent(cmp, swapped, dom);
    SortSorted(xs, cmp, dom);
    SortSorted(xs, swapped, dom);
    var up, down := Sort(xs, cmp).value, Sort(xs, swapped).value;
    forall x | x in up ensures x in dom {
      assert x in multiset(up);
    }
    forall x | x in down ensures x in dom {
      assert x in multiset(down);
    }
    ReversedMultiset(up);
    ReversedSorted(up, cmp, swapped, dom);
    NoTiesSwapped(cmp, swapped, dom);
    SortedUnique(down, Reversed(up), swapped, dom);
  }

  lemma NoTiesSwapped<T>(cmp: (T, T) -> Result<int>, swapped: (T, T) -> Result<int>, dom: set<T>)
    requires forall a, b | a in dom && b in dom && cmp(a, b) == Ok(0) :: a == b
    requires forall a, b | a in dom && b in dom :: swapped(a, b) == cmp(b, a)
    ensures forall a, b | a in dom && b in dom && swapped(a, b) == Ok(0) :: a == b
  {
    forall a, b | a in dom && b in dom && swapped(a, b) == Ok(0) ensures a == b {
      assert cmp(b, a) == Ok(0);
    }
  }
}
