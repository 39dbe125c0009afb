/** Ascending enumeration of finite sets, the model of Python's `sorted` over distinct keys
    and of the order in which Redis lists a sorted set. */
module Sorting {

  ghost predicate StrictTotal<T(!new)>(less: (T, T) -> bool)
  {
    && (forall x :: !less(x, x))
    && (forall x, y :: x == y || less(x, y) || less(y, x))
    && (forall x, y, z :: less(x, y) && less(y, z) ==> less(x, z))
  }

  ghost predicate StrictOrder<T(!new)>(less: (T, T) -> bool)
  {
    && (forall x :: !less(x, x))
    && (forall x, y, z :: less(x, y) && less(y, z) ==> less(x, z))
  }

  ghost predicate Ascending<T(!new)>(less: (T, T) -> bool, s: seq<T>)
  {
    forall i, j :: 0 <= i < j < |s| ==> less(s[i], s[j])
  }

  lemma {:induction false} LeastExists<T(!new)>(less: (T, T) -> bool, s: set<T>) returns (m: T)
    requires StrictTotal(less) && s != {}
    ensures m in s && forall x :: x in s && x != m ==> less(m, x)
    decreases |s|
  {
    var x :| x in s;
    var rest := s - {x};
    if rest == {} {
      m := x;
      assert s == {x};
    } else {
      var n := LeastExists(less, rest);
      m := if less(x, n) then x else n;
      forall y | y in s && y != m ensures less(m, y) { assert y == x || y in rest; }
    }
  }

  lemma AscendingCons<T(!new)>(less: (T, T) -> bool, m: T, rest: seq<T>)
    requires Ascending(less, rest) && forall x :: x in rest ==> less(m, x)
    ensures Ascending(less, [m] + rest)
  {
  }

  /** The unique ascending sequence of the elements of `s`. */
  function Sort<T(==, !new)>(less: (T, T) -> bool, s: set<T>): (r: seq<T>)
    requires StrictTotal(less)
    ensures Ascending(less, r) && |r| == |s|
    ensures forall x :: x in r <==> x in s
    decreases |s|
  {
    if s == {} then []
    else
      assert exists m :: m in s && forall x :: x in s && x != m ==> less(m, x) by {
        var m := LeastExists(less, s);
      }
      var m :| m in s && forall x :: x in s && x != m ==> less(m, x);
      var rest := Sort(less, s - {m});
      AscendingCons(less, m, rest);
      [m] + rest
  }

  lemma FirstIsLeast<T(!new)>(less: (T, T) -> bool, sorted: seq<T>)
    requires StrictTotal(less) && Ascending(less, sorted) && sorted != []
    ensures forall y :: y in sorted ==> !less(y, sorted[0])
    ensures sorted[0] !in sorted[1..]
  {
    forall y | y in sorted ensures !less(y, sorted[0]) {
      var j :| 0 <= j < |sorted| && sorted[j] == y;
      if j > 0 { assert less(sorted[0], sorted[j]); }
    }
    forall j | 0 <= j < |sorted[1..]| ensures sorted[1..][j] != sorted[0] { assert less(sorted[0], sorted[j + 1]); }
  }

  /** All but the least element come after some other one. */
  lemma TailIff<T(!new)>(less: (T, T) -> bool, s: set<T>, x: T)
    requires StrictTotal(less) && x in s
    ensures Sort(less, s) != [] && (x in Sort(less, s)[1..] <==> exists y :: y in s && less(y, x))
  {
    var sorted := Sort(less, s);
    var i :| 0 <= i < |sorted| && sorted[i] == x;
    FirstIsLeast(less, sorted);
    if i > 0 {
      assert sorted[1..][i - 1] == x;
      assert sorted[0] in s && less(sorted[0], x);
    }
  }

  /** Two ascending sequences with the same elements are the same sequence. */
  lemma {:induction false} AscendingIsUnique<T(!new)>(less: (T, T) -> bool, a: seq<T>, b: seq<T>)
    requires StrictOrder(less) && Ascending(less, a) && Ascending(less, b)
    requires forall x :: x in a <==> x in b
    ensures a == b
    decreases |a|
  {
    assert a != [] ==> a[0] in b;
    assert b != [] ==> b[0] in a;
    if a != [] && b != [] {
      var i :| 0 <= i < |b| && b[i] == a[0];
      var j :| 0 <= j < |a| && a[j] == b[0];
      assert a[0] == b[0];
      forall x ensures x in a[1..] <==> x in b[1..] {
        if x in a[1..] {
          var k :| 0 <= k < |a[1..]| && a[1..][k] == x;
          assert less(a[0], a[k + 1]);
          assert x in b && x != b[0];
        }
        if x in b[1..] {
          var k :| 0 <= k < |b[1..]| && b[1..][k] == x;
          assert less(b[0], b[k + 1]);
          assert x in a && x != a[0];
        }
      }
      AscendingIsUnique(less, a[1..], b[1..]);
      assert a == [a[0]] + a[1..] && b == [b[0]] + b[1..];
    }
  }

  /** Python's `sorted` of a list, by a key that is different for each of its elements. */
  function SortList<T(!new)>(less: (T, T) -> bool, s: seq<T>): (r: seq<T>)
    ensures |r| == |s| && forall x :: x in r <==> x in s
  {
    if s == [] then [] else Insert(less, s[0], SortList(less, s[1..]))
  }

  function Insert<T(!new)>(less: (T, T) -> bool, x: T, s: seq<T>): (r: seq<T>)
    ensures |r| == |s| + 1 && forall y :: y in r <==> y in s || y == x
  {
    if s == [] || less(x, s[0]) then [x] + s else [s[0]] + Insert(less, x, s[1..])
  }

  ghost predicate Comparable<T(!new)>(less: (T, T) -> bool, s: seq<T>)
  {
    forall i, j :: 0 <= i < j < |s| ==> less(s[i], s[j]) || less(s[j], s[i])
  }

  lemma {:induction false} InsertKeepsAscending<T(!new)>(less: (T, T) -> bool, x: T, s: seq<T>)
    requires StrictOrder(less) && Ascending(less, s) && forall y :: y in s ==> less(x, y) || less(y, x)
    ensures Ascending(less, Insert(less, x, s))
  {
    if s != [] && !less(x, s[0]) {
      InsertKeepsAscending(less, x, s[1..]);
      var rest := Insert(less, x, s[1..]);
      forall y | y in rest ensures less(s[0], y) {
        if y in s[1..] {
          var k :| 0 <= k < |s[1..]| && s[1..][k] == y;
          assert less(s[0], s[k + 1]);
        }
      }
    }
  }

  lemma {:induction false} SortListIsAscending<T(!new)>(less: (T, T) -> bool, s: seq<T>)
    requires StrictOrder(less) && Comparable(less, s)
    ensures Ascending(less, SortList(less, s))
  {
    if s != [] {
      assert forall i :: 0 <= i < |s[1..]| ==> s[1..][i] == s[i + 1];
      SortListIsAscending(less, s[1..]);
      forall y | y in SortList(less, s[1..]) ensures less(s[0], y) || less(y, s[0]) {
        var k :| 0 <= k < |s[1..]| && s[1..][k] == y;
        assert less(s[0], s[k + 1]) || less(s[k + 1], s[0]);
      }
      InsertKeepsAscending(less, s[0], SortList(less, s[1..]));
    }
  }

  function Filter<T(!new)>(keep: T -> bool, s: seq<T>): (r: seq<T>)
    ensures forall x :: x in r <==> x in s && keep(x)
    ensures |r| <= |s|
  {
    if s == [] then []
    else if keep(s[0]) then [s[0]] + Filter(keep, s[1..])
    else Filter(keep, s[1..])
  }

  lemma {:induction false} FilterKeepsAscending<T(!new)>(less: (T, T) -> bool, keep: T -> bool, s: seq<T>)
    requires Ascending(less, s)
    ensures Ascending(less, Filter(keep, s))
  {
    if s != [] {
      FilterKeepsAscending(less, keep, s[1..]);
      var rest := Filter(keep, s[1..]);
      forall x | x in rest ensures less(s[0], x) {
        assert x in s[1..];
        var k :| 0 <= k < |s[1..]| && s[1..][k] == x;
        assert less(s[0], s[k + 1]);
      }
    }
  }

  function Reverse<T>(s: seq<T>): (r: seq<T>)
    ensures |r| == |s| && forall i :: 0 <= i < |s| ==> r[i] == s[|s| - 1 - i]
  {
    if s == [] then [] else Reverse(s[1..]) + [s[0]]
  }

  lemma {:induction false} FilterOfReverse<T(!new)>(keep: T -> bool, s: seq<T>)
    ensures Filter(keep, Reverse(s)) == Reverse(Filter(keep, s))
  {
    if s != [] {
      FilterOfReverse(keep, s[1..]);
      FilterAppend(keep, Reverse(s[1..]), [s[0]]);
    }
  }

  lemma {:induction false} FilterAppend<T(!new)>(keep: T -> bool, a: seq<T>, b: seq<T>)
    ensures Filter(keep, a + b) == Filter(keep, a) + Filter(keep, b)
  {
    if a == [] {
      assert a + b == b;
    } else {
      assert (a + b)[0] == a[0] && (a + b)[1..] == a[1..] + b;
      FilterAppend(keep, a[1..], b);
    }
  }

  lemma FilterSnoc<T(!new)>(keep: T -> bool, s: seq<T>, x: T)
    ensures Filter(keep, s + [x]) == if keep(x) then Filter(keep, s) + [x] else Filter(keep, s)
  {
    FilterAppend(keep, s, [x]);
    assert Filter(keep, s) + [] == Filter(keep, s);
  }

  function Take<T>(s: seq<T>, n: nat): seq<T> { if |s| <= n then s else s[..n] }

  /** What a truncated ascending list leaves out comes after everything it keeps. */
  lemma TakeOfAscending<T(!new)>(less: (T, T) -> bool, s: seq<T>, n: nat, x: T)
    requires Ascending(less, s) && x in s && x !in Take(s, n)
    ensures |Take(s, n)| == n && forall q :: q in Take(s, n) ==> less(q, x)
  {
    var k :| 0 <= k < |s| && s[k] == x;
    var t := Take(s, n);
    assert forall i :: 0 <= i < |t| ==> t[i] != x;
    forall q | q in t ensures less(q, x) {
      var i :| 0 <= i < |t| && t[i] == q;
      assert less(s[i], s[k]);
    }
  }
}
