/**
 Lists kept strictly sorted by an order: the one theory behind every paginated
 list. `above(x, y)` says that x is listed before y.
 */
module Ordered {
  import opened Prelude

  ghost predicate TotalOrder<T(!new)>(above: (T, T) -> bool) {
    && (forall x :: !above(x, x))
    && (forall x, y, z :: above(x, y) && above(y, z) ==> above(x, z))
    && (forall x, y :: x == y || above(x, y) || above(y, x))
  }

  ghost predicate Sorted<T>(above: (T, T) -> bool, s: seq<T>) {
    forall i, j :: 0 <= i < j < |s| ==> above(s[i], s[j])
  }

  /** A property that, once it holds, holds for everything listed later. */
  ghost predicate DownClosed<T(!new)>(above: (T, T) -> bool, p: T -> bool) {
    forall x, y :: above(x, y) && p(x) ==> p(y)
  }

  function Filter<T(!new)>(p: T -> bool, s: seq<T>): (r: seq<T>)
    ensures |r| <= |s|
  {
    if s == [] then []
    else if p(s[0]) then [s[0]] + Filter(p, s[1..])
    else Filter(p, s[1..])
  }

  lemma {:induction false} FilterMembers<T(!new)>(p: T -> bool, s: seq<T>)
    ensures forall x :: x in Filter(p, s) <==> x in s && p(x)
  {
    if s != [] {
      FilterMembers(p, s[1..]);
    }
  }

  lemma {:induction false} FilterAll<T(!new)>(p: T -> bool, s: seq<T>)
    requires forall x :: x in s ==> p(x)
    ensures Filter(p, s) == s
  {
    if s != [] {
      FilterAll(p, s[1..]);
    }
  }

  lemma {:induction false} FilterNone<T(!new)>(p: T -> bool, s: seq<T>)
    requires forall x :: x in s ==> !p(x)
    ensures Filter(p, s) == []
  {
    if s != [] {
      FilterNone(p, s[1..]);
    }
  }

  lemma {:induction false} FilterConcat<T(!new)>(p: T -> bool, a: seq<T>, b: seq<T>)
    ensures Filter(p, a + b) == Filter(p, a) + Filter(p, b)
  {
    if a == [] {
      assert a + b == b;
    } else {
      assert (a + b)[1..] == a[1..] + b;
      FilterConcat(p, a[1..], b);
    }
  }

  lemma FilterSnoc<T(!new)>(p: T -> bool, s: seq<T>, x: T)
    ensures Filter(p, s + [x]) == Filter(p, s) + if p(x) then [x] else []
  {
    FilterConcat(p, s, [x]);
    assert Filter(p, [x][1..]) == [];
  }

  /** On a sorted list a down-closed filter keeps a suffix. */
  lemma {:induction false} FilterIsSuffix<T(!new)>(above: (T, T) -> bool, p: T -> bool, s: seq<T>) returns (k: nat)
    requires Sorted(above, s) && DownClosed(above, p)
    ensures k <= |s| && Filter(p, s) == s[k..]
    ensures forall i :: 0 <= i < k ==> !p(s[i])
    ensures forall i :: k <= i < |s| ==> p(s[i])
  {
    if s == [] {
      k := 0;
    } else if p(s[0]) {
      forall x | x in s ensures p(x) {
        var i :| 0 <= i < |s| && s[i] == x;
        if i > 0 { assert above(s[0], s[i]); }
      }
      FilterAll(p, s);
      k := 0;
    } else {
      var k' := FilterIsSuffix(above, p, s[1..]);
      k := k' + 1;
      assert s[1..][k'..] == s[k..];
      forall i | 0 <= i < k ensures !p(s[i]) {
        if i > 0 { assert s[1..][i - 1] == s[i]; }
      }
      forall i | k <= i < |s| ensures p(s[i]) {
        assert s[1..][i - 1] == s[i];
      }
    }
  }

  lemma SortedDistinct<T(!new)>(above: (T, T) -> bool, s: seq<T>)
    requires TotalOrder(above) && Sorted(above, s)
    ensures forall i, j :: 0 <= i < j < |s| ==> s[i] != s[j]
  {
  }

  ghost predicate Distinct<T>(s: seq<T>) {
    forall i, j :: 0 <= i < j < |s| ==> s[i] != s[j]
  }

  /** Distinct elements, all found in t, are at most |t| many. */
  lemma {:induction false} DistinctFit<T>(w: seq<T>, t: seq<T>)
    requires Distinct(w)
    requires forall x :: x in w ==> x in t
    ensures |w| <= |t|
  {
    if w != [] {
      var last := w[|w| - 1];
      assert last in t;
      var k :| 0 <= k < |t| && t[k] == last;
      var rest := t[..k] + t[k + 1..];
      forall x | x in w[..|w| - 1] ensures x in rest {
        var i :| 0 <= i < |w| - 1 && w[i] == x;
        assert x in t && x != last;
        var j :| 0 <= j < |t| && t[j] == x;
        assert x == if j < k then rest[j] else rest[j - 1];
      }
      DistinctFit(w[..|w| - 1], rest);
    }
  }

  /** Two sorted lists with the same elements are the same list. */
  lemma SortedUnique<T(!new)>(above: (T, T) -> bool, a: seq<T>, b: seq<T>)
    requires TotalOrder(above) && Sorted(above, a) && Sorted(above, b)
    requires forall x :: x in a <==> x in b
    ensures a == b
  {
    DistinctFit(a, b);
    DistinctFit(b, a);
    TopOfSubset(above, a, b, |a|);
    assert Take(|a|, a) == a && Take(|a|, b) == b;
  }

  /** At least n distinct elements of the part are listed above x. */
  ghost predicate HasAbove<T(!new)>(above: (T, T) -> bool, part: seq<T>, n: nat, x: T) {
    exists w: seq<T> :: n <= |w| && Distinct(w) && forall y :: y in w ==> y in part && above(y, x)
  }

  ghost predicate MissingAreLow<T(!new)>(above: (T, T) -> bool, whole: seq<T>, part: seq<T>, n: nat) {
    forall x :: x in whole && x !in part ==> HasAbove(above, part, n, x)
  }

  lemma TakeMembers<T>(n: nat, s: seq<T>)
    ensures forall j :: 0 <= j < |s| && j < n ==> s[j] in Take(n, s)
    ensures forall x :: x in Take(n, s) ==> exists j :: 0 <= j < |s| && j < n && s[j] == x
  {
    forall j | 0 <= j < |s| && j < n ensures s[j] in Take(n, s) {
      assert s[j] == Take(n, s)[j];
    }
  }

  /** The top-n lemma: a part whose missing elements are all low agrees on the first n. */
  lemma TopOfSubset<T(!new)>(above: (T, T) -> bool, whole: seq<T>, part: seq<T>, n: nat)
    requires TotalOrder(above) && Sorted(above, whole) && Sorted(above, part)
    requires forall x :: x in part ==> x in whole
    requires MissingAreLow(above, whole, part, n)
    ensures Take(n, whole) == Take(n, part)
  {
    var m := Min(n, |whole|);
    PrefixAgrees(above, whole, part, n, m);
    SortedDistinct(above, part);
    DistinctFit(part, whole);
    assert Take(n, whole) == whole[..m] == part[..m];
  }

  lemma {:induction false} PrefixAgrees<T(!new)>(above: (T, T) -> bool, whole: seq<T>, part: seq<T>, n: nat, m: nat)
    requires TotalOrder(above) && Sorted(above, whole) && Sorted(above, part)
    requires forall x :: x in part ==> x in whole
    requires MissingAreLow(above, whole, part, n)
    requires m <= n && m <= |whole|
    ensures m <= |part| && whole[..m] == part[..m]
  {
    if m > 0 {
      var j := m - 1;
      PrefixAgrees(above, whole, part, n, j);
      var x := whole[j];
      if x !in part {
        var w: seq<T> :| n <= |w| && Distinct(w) && forall y :: y in w ==> y in part && above(y, x);
        forall y | y in w ensures y in whole[..j] {
          var i :| 0 <= i < |whole| && whole[i] == y;
          assert i > j ==> above(x, y);
          assert i < j;
          assert whole[..j][i] == y;
        }
        DistinctFit(w, whole[..j]);
        assert false;
      }
      var k :| 0 <= k < |part| && part[k] == x;
      var y := part[j];
      assert forall q :: 0 <= q < j ==> whole[..j][q] == part[..j][q];
      assert forall q :: 0 <= q < j ==> part[q] == whole[q] && part[q] != x && whole[q] != y;
      assert y in whole;
      var i :| 0 <= i < |whole| && whole[i] == y;
      assert k > j ==> above(y, x);
      assert i > j ==> above(x, y);
      assert x == y;
      assert whole[..m] == whole[..j] + [x] && part[..m] == part[..j] + [y];
    }
  }

  /** Two sorted lists, one inside the other, agree on the first n exactly when the inner one has them all. */
  lemma TopIffHeadIn<T(!new)>(above: (T, T) -> bool, whole: seq<T>, part: seq<T>, n: nat)
    requires TotalOrder(above) && Sorted(above, whole) && Sorted(above, part)
    requires forall x :: x in part ==> x in whole
    ensures Take(n, whole) == Take(n, part) <==> forall e :: e in Take(n, whole) ==> e in part
  {
    var head := Take(n, whole);
    TakeMembers(n, whole);
    TakeMembers(n, part);
    if forall e :: e in head ==> e in part {
      SortedDistinct(above, whole);
      forall x | x in whole && x !in part ensures HasAbove(above, part, n, x) {
        var k :| 0 <= k < |whole| && whole[k] == x;
        assert n <= |head| && Distinct(head);
        forall y | y in head ensures above(y, x) {
          var j :| 0 <= j < |whole| && j < n && whole[j] == y;
        }
      }
      TopOfSubset(above, whole, part, n);
    }
  }

  /** Position-preserving insertion into a sorted list. */
  function Insert<T(!new)>(above: (T, T) -> bool, x: T, s: seq<T>): (r: seq<T>)
    ensures |r| == |s| + 1
  {
    if s == [] || above(x, s[0]) then [x] + s
    else [s[0]] + Insert(above, x, s[1..])
  }

  lemma {:induction false} InsertMembers<T(!new)>(above: (T, T) -> bool, x: T, s: seq<T>)
    ensures forall y :: y in Insert(above, x, s) <==> y == x || y in s
  {
    if s != [] && !above(x, s[0]) {
      InsertMembers(above, x, s[1..]);
    }
  }

  lemma {:induction false} InsertSorted<T(!new)>(above: (T, T) -> bool, x: T, s: seq<T>)
    requires TotalOrder(above) && Sorted(above, s) && x !in s
    ensures Sorted(above, Insert(above, x, s))
  {
    if s != [] && !above(x, s[0]) {
      InsertSorted(above, x, s[1..]);
      InsertMembers(above, x, s[1..]);
      var r := Insert(above, x, s[1..]);
      forall y | y in r ensures above(s[0], y) {
        if y != x {
          var i :| 0 <= i < |s[1..]| && s[1..][i] == y;
          assert above(s[0], s[i + 1]);
        }
      }
      assert Insert(above, x, s) == [s[0]] + r;
    }
  }

  /** Sorting: what sort.Slice with `above` as its less function leaves behind. */
  function Sort<T(!new)>(above: (T, T) -> bool, s: seq<T>): (r: seq<T>)
    ensures |r| == |s|
  {
    if s == [] then [] else Insert(above, s[0], Sort(above, s[1..]))
  }

  lemma {:induction false} SortSorts<T(!new)>(above: (T, T) -> bool, s: seq<T>)
    requires TotalOrder(above) && Distinct(s)
    ensures Sorted(above, Sort(above, s))
    ensures forall y :: y in Sort(above, s) <==> y in s
  {
    if s != [] {
      SortSorts(above, s[1..]);
      InsertMembers(above, s[0], Sort(above, s[1..]));
      InsertSorted(above, s[0], Sort(above, s[1..]));
    }
  }

  /** Filtering keeps a list sorted. */
  lemma {:induction false} FilterSorted<T(!new)>(above: (T, T) -> bool, p: T -> bool, s: seq<T>)
    requires Sorted(above, s)
    ensures Sorted(above, Filter(p, s))
    ensures forall x :: x in Filter(p, s) <==> x in s && p(x)
  {
    FilterMembers(p, s);
    if s != [] {
      FilterMembers(p, s[1..]);
      FilterSorted(above, p, s[1..]);
      forall y | y in Filter(p, s[1..]) ensures above(s[0], y) {
        var i :| 0 <= i < |s[1..]| && s[1..][i] == y;
        assert above(s[0], s[i + 1]);
      }
    }
  }
}
