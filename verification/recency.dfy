/**
 Newest-first lists: entries by score, then id, both descending, and the composite cursor
 that marks a position between two of them.
 */
module Recency {
  import opened Prelude
  import opened Ordered

  /** A position in a list: its start, or just behind one (score, id) pair. */
  datatype Cursor = Start | At(score: int, id: nat)

  predicate Newer(a: Entry, b: Entry) {
    a.score > b.score || (a.score == b.score && a.id > b.id)
  }

  function After(c: Cursor): Entry -> bool {
    (e: Entry) => c.Start? || e.score < c.score || (e.score == c.score && e.id < c.id)
  }

  function RangeMax(c: Cursor): Option<int> {
    if c.Start? then None else Some(c.score)
  }

  function AtMostScore(max: Option<int>): Entry -> bool {
    (e: Entry) => max.None? || e.score <= max.value
  }

  function Behind(e: Entry): Cursor {
    At(e.score, e.id)
  }

  lemma NewerIsTotal()
    ensures TotalOrder(Newer)
  {
  }

  lemma NewerDistinct(s: seq<Entry>)
    requires Sorted(Newer, s)
    ensures Distinct(s)
  {
    NewerIsTotal();
    SortedDistinct(Newer, s);
  }

  /** The part of a sorted list after a cursor is a suffix. */
  lemma AfterSuffix(c: Cursor, s: seq<Entry>) returns (k: nat)
    requires Sorted(Newer, s)
    ensures k <= |s| && Filter(After(c), s) == s[k..]
    ensures forall i :: 0 <= i < k ==> !After(c)(s[i])
    ensures forall i :: k <= i < |s| ==> After(c)(s[i])
  {
    assert DownClosed(Newer, After(c));
    k := FilterIsSuffix(Newer, After(c), s);
  }

  lemma NewerTopIff(whole: seq<Entry>, part: seq<Entry>, n: nat)
    requires Sorted(Newer, whole) && Sorted(Newer, part)
    requires forall x :: x in part ==> x in whole
    ensures Take(n, whole) == Take(n, part) <==> forall e :: e in Take(n, whole) ==> e in part
  {
    NewerIsTotal();
    TopIffHeadIn(Newer, whole, part, n);
  }

  lemma NewerTop(whole: seq<Entry>, part: seq<Entry>, n: nat)
    requires Sorted(Newer, whole) && Sorted(Newer, part)
    requires forall x :: x in part ==> x in whole
    requires MissingAreLow(Newer, whole, part, n)
    ensures Take(n, whole) == Take(n, part)
  {
    NewerIsTotal();
    TopOfSubset(Newer, whole, part, n);
  }

  lemma CutSorted(whole: seq<Entry>, n: nat, c: Cursor, rest: seq<Entry>)
    requires 0 < n <= |whole| && Sorted(Newer, whole) && Sorted(Newer, rest)
    requires forall e :: e in whole ==> After(c)(e)
    requires forall e :: e in rest ==> After(Behind(whole[n - 1]))(e)
    requires forall e :: After(Behind(whole[n - 1]))(e) && After(c)(e) ==> (e in rest <==> e in whole)
    ensures rest == whole[n..]
  {
    var last := whole[n - 1];
    assert last in whole && After(c)(last);
    assert forall q :: 0 <= q < n - 1 ==> Newer(whole[q], last);
    forall e ensures e in rest <==> e in whole[n..] {
      if e in rest {
        assert After(c)(e) && e in whole;
        var i :| 0 <= i < |whole| && whole[i] == e;
        assert whole[n..][i - n] == e;
      }
      if e in whole[n..] {
        var i :| n <= i < |whole| && whole[i] == e;
        assert Newer(last, whole[i]);
      }
    }
    NewerIsTotal();
    SortedUnique(Newer, rest, whole[n..]);
  }

  /** Cutting a stretch of a sorted list at a cursor keeps the part of it behind the cursor. */
  lemma StretchAfter(c: Cursor, s: seq<Entry>, i: nat, j: nat) returns (k: nat)
    requires Sorted(Newer, s) && i <= j <= |s|
    requires forall q :: 0 <= q < i ==> !After(c)(s[q])
    ensures i <= k <= |s| && Filter(After(c), s) == s[k..]
    ensures Filter(After(c), s[i..j]) == if k <= j then s[k..j] else []
  {
    k := AfterSuffix(c, s);
    assert k >= i by { assert k < |s| ==> After(c)(s[k]); }
    var t := s[i..j];
    var m := AfterSuffix(c, t);
    assert forall q :: 0 <= q < |t| ==> t[q] == s[i + q];
    assert m < |t| ==> After(c)(t[m]);
    assert m > 0 ==> !After(c)(t[m - 1]);
    assert m == if k <= j then k - i else j - i;
  }
}
