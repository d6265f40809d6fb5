/**
 Boxes that keep only the newest entries: add, then trim. Why redelivery and reordering of
 the adds are harmless as long as a member keeps one score.
 */
module TrimmedBox {
  import opened Ordered
  import opened SortedSet

  /** ZADD of some entries, one after the other. */
  function AddEach(z: seq<Z>, items: seq<Z>): seq<Z> {
    if items == [] then z else Add(AddEach(z, items[..|items| - 1]), items[|items| - 1])
  }

  /** One add-then-trim step: ZADD, then ZREMRANGEBYRANK 0 -(n+1). */
  function AddTrim(z: seq<Z>, items: seq<Z>, n: nat): seq<Z> {
    TrimTo(AddEach(z, items), n)
  }

  /** A box after a sequence of add-then-trim steps. */
  function BoxAfter(steps: seq<seq<Z>>, n: nat): seq<Z> {
    if steps == [] then [] else AddTrim(BoxAfter(steps[..|steps| - 1], n), steps[|steps| - 1], n)
  }

  function AllAdded(steps: seq<seq<Z>>): set<Z> {
    if steps == [] then {} else AllAdded(steps[..|steps| - 1]) + Elements(steps[|steps| - 1])
  }

  function Elements(items: seq<Z>): set<Z> {
    set x | x in items
  }

  /** A member is always added with the same score. */
  ghost predicate OneScore(added: set<Z>) {
    forall x, y :: x in added && y in added && x.member == y.member ==> x == y
  }

  /** The box holds the n greatest entries ever added, all of them while there are fewer. */
  ghost predicate HoldsTop(box: seq<Z>, added: set<Z>, n: nat) {
    && IsZSet(box) && |box| <= n
    && (forall x :: x in box ==> x in added)
    && (forall x :: x in added && x !in box ==> |box| == n && forall y :: y in box ==> RedisAbove(y, x))
  }

  lemma {:induction false} AddEachMembers(z: seq<Z>, items: seq<Z>)
    requires IsZSet(z) && OneScore(Elements(z) + Elements(items))
    ensures IsZSet(AddEach(z, items))
    ensures forall x :: x in AddEach(z, items) <==> x in z || x in items
  {
    hide RedisAbove, Insert, Filter, IsZSet;
    if items != [] {
      var init, e := items[..|items| - 1], items[|items| - 1];
      assert items == init + [e];
      AddEachMembers(z, init);
      var c := AddEach(z, init);
      AddKeepsZSet(c, e);
      InsertMembers(RedisAbove, e, Rem(c, e.member));
      FilterMembers(OtherThan(e.member), c);
      forall x | x in c && x.member == e.member ensures x == e {
        assert x in Elements(z) + Elements(items) && e in Elements(z) + Elements(items);
      }
    }
  }

  lemma OneAdd(box: seq<Z>, e: Z, n: nat)
    ensures AddTrim(box, [e], n) == TrimTo(Add(box, e), n)
  {
    hide Add;
    assert [e][..0] == [] && AddEach(box, []) == box;
  }

  lemma DistinctBox(box: seq<Z>)
    requires IsZSet(box)
    ensures Distinct(box)
  {
    RedisOrderIsTotal();
    SortedDistinct(RedisAbove, box);
  }

  /** One step keeps the box at the greatest entries added. */
  lemma AddTrimKeepsTop(box: seq<Z>, added: set<Z>, items: seq<Z>, n: nat)
    requires HoldsTop(box, added, n) && OneScore(added + Elements(items))
    ensures HoldsTop(AddTrim(box, items, n), added + Elements(items), n)
  {
    hide RedisAbove, AddEach;
    AddEachMembers(box, items);
    var c := AddEach(box, items);
    var kept := TrimTo(c, n);
    KeptIsZSet(c, n);
    TakeMembers(n, c);
    forall x | x in added + Elements(items) && x !in kept
      ensures |kept| == n && forall y :: y in kept ==> RedisAbove(y, x)
    {
      if x in c {
        BelowKept(c, n, x);
      } else {
        assert x in added && x !in box && |box| == n;
        DistinctBox(box);
        DistinctFit(box, c);
        forall y | y in kept ensures RedisAbove(y, x) {
          if y !in box {
            var w := Displaced(box, c, n, y);
            RedisOrderIsTotal();
            assert RedisAbove(y, w) && RedisAbove(w, x);
          }
        }
      }
    }
  }

  lemma KeptIsZSet(c: seq<Z>, n: nat)
    requires IsZSet(c)
    ensures IsZSet(TrimTo(c, n))
  {
    hide RedisAbove;
  }

  /** An entry cut off by the trim lies below everything kept. */
  lemma BelowKept(c: seq<Z>, n: nat, x: Z)
    requires IsZSet(c) && x in c && x !in TrimTo(c, n)
    ensures |TrimTo(c, n)| == n && forall y :: y in TrimTo(c, n) ==> RedisAbove(y, x)
  {
    hide RedisAbove;
    TakeMembers(n, c);
    var i :| 0 <= i < |c| && c[i] == x;
    forall y | y in TrimTo(c, n) ensures RedisAbove(y, x) {
      var j :| 0 <= j < |c| && j < n && c[j] == y;
    }
  }

  /** A new entry in a full box has pushed out an old one, which lies below it. */
  lemma Displaced(box: seq<Z>, c: seq<Z>, n: nat, y: Z) returns (w: Z)
    requires IsZSet(box) && IsZSet(c) && |box| == n
    requires forall x :: x in box ==> x in c
    requires y in TrimTo(c, n) && y !in box
    ensures w in box && RedisAbove(y, w)
  {
    hide RedisAbove;
    DistinctBox(box);
    if forall x :: x in box ==> x in TrimTo(c, n) {
      DistinctFit(box + [y], TrimTo(c, n));
      assert false;
    }
    w :| w in box && w !in TrimTo(c, n);
    BelowKept(c, n, w);
  }

  /** After any sequence of steps a box holds exactly the n greatest entries ever added. */
  lemma {:induction false} BoxHoldsTop(steps: seq<seq<Z>>, n: nat)
    requires OneScore(AllAdded(steps))
    ensures HoldsTop(BoxAfter(steps, n), AllAdded(steps), n)
  {
    hide HoldsTop, AddTrim;
    if steps == [] {
      EmptyHoldsTop(n);
    } else {
      BoxHoldsTop(steps[..|steps| - 1], n);
      AddTrimKeepsTop(BoxAfter(steps[..|steps| - 1], n), AllAdded(steps[..|steps| - 1]), steps[|steps| - 1], n);
    }
  }

  lemma EmptyHoldsTop(n: nat)
    ensures HoldsTop([], {}, n)
  {
  }

  /** Only one box can hold the top of a set of entries. */
  lemma TopIsUnique(a: seq<Z>, b: seq<Z>, added: set<Z>, n: nat)
    requires HoldsTop(a, added, n) && HoldsTop(b, added, n)
    ensures a == b
  {
    hide RedisAbove, HoldsTop;
    RedisOrderIsTotal();
    TopWithin(a, b, added, n);
    TopWithin(b, a, added, n);
    TopIsSorted(a, added, n);
    TopIsSorted(b, added, n);
    SortedUnique(RedisAbove, a, b);
  }

  lemma TopIsSorted(a: seq<Z>, added: set<Z>, n: nat)
    requires HoldsTop(a, added, n)
    ensures Sorted(RedisAbove, a)
  {
    hide RedisAbove;
  }

  lemma TopWithin(a: seq<Z>, b: seq<Z>, added: set<Z>, n: nat)
    requires HoldsTop(a, added, n) && HoldsTop(b, added, n)
    ensures forall x :: x in a ==> x in b
  {
    hide RedisAbove;
    RedisOrderIsTotal();
    forall x | x in a ensures x in b {
      if x !in b {
        var y := HigherElsewhere(a, b, added, n, x);
        assert false;
      }
    }
  }

  /** What one box misses is below some entry that the other box lacks. */
  lemma HigherElsewhere(a: seq<Z>, b: seq<Z>, added: set<Z>, n: nat, x: Z) returns (y: Z)
    requires IsZSet(a) && |a| <= n && HoldsTop(b, added, n) && x in a && x in added && x !in b
    ensures y in b && y !in a && RedisAbove(y, x)
  {
    hide RedisAbove;
    DistinctBox(b);
    if forall w :: w in b ==> w in a {
      DistinctFit(b + [x], a);
      assert false;
    }
    y :| y in b && y !in a;
  }

  /** Steps that add the same entries, in any order and however often, leave the same box. */
  lemma OrderAndDuplicatesDoNotMatter(a: seq<seq<Z>>, b: seq<seq<Z>>, n: nat)
    requires OneScore(AllAdded(a)) && AllAdded(a) == AllAdded(b)
    ensures BoxAfter(a, n) == BoxAfter(b, n)
  {
    hide BoxAfter, AllAdded, HoldsTop;
    BoxHoldsTop(a, n);
    BoxHoldsTop(b, n);
    TopIsUnique(BoxAfter(a, n), BoxAfter(b, n), AllAdded(a), n);
  }

  /** A member added with two scores keeps the last one, so then the order does matter. */
  lemma RescoringMatters(member: string)
    ensures BoxAfter([[Z(1, member)], [Z(5, member)]], 1) == [Z(5, member)]
    ensures BoxAfter([[Z(5, member)], [Z(1, member)]], 1) == [Z(1, member)]
  {
    AddTwice(Z(1, member), Z(5, member));
    AddTwice(Z(5, member), Z(1, member));
  }

  lemma AddTwice(a: Z, b: Z)
    requires a.member == b.member
    ensures BoxAfter([[a], [b]], 1) == [b]
  {
    assert [[a], [b]][..1] == [[a]] && [[a]][..0] == [] && [a][..0] == [] && [b][..0] == [];
    assert BoxAfter([[a]], 1) == AddTrim([], [a], 1);
    assert Filter(OtherThan(a.member), []) == [];
    assert AddEach([], [a]) == [a];
    assert AddTrim([], [a], 1) == [a];
    FilterNone(OtherThan(b.member), [a]);
    assert AddEach([a], [b]) == Add([a], b) == [b];
  }
}
