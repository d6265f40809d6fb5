/**
 Merging the sources of a home timeline: why reading a bounded head of every source is
 enough to show the first page of their sorted, deduplicated union.
 */
module TimelineMerge {
  import opened Prelude
  import opened Ordered
  import opened Recency

  /** One source, newest entry first. */
  type Box = seq<Entry>

  const TIE_SLACK: nat := 16

  function TiedBefore(c: Cursor): Entry -> bool {
    (e: Entry) => c.At? && e.score == c.score && !After(c)(e)
  }

  function Need(limit: nat): nat {
    limit + 1 + TIE_SLACK
  }

  /** The head of one source that a page reads: inclusive upper bound, bounded count. */
  function Fetch(b: Box, c: Cursor, limit: nat): seq<Entry> {
    Take(Need(limit), Filter(AtMostScore(RangeMax(c)), b))
  }

  function FetchAll(boxes: seq<Box>, c: Cursor, limit: nat): seq<Entry> {
    if boxes == [] then [] else Fetch(boxes[0], c, limit) + FetchAll(boxes[1..], c, limit)
  }

  function Everything(boxes: seq<Box>): seq<Entry> {
    if boxes == [] then [] else boxes[0] + Everything(boxes[1..])
  }

  function Ids(es: seq<Entry>): set<nat> {
    set e | e in es :: e.id
  }

  /** The first entry of every post id, in order. */
  function Dedupe(es: seq<Entry>): seq<Entry> {
    if es == [] then []
    else
      var e, init := es[|es| - 1], Dedupe(es[..|es| - 1]);
      if e.id in Ids(init) then init else init + [e]
  }

  function Merged(es: seq<Entry>): seq<Entry> {
    Sort(Newer, Dedupe(es))
  }

  /** What the fetched heads leave after the cursor: the page is the first part of it. */
  function Delivered(boxes: seq<Box>, c: Cursor, limit: nat): seq<Entry> {
    Filter(After(c), Merged(FetchAll(boxes, c, limit)))
  }

  /** The reference: the sorted, deduplicated union of everything, cut at the cursor. */
  function Remaining(boxes: seq<Box>, c: Cursor): seq<Entry> {
    Filter(After(c), Merged(Everything(boxes)))
  }

  // ---- Hypotheses ----

  ghost predicate AllSorted(boxes: seq<Box>) {
    forall b :: b in boxes ==> Sorted(Newer, b)
  }

  /** A post carries one score wherever it is stored. */
  ghost predicate OneScore(boxes: seq<Box>) {
    forall a, b :: a in Everything(boxes) && b in Everything(boxes) && a.id == b.id ==> a == b
  }

  /** In every source at most sixteen entries tie with the cursor without lying after it. */
  ghost predicate FewTies(boxes: seq<Box>, c: Cursor) {
    forall b :: b in boxes ==> |Filter(TiedBefore(c), b)| <= 16
  }

  // ---- What is fetched and what there is ----

  lemma {:induction false} EverythingIn(boxes: seq<Box>, e: Entry)
    ensures e in Everything(boxes) <==> exists b :: b in boxes && e in b
  {
    if boxes != [] {
      EverythingIn(boxes[1..], e);
      assert boxes == [boxes[0]] + boxes[1..];
    }
  }

  lemma {:induction false} FetchedIn(boxes: seq<Box>, c: Cursor, limit: nat, e: Entry)
    ensures e in FetchAll(boxes, c, limit) <==> exists b :: b in boxes && e in Fetch(b, c, limit)
  {
    if boxes != [] {
      FetchedIn(boxes[1..], c, limit, e);
      assert boxes == [boxes[0]] + boxes[1..];
    }
  }

  lemma FetchedIsStored(boxes: seq<Box>, c: Cursor, limit: nat, e: Entry)
    requires e in FetchAll(boxes, c, limit)
    ensures e in Everything(boxes)
  {
    FetchedIn(boxes, c, limit, e);
    var b :| b in boxes && e in Fetch(b, c, limit);
    FilterMembers(AtMostScore(RangeMax(c)), b);
    EverythingIn(boxes, e);
  }

  lemma {:induction false} DedupeKeeps(es: seq<Entry>)
    requires forall a, b :: a in es && b in es && a.id == b.id ==> a == b
    ensures forall e :: e in Dedupe(es) <==> e in es
    ensures Distinct(Dedupe(es))
  {
    if es != [] {
      DedupeKeeps(es[..|es| - 1]);
      assert es == es[..|es| - 1] + [es[|es| - 1]];
    }
  }

  lemma {:induction false} DedupeSubset(es: seq<Entry>)
    ensures forall e :: e in Dedupe(es) ==> e in es
    ensures forall i, j :: 0 <= i < j < |Dedupe(es)| ==> Dedupe(es)[i].id != Dedupe(es)[j].id
  {
    if es != [] {
      DedupeSubset(es[..|es| - 1]);
    }
  }

  /** Merging and cutting lists every distinct entry after the cursor once, newest first. */
  /** The i-th entry is `e`, and none before it has its id. */
  predicate FirstOfItsId(es: seq<Entry>, i: int, e: Entry) {
    0 <= i < |es| && es[i] == e && forall j :: 0 <= j < i ==> es[j].id != e.id
  }

  lemma {:induction false} DedupeKeepsIds(es: seq<Entry>)
    ensures Ids(Dedupe(es)) == Ids(es)
  {
    if es != [] {
      var init, last := es[..|es| - 1], es[|es| - 1];
      DedupeKeepsIds(init);
      assert es == init + [last];
      assert Ids(init + [last]) == Ids(init) + {last.id};
      assert Ids(Dedupe(init) + [last]) == Ids(Dedupe(init)) + {last.id};
    }
  }

  lemma {:induction false} DedupeKeepsFirst(es: seq<Entry>, e: Entry)
    ensures e in Dedupe(es) <==> exists i :: FirstOfItsId(es, i, e)
  {
    hide FirstOfItsId;
    if es == [] {
      assert forall i :: !FirstOfItsId(es, i, e) by { NoneFirst(e); }
    } else {
      DedupeKeepsFirst(es[..|es| - 1], e);
      DedupeKeepsIds(es[..|es| - 1]);
      FirstWithOneMore(es, e);
    }
  }

  lemma NoneFirst(e: Entry)
    ensures forall i :: !FirstOfItsId([], i, e)
  {
  }

  lemma FirstWithOneMore(es: seq<Entry>, e: Entry)
    requires es != []
    ensures var n := |es| - 1;
            (exists i :: FirstOfItsId(es, i, e))
            <==> (exists i :: FirstOfItsId(es[..n], i, e)) || (es[n] == e && e.id !in Ids(es[..n]))
  {
    var n := |es| - 1;
    var init := es[..n];
    forall i | i != n ensures FirstOfItsId(es, i, e) <==> FirstOfItsId(init, i, e) {
    }
    assert FirstOfItsId(es, n, e) <==> es[n] == e && e.id !in Ids(init) by {
      if e.id in Ids(init) {
        var x :| x in init && x.id == e.id;
        var j :| 0 <= j < n && init[j] == x;
        assert es[j].id == e.id;
      } else {
        assert forall j :: 0 <= j < n ==> es[j] == init[j] && init[j] in init;
      }
    }
    if i :| FirstOfItsId(init, i, e) {
      assert FirstOfItsId(es, i, e);
    }
  }

  /**
   Merging keeps of every post the entry read first, whatever scores the others carry, and lists the
   kept ones newest first.
   */
  lemma MergedKeepsFirst(es: seq<Entry>, e: Entry)
    ensures e in Merged(es) <==> exists i :: FirstOfItsId(es, i, e)
    ensures Sorted(Newer, Merged(es))
  {
    hide Sort, Dedupe, FirstOfItsId;
    NewerIsTotal();
    DedupeKeepsFirst(es, e);
    DedupeSubset(es);
    SortSorts(Newer, Dedupe(es));
  }

  lemma CutOfUnion(es: seq<Entry>, c: Cursor)
    requires forall a, b :: a in es && b in es && a.id == b.id ==> a == b
    ensures Sorted(Newer, Filter(After(c), Merged(es)))
    ensures forall e :: e in Filter(After(c), Merged(es)) <==> e in es && After(c)(e)
  {
    NewerIsTotal();
    DedupeKeeps(es);
    SortSorts(Newer, Dedupe(es));
    FilterSorted(Newer, After(c), Merged(es));
  }

  lemma RemainingIsUnion(boxes: seq<Box>, c: Cursor)
    requires OneScore(boxes)
    ensures Sorted(Newer, Remaining(boxes, c))
    ensures forall e :: e in Remaining(boxes, c) <==> e in Everything(boxes) && After(c)(e)
  {
    CutOfUnion(Everything(boxes), c);
  }

  lemma DeliveredIsPart(boxes: seq<Box>, c: Cursor, limit: nat)
    requires OneScore(boxes)
    ensures Sorted(Newer, Delivered(boxes, c, limit))
    ensures forall e :: e in Delivered(boxes, c, limit) <==> e in FetchAll(boxes, c, limit) && After(c)(e)
    ensures forall e :: e in Delivered(boxes, c, limit) ==> e in Remaining(boxes, c)
  {
    forall e | e in FetchAll(boxes, c, limit) ensures e in Everything(boxes) {
      FetchedIsStored(boxes, c, limit, e);
    }
    CutOfUnion(FetchAll(boxes, c, limit), c);
    RemainingIsUnion(boxes, c);
  }

  // ---- Exactness of a page ----

  /** The page and its hasMore flag are those of the reference. */
  ghost predicate PageExact(boxes: seq<Box>, c: Cursor, limit: nat) {
    Take(limit + 1, Delivered(boxes, c, limit)) == Take(limit + 1, Remaining(boxes, c))
  }

  /** A page is right exactly when every entry it should show was fetched. */
  lemma ExactIffFetched(boxes: seq<Box>, c: Cursor, limit: nat)
    requires OneScore(boxes)
    ensures PageExact(boxes, c, limit) <==>
            forall e :: e in Take(limit + 1, Remaining(boxes, c)) ==> e in FetchAll(boxes, c, limit)
  {
    RemainingIsUnion(boxes, c);
    DeliveredIsPart(boxes, c, limit);
    var whole, part := Remaining(boxes, c), Delivered(boxes, c, limit);
    NewerTopIff(whole, part, limit + 1);
    TakeMembers(limit + 1, whole);
    var head := Take(limit + 1, whole);
    assert forall e :: e in head ==> e in whole;
    assert forall e :: e in head ==> (e in part <==> e in FetchAll(boxes, c, limit));
  }

  /** An entry a source did not deliver has a whole page of delivered entries above it. */
  lemma UnfetchedIsLow(b: Box, c: Cursor, limit: nat, x: Entry) returns (w: seq<Entry>)
    requires Sorted(Newer, b) && |Filter(TiedBefore(c), b)| <= TIE_SLACK
    requires x in b && After(c)(x) && x !in Fetch(b, c, limit)
    ensures limit + 1 <= |w| && Distinct(w)
    ensures forall y :: y in w ==> y in Fetch(b, c, limit) && After(c)(y) && Newer(y, x)
  {
    var l := Filter(AtMostScore(RangeMax(c)), b);
    FilterSorted(Newer, AtMostScore(RangeMax(c)), b);
    var k := AfterSuffix(c, l);
    SkippedAreTied(b, c, l, k);
    w := LowWitness(l, k, Need(limit), c, x);
  }

  lemma SkippedAreTied(b: Box, c: Cursor, l: seq<Entry>, k: nat)
    requires Sorted(Newer, l) && k <= |l|
    requires forall e :: e in l ==> e in b && AtMostScore(RangeMax(c))(e)
    requires forall i :: 0 <= i < k ==> !After(c)(l[i])
    ensures k <= |Filter(TiedBefore(c), b)|
  {
    NewerDistinct(l);
    FilterMembers(TiedBefore(c), b);
    forall y | y in l[..k] ensures y in Filter(TiedBefore(c), b) {
      assert y in l;
    }
    DistinctFit(l[..k], Filter(TiedBefore(c), b));
  }

  lemma LowWitness(l: seq<Entry>, k: nat, n: nat, c: Cursor, x: Entry) returns (w: seq<Entry>)
    requires Sorted(Newer, l) && k <= n && k <= |l|
    requires forall i :: k <= i < |l| ==> After(c)(l[i])
    requires x in l && x !in Take(n, l)
    ensures |w| == n - k && Distinct(w)
    ensures forall y :: y in w ==> y in Take(n, l) && After(c)(y) && Newer(y, x)
  {
    TakeMembers(n, l);
    NewerDistinct(l);
    var q :| 0 <= q < |l| && l[q] == x;
    w := l[k..n];
    forall y | y in w ensures y in Take(n, l) && After(c)(y) && Newer(y, x) {
      var j :| k <= j < n && l[j] == y;
    }
  }

  /** The slack of sixteen is enough whenever no source has more ties at the cursor than that. */
  lemma FewTiesMakeItExact(boxes: seq<Box>, c: Cursor, limit: nat)
    requires AllSorted(boxes) && OneScore(boxes) && FewTies(boxes, c)
    ensures PageExact(boxes, c, limit)
  {
    hide Remaining, Delivered, FetchAll, Fetch, Everything, OneScore;
    RemainingIsUnion(boxes, c);
    DeliveredIsPart(boxes, c, limit);
    var whole, part := Remaining(boxes, c), Delivered(boxes, c, limit);
    forall x | x in whole && x !in part ensures HasAbove(Newer, part, limit + 1, x) {
      EverythingIn(boxes, x);
      var b :| b in boxes && x in b;
      FetchedIn(boxes, c, limit, x);
      var w := UnfetchedIsLow(b, c, limit, x);
      forall y | y in w ensures y in part {
        FetchedIn(boxes, c, limit, y);
      }
    }
    NewerTop(whole, part, limit + 1);
  }

  // ---- Exactly which stored entries make a page exact ----

  /** Entries listed above e within the range that a page reads. */
  function AboveWithin(c: Cursor, e: Entry): Entry -> bool {
    (y: Entry) => AtMostScore(RangeMax(c))(y) && Newer(y, e)
  }

  /** The source holds the entry with fewer than a whole read above it. */
  predicate WithinReach(b: Box, c: Cursor, limit: nat, e: Entry) {
    e in b && |Filter(AboveWithin(c, e), b)| < limit + 17
  }

  ghost predicate SomeReaches(boxes: seq<Box>, c: Cursor, limit: nat, e: Entry) {
    exists b :: b in boxes && WithinReach(b, c, limit, e)
  }

  lemma FetchedIffWithinReach(b: Box, c: Cursor, limit: nat, e: Entry)
    requires Sorted(Newer, b) && After(c)(e)
    ensures e in Fetch(b, c, limit) <==> WithinReach(b, c, limit, e)
  {
    hide Filter;
    var l, above := Filter(AtMostScore(RangeMax(c)), b), Filter(AboveWithin(c, e), b);
    FilterMembers(AtMostScore(RangeMax(c)), b);
    FilterMembers(AboveWithin(c, e), b);
    TakeMembers(Need(limit), l);
    if e in b {
      NewerIsTotal();
      FilterSorted(Newer, AtMostScore(RangeMax(c)), b);
      FilterSorted(Newer, AboveWithin(c, e), b);
      var q :| 0 <= q < |l| && l[q] == e;
      PrefixIsAbove(l, q, above);
      if e in Take(Need(limit), l) {
        var j :| 0 <= j < |l| && j < Need(limit) && l[j] == e;
        NewerDistinct(l);
      }
    }
  }

  lemma PrefixIsAbove(l: seq<Entry>, q: nat, above: seq<Entry>)
    requires Sorted(Newer, l) && Sorted(Newer, above) && q < |l|
    requires forall y :: y in above <==> y in l && Newer(y, l[q])
    ensures |above| == q
  {
    NewerIsTotal();
    forall y ensures y in above <==> y in l[..q] {
      if y in above {
        var i :| 0 <= i < |l| && l[i] == y;
        assert l[..q][i] == y;
      }
    }
    SortedUnique(Newer, above, l[..q]);
  }

  /**
   A page of any sources is exact if and only if each entry it should show, and the one behind them,
   is held by some source with fewer than limit + 17 entries above it at or below the cursor's score.
   */
  lemma ExactIffWithinReach(boxes: seq<Box>, c: Cursor, limit: nat)
    requires AllSorted(boxes) && OneScore(boxes)
    ensures PageExact(boxes, c, limit) <==>
            forall e :: e in Take(limit + 1, Remaining(boxes, c)) ==> SomeReaches(boxes, c, limit, e)
  {
    hide Remaining, FetchAll, Fetch, Everything, OneScore, WithinReach, PageExact, Take, SomeReaches;
    ExactIffFetched(boxes, c, limit);
    RemainingIsUnion(boxes, c);
    var head := Take(limit + 1, Remaining(boxes, c));
    HeadWithin(limit + 1, Remaining(boxes, c));
    forall e | e in head ensures e in FetchAll(boxes, c, limit) <==> SomeReaches(boxes, c, limit, e) {
      ReachedIffFetched(boxes, c, limit, e);
    }
    if PageExact(boxes, c, limit) {
      forall e | e in head ensures SomeReaches(boxes, c, limit, e) {
        assert e in FetchAll(boxes, c, limit);
      }
    }
    if forall e :: e in head ==> SomeReaches(boxes, c, limit, e) {
      forall e | e in head ensures e in FetchAll(boxes, c, limit) {
        assert SomeReaches(boxes, c, limit, e);
      }
    }
  }

  lemma HeadWithin(n: nat, s: seq<Entry>)
    ensures forall e :: e in Take(n, s) ==> e in s
  {
  }

  lemma ReachedIffFetched(boxes: seq<Box>, c: Cursor, limit: nat, e: Entry)
    requires AllSorted(boxes) && After(c)(e)
    ensures e in FetchAll(boxes, c, limit) <==> SomeReaches(boxes, c, limit, e)
  {
    hide Fetch, FetchAll, WithinReach, After;
    FetchedIn(boxes, c, limit, e);
    forall b | b in boxes ensures e in Fetch(b, c, limit) <==> WithinReach(b, c, limit, e) {
      FetchedIffWithinReach(b, c, limit, e);
    }
  }

  /** For one source: at most sixteen ties before the cursor, or ties and remainder fit into one read, or nothing remains. */
  lemma OneSourceExactIff(b: Box, c: Cursor, limit: nat)
    requires Sorted(Newer, b) && OneScore([b])
    ensures var tied, rest := |Filter(TiedBefore(c), b)|, Filter(After(c), b);
            PageExact([b], c, limit) <==> tied <= 16 || tied + |rest| <= limit + 17 || rest == []
  {
    hide Filter;
    var l := Filter(AtMostScore(RangeMax(c)), b);
    FilterSorted(Newer, AtMostScore(RangeMax(c)), b);
    FilterMembers(AtMostScore(RangeMax(c)), b);
    var k := AfterSuffix(c, l);
    TiedAreThePrefix(b, c, l, k);
    RestIsTheSuffix(b, c, l, k);
    OneSourcePage(b, c, limit, l, k);
  }

  lemma TiedAreThePrefix(b: Box, c: Cursor, l: seq<Entry>, k: nat)
    requires Sorted(Newer, b) && Sorted(Newer, l) && k <= |l|
    requires forall e :: e in l <==> e in b && AtMostScore(RangeMax(c))(e)
    requires forall i :: 0 <= i < k ==> !After(c)(l[i])
    requires forall i :: k <= i < |l| ==> After(c)(l[i])
    ensures |Filter(TiedBefore(c), b)| == k
  {
    hide Filter;
    NewerIsTotal();
    var tied := Filter(TiedBefore(c), b);
    FilterMembers(TiedBefore(c), b);
    FilterSorted(Newer, TiedBefore(c), b);
    forall y ensures y in tied <==> y in l[..k] {
      if y in tied {
        var i :| 0 <= i < |l| && l[i] == y;
        assert l[..k][i] == y;
      }
      if y in l[..k] {
        var i :| 0 <= i < k && l[i] == y;
        assert y in l;
      }
    }
    SortedUnique(Newer, tied, l[..k]);
  }

  lemma RestIsTheSuffix(b: Box, c: Cursor, l: seq<Entry>, k: nat)
    requires Sorted(Newer, b) && Sorted(Newer, l) && k <= |l|
    requires forall e :: e in l <==> e in b && AtMostScore(RangeMax(c))(e)
    requires forall i :: 0 <= i < k ==> !After(c)(l[i])
    requires forall i :: k <= i < |l| ==> After(c)(l[i])
    ensures Filter(After(c), b) == l[k..]
  {
    hide Filter;
    NewerIsTotal();
    FilterMembers(After(c), b);
    FilterSorted(Newer, After(c), b);
    forall y ensures y in Filter(After(c), b) <==> y in l[k..] {
      if y in Filter(After(c), b) {
        assert y in l;
        var i :| 0 <= i < |l| && l[i] == y;
        assert l[k..][i - k] == y;
      }
      if y in l[k..] {
        var i :| k <= i < |l| && l[i] == y;
        assert y in l;
      }
    }
    SortedUnique(Newer, Filter(After(c), b), l[k..]);
  }

  lemma OneSourcePage(b: Box, c: Cursor, limit: nat, l: seq<Entry>, k: nat)
    requires OneScore([b]) && Sorted(Newer, b) && l == Filter(AtMostScore(RangeMax(c)), b) && Sorted(Newer, l) && k <= |l|
    requires l[k..] == Filter(After(c), b)
    requires forall i :: 0 <= i < k ==> !After(c)(l[i])
    requires forall i :: k <= i < |l| ==> After(c)(l[i])
    ensures PageExact([b], c, limit) <==> k <= TIE_SLACK || |l| <= Need(limit) || k == |l|
  {
    hide Filter, Remaining, Delivered, Everything, FetchAll, Take, After, OneScore;
    DeliveredIsPart([b], c, limit);
    RemainingIsUnion([b], c);
    JustOne(b, c, limit);
    NewerIsTotal();
    FilterMembers(After(c), b);
    SortedUnique(Newer, Remaining([b], c), l[k..]);
    var part := if Need(limit) <= k then [] else Take(Need(limit) - k, l[k..]);
    ReadBehind(l, k, Need(limit), c);
    SortedUnique(Newer, Delivered([b], c, limit), part);
    HeadsAgreeIff(part, l[k..], limit, k);
  }

  lemma JustOne(b: Box, c: Cursor, limit: nat)
    ensures Everything([b]) == b && FetchAll([b], c, limit) == Fetch(b, c, limit)
  {
    hide Fetch;
    assert [b][1..] == [];
    assert b + [] == b && Fetch(b, c, limit) + [] == Fetch(b, c, limit);
  }

  lemma HeadsAgreeIff(part: seq<Entry>, rest: seq<Entry>, limit: nat, k: nat)
    requires part == if Need(limit) <= k then [] else Take(Need(limit) - k, rest)
    ensures Take(limit + 1, part) == Take(limit + 1, rest) <==> k <= TIE_SLACK || k + |rest| <= Need(limit) || rest == []
  {
    if k > TIE_SLACK && k + |rest| > Need(limit) && rest != [] {
      assert |part| < limit + 1 && |part| < |rest|;
    }
  }

  /** What a read leaves behind the cursor. */
  lemma ReadBehind(l: seq<Entry>, k: nat, n: nat, c: Cursor)
    requires Sorted(Newer, l) && k <= |l|
    requires forall i :: 0 <= i < k ==> !After(c)(l[i])
    requires forall i :: k <= i < |l| ==> After(c)(l[i])
    ensures var part := if n <= k then [] else Take(n - k, l[k..]);
            Sorted(Newer, part) && forall y :: y in part <==> y in Take(n, l) && After(c)(y)
  {
    var part := if n <= k then [] else Take(n - k, l[k..]);
    var read := Take(n, l);
    forall y | y in read && After(c)(y) ensures y in part {
      var i :| 0 <= i < |read| && read[i] == y;
      assert part[i - k] == y;
    }
    forall y | y in part ensures y in read && After(c)(y) {
      var i :| 0 <= i < |part| && part[i] == y;
      assert read[i + k] == y;
    }
  }

  /** When ties fill the whole fetch, nothing is delivered, whatever remains behind them. */
  lemma TiesBeyondTheSlackLoseThePage(b: Box, c: Cursor, limit: nat)
    requires Sorted(Newer, b) && |Filter(TiedBefore(c), b)| >= limit + 17
    ensures Delivered([b], c, limit) == []
  {
    var l := Filter(AtMostScore(RangeMax(c)), b);
    FilterSorted(Newer, AtMostScore(RangeMax(c)), b);
    var k := AfterSuffix(c, l);
    var tied := Filter(TiedBefore(c), b);
    FilterSorted(Newer, TiedBefore(c), b);
    NewerDistinct(tied);
    forall y | y in tied ensures y in l[..k] {
      var j :| 0 <= j < |l| && l[j] == y;
    }
    DistinctFit(tied, l[..k]);
    TakeMembers(Need(limit), l);
    var f := FetchAll([b], c, limit);
    assert FetchAll([b][1..], c, limit) == [];
    assert f == Fetch(b, c, limit) + [];
    NothingAfter(f, c);
  }

  lemma NothingAfter(es: seq<Entry>, c: Cursor)
    requires forall e :: e in es ==> !After(c)(e)
    ensures Filter(After(c), Merged(es)) == []
  {
    NewerIsTotal();
    DedupeSubset(es);
    SortSorts(Newer, Dedupe(es));
    FilterNone(After(c), Merged(es));
  }

  // ---- Whole walks ----

  /** What a client collects that follows the next cursor until hasMore is false. */
  ghost function Walk(boxes: seq<Box>, limit: nat, c: Cursor, pages: nat): seq<Entry>
    decreases pages
  {
    if pages == 0 then []
    else
      var rest := Delivered(boxes, c, limit);
      var entries := Take(limit, rest);
      if |rest| > limit && entries != []
      then entries + Walk(boxes, limit, Behind(entries[|entries| - 1]), pages - 1)
      else entries
  }

  lemma TakeFewer<T>(n: nat, m: nat, a: seq<T>, b: seq<T>)
    requires m <= n && Take(n, a) == Take(n, b)
    ensures Take(m, a) == Take(m, b)
    ensures |a| >= n <==> |b| >= n
  {
    assert Take(m, a) == Take(m, Take(n, a));
    assert Take(m, b) == Take(m, Take(n, b));
  }

  /** Behind the last entry of a page lies exactly the rest of the list. */
  lemma RemainderAfter(boxes: seq<Box>, c: Cursor, n: nat)
    requires OneScore(boxes)
    requires 0 < n <= |Remaining(boxes, c)|
    ensures Remaining(boxes, Behind(Remaining(boxes, c)[n - 1])) == Remaining(boxes, c)[n..]
  {
    RemainingIsUnion(boxes, c);
    var whole := Remaining(boxes, c);
    var d := Behind(whole[n - 1]);
    RemainingIsUnion(boxes, d);
    CutSorted(whole, n, c, Remaining(boxes, d));
  }

  ghost predicate NeverManyTies(boxes: seq<Box>) {
    forall c :: FewTies(boxes, c)
  }

  lemma PageStep(boxes: seq<Box>, limit: nat, c: Cursor)
    requires AllSorted(boxes) && OneScore(boxes) && NeverManyTies(boxes)
    ensures Take(limit, Delivered(boxes, c, limit)) == Take(limit, Remaining(boxes, c))
    ensures |Delivered(boxes, c, limit)| > limit <==> |Remaining(boxes, c)| > limit
  {
    assert FewTies(boxes, c);
    FewTiesMakeItExact(boxes, c, limit);
    TakeFewer(limit + 1, limit, Delivered(boxes, c, limit), Remaining(boxes, c));
  }

  /** One page followed by a walk over the tail is a walk over the whole list. */
  lemma WalkJoins(boxes: seq<Box>, limit: nat, c: Cursor, pages: nat, whole: seq<Entry>)
    requires 0 < limit < |whole| && pages > 0
    requires Take(limit, Delivered(boxes, c, limit)) == Take(limit, whole) && |Delivered(boxes, c, limit)| > limit
    requires Walk(boxes, limit, Behind(whole[limit - 1]), pages - 1) == whole[limit..]
    ensures Walk(boxes, limit, c, pages) == whole
  {
    var entries := Take(limit, Delivered(boxes, c, limit));
    assert entries == whole[..limit] && entries[|entries| - 1] == whole[limit - 1];
    HeadAndTail(whole, limit);
  }

  /** Chained cursors list every remaining post exactly once, in order. */
  lemma {:induction false} WalkListsEverythingOnce(boxes: seq<Box>, limit: nat, c: Cursor, pages: nat)
    requires limit > 0 && AllSorted(boxes) && OneScore(boxes) && NeverManyTies(boxes)
    requires pages > |Remaining(boxes, c)|
    ensures Walk(boxes, limit, c, pages) == Remaining(boxes, c)
    decreases pages
  {
    hide Remaining, Delivered;
    PageStep(boxes, limit, c);
    var whole := Remaining(boxes, c);
    if |whole| > limit {
      RemainderAfter(boxes, c, limit);
      WalkListsEverythingOnce(boxes, limit, Behind(whole[limit - 1]), pages - 1);
      WalkJoins(boxes, limit, c, pages, whole);
    }
  }
}
