/**
 The home timeline reader: the reader's inbox and the boxes of the followed celebrities,
 read from Redis sorted sets and served one page at a time behind a text cursor.
 */
module Timeline {
  import opened Prelude
  import opened Decimal
  import opened Ordered
  import opened Recency
  import opened SortedSet
  import opened TimelineMerge
  import B = TrimmedBox

  datatype Page = InvalidCursor | Page(entries: seq<Entry>, next: string, hasMore: bool)

  // ---- Cursor text ----

  function EncodeCursor(e: Entry): string {
    "t:" + FormatInt(e.score) + ":" + Format(e.id)
  }

  function ParseCursor(raw: string): Option<Cursor> {
    if raw == "" then Some(Start)
    else if !("t:" <= raw) then None
    else match Cut(raw[2..], ':')
         case None => None
         case Some((ts, id)) =>
           match (ParseInt(ts), ParseUint(id))
           case (Some(score), Some(post)) => Some(At(score, post))
           case _ => None
  }

  /** A cursor the server hands out is read back as the very position it was made from. */
  lemma CursorRoundTrip(e: Entry)
    requires -INT64_LIMIT <= e.score < INT64_LIMIT && e.id < UINT64_LIMIT
    ensures ParseCursor(EncodeCursor(e)) == Some(Behind(e))
  {
    hide Format, ParseUint, FormatInt, ParseInt;
    var body := FormatInt(e.score) + [':'] + Format(e.id);
    assert EncodeCursor(e) == "t:" + body;
    assert EncodeCursor(e)[2..] == body;
    FormatIntHasNoColon(e.score);
    CutAtSeparator(FormatInt(e.score), ':', Format(e.id));
    ParseIntFormatInt(e.score);
    ParseUintFormat(e.id);
  }

  // ---- Reading ----

  function ReadBox(z: seq<Z>, c: Cursor, limit: nat): seq<Entry> {
    ToEntries(RevRangeByScore(z, RangeMax(c), Need(limit)))
  }

  function ReadBoxes(boxes: seq<seq<Z>>, c: Cursor, limit: nat): seq<Entry> {
    if boxes == [] then []
    else ReadBoxes(boxes[..|boxes| - 1], c, limit) + ReadBox(boxes[|boxes| - 1], c, limit)
  }

  /** What one call answers: the merged reads, cut at the cursor. */
  function PageOf(inbox: seq<Z>, boxes: Option<seq<seq<Z>>>, cursor: string, limit: int): Page {
    var size: nat := if limit <= 0 then 20 else limit;
    match ParseCursor(cursor)
    case None => InvalidCursor
    case Some(c) =>
      var pulled := if boxes.Some? then ReadBoxes(boxes.value, c, size) else [];
      CutPage(Filter(After(c), Merged(ReadBox(inbox, c, size) + pulled)), size)
  }

  /** The first `limit` entries, the cursor of the last one, and whether anything follows. */
  function CutPage(rest: seq<Entry>, limit: nat): Page {
    var entries := Take(limit, rest);
    Page(entries, if entries == [] then "" else EncodeCursor(entries[|entries| - 1]), |rest| > limit)
  }

  method PullBoxes(boxes: seq<seq<Z>>, c: Cursor, limit: nat) returns (out: seq<Entry>)
    ensures out == ReadBoxes(boxes, c, limit)
  {
    out := [];
    for i := 0 to |boxes|
      invariant out == ReadBoxes(boxes[..i], c, limit)
    {
      assert boxes[..i + 1][..i] == boxes[..i];
      var items := DecodeEntries(RevRangeByScore(boxes[i], RangeMax(c), Need(limit)));
      out := out + items;
    }
    assert boxes[..|boxes|] == boxes;
  }

  method MergeTimelines(pushed: seq<Entry>, pulled: seq<Entry>) returns (merged: seq<Entry>)
    ensures merged == Merged(pushed + pulled)
  {
    var all := pushed + pulled;
    var seen: set<nat> := {};
    merged := [];
    for i := 0 to |all|
      invariant merged == Dedupe(all[..i])
      invariant seen == Ids(merged)
    {
      assert all[..i + 1][..i] == all[..i];
      if all[i].id !in seen {
        seen := seen + {all[i].id};
        merged := merged + [all[i]];
      }
    }
    assert all[..|all|] == all;
    merged := Sort(Newer, merged);
  }

  method CutAfter(merged: seq<Entry>, c: Cursor, size: nat) returns (entries: seq<Entry>)
    ensures entries == Take(size + 1, Filter(After(c), merged))
  {
    entries := [];
    var i := 0;
    while i < |merged| && |entries| <= size
      invariant 0 <= i <= |merged|
      invariant entries == Filter(After(c), merged[..i])
      invariant |entries| <= size + 1
    {
      assert merged[..i + 1] == merged[..i] + [merged[i]];
      FilterConcat(After(c), merged[..i], [merged[i]]);
      if After(c)(merged[i]) {
        entries := entries + [merged[i]];
      }
      i := i + 1;
    }
    HeadAndTail(merged, i);
    FilterConcat(After(c), merged[..i], merged[i..]);
  }

  /**
   One page. `boxes` holds the boxes of the followed celebrities, or nothing when pulling
   them failed; then the inbox alone is served.
   */
  method HomeTimeline(inbox: seq<Z>, boxes: Option<seq<seq<Z>>>, cursor: string, limit: int) returns (page: Page)
    ensures page == PageOf(inbox, boxes, cursor, limit)
  {
    hide Filter, Merged, ReadBox, ReadBoxes, EncodeCursor;
    var size: nat := if limit <= 0 then 20 else limit;
    var parsed := ParseCursor(cursor);
    if parsed.None? {
      return InvalidCursor;
    }
    var c := parsed.value;
    var pushed := ReadInbox(inbox, c, size);
    var pulled: seq<Entry> := [];
    if boxes.Some? {
      pulled := PullBoxes(boxes.value, c, size);
    }
    var merged := MergeTimelines(pushed, pulled);
    var entries := CutAfter(merged, c, size);
    var hasMore := |entries| > size;
    if hasMore {
      entries := entries[..size];
    }
    page := Page(entries, if entries == [] then "" else EncodeCursor(entries[|entries| - 1]), hasMore);
  }

  method ReadInbox(inbox: seq<Z>, c: Cursor, limit: nat) returns (out: seq<Entry>)
    ensures out == ReadBox(inbox, c, limit)
  {
    out := DecodeEntries(RevRangeByScore(inbox, RangeMax(c), Need(limit)));
  }

  // ---- From sorted sets to the merge ----

  /** Members are decimal ids, and ids tied on a score print with equally many digits. */
  ghost predicate Canonical(z: seq<Z>) {
    && IsZSet(z)
    && (forall x :: x in z ==> CanonicalMember(x.member))
    && (forall x, y :: x in z && y in z && x.score == y.score ==> |x.member| == |y.member|)
  }

  ghost predicate AllCanonical(boxes: seq<seq<Z>>) {
    forall z :: z in boxes ==> Canonical(z)
  }

  function Decoded(boxes: seq<seq<Z>>): seq<Box> {
    seq(|boxes|, i requires 0 <= i < |boxes| => ToEntries(boxes[i]))
  }

  /** Equal widths make the order Redis lists a box in the timeline order. */
  lemma CanonicalSorted(z: seq<Z>)
    requires Canonical(z)
    ensures Sorted(Newer, ToEntries(z))
  {
    hide Format, ParseUint, ToEntries, LexLess;
    assert forall x :: x in z ==> CanonicalMember(x.member);
    CanonicalEntries(z);
    var es := ToEntries(z);
    forall i, j | 0 <= i < j < |es| ensures Newer(es[i], es[j]) {
      assert RedisAbove(z[i], z[j]) && z[i] in z && z[j] in z;
      if z[i].score == z[j].score {
        EqualWidthOrder(EntryOf(z[j]).id, EntryOf(z[i]).id);
      }
    }
  }

  /** One read is the head of the decoded box below the cursor's score. */
  lemma ReadIsFetch(z: seq<Z>, c: Cursor, limit: nat)
    requires Canonical(z)
    ensures ReadBox(z, c, limit) == Fetch(ToEntries(z), c, limit)
  {
    hide Format, ParseUint, Filter, ToEntries;
    var f := Filter(AtMost(RangeMax(c)), z);
    assert forall x :: x in z ==> CanonicalMember(x.member);
    FilterMembers(AtMost(RangeMax(c)), z);
    ToEntriesFilter(AtMost(RangeMax(c)), AtMostScore(RangeMax(c)), z);
    ToEntriesTake(f, Need(limit));
  }

  lemma {:induction false} ReadsAreFetches(boxes: seq<seq<Z>>, c: Cursor, limit: nat)
    requires AllCanonical(boxes)
    ensures ReadBoxes(boxes, c, limit) == FetchAll(Decoded(boxes), c, limit)
  {
    hide Canonical, ReadBox, Fetch, ToEntries;
    if boxes != [] {
      var n := |boxes| - 1;
      ReadsAreFetches(boxes[..n], c, limit);
      ReadIsFetch(boxes[n], c, limit);
      assert Decoded(boxes) == Decoded(boxes[..n]) + [ToEntries(boxes[n])];
      FetchAllAppends(Decoded(boxes[..n]), ToEntries(boxes[n]), c, limit);
    }
  }

  lemma {:induction false} FetchAllAppends(bs: seq<Box>, b: Box, c: Cursor, limit: nat)
    ensures FetchAll(bs + [b], c, limit) == FetchAll(bs, c, limit) + Fetch(b, c, limit)
  {
    hide Fetch;
    if bs == [] {
      assert [] + [b] == [b] && FetchAll([b][1..], c, limit) == [];
    } else {
      assert (bs + [b])[1..] == bs[1..] + [b];
      FetchAllAppends(bs[1..], b, c, limit);
    }
  }

  lemma ReadsOfSources(inbox: seq<Z>, boxes: seq<seq<Z>>, c: Cursor, limit: nat)
    requires AllCanonical([inbox] + boxes)
    ensures ReadBox(inbox, c, limit) + ReadBoxes(boxes, c, limit) == FetchAll(Decoded([inbox] + boxes), c, limit)
    ensures AllSorted(Decoded([inbox] + boxes))
  {
    hide Canonical, ReadBox, Fetch, ToEntries, ReadBoxes;
    var sources := [inbox] + boxes;
    assert inbox in sources && forall z :: z in boxes ==> z in sources;
    ReadsAreFetches(boxes, c, limit);
    ReadIsFetch(inbox, c, limit);
    assert Decoded(sources) == [ToEntries(inbox)] + Decoded(boxes);
    assert Decoded(sources)[1..] == Decoded(boxes);
    forall i | 0 <= i < |sources| ensures Sorted(Newer, Decoded(sources)[i]) {
      assert sources[i] in sources;
      CanonicalSorted(sources[i]);
    }
  }

  // ---- Main results ----

  /**
   A call answers exactly the first `limit` entries (20 when no limit is given) of the sorted,
   deduplicated union of all sources after the cursor, with an exact hasMore and the cursor of the
   last entry.
   */
  lemma HomeTimelineIsExact(inbox: seq<Z>, boxes: seq<seq<Z>>, cursor: string, limit: int)
    requires ParseCursor(cursor).Some?
    requires AllCanonical([inbox] + boxes) && OneScore(Decoded([inbox] + boxes))
    requires FewTies(Decoded([inbox] + boxes), ParseCursor(cursor).value)
    ensures PageOf(inbox, Some(boxes), cursor, limit)
            == CutPage(Remaining(Decoded([inbox] + boxes), ParseCursor(cursor).value), if limit > 0 then limit else 20)
  {
    hide ParseCursor, ReadBox, ReadBoxes, Remaining, FetchAll, Decoded, Merged, Filter;
    var c := ParseCursor(cursor).value;
    var sources := Decoded([inbox] + boxes);
    var size: nat := if limit > 0 then limit else 20;
    ReadsOfSources(inbox, boxes, c, size);
    FewTiesMakeItExact(sources, c, size);
    SamePage(Delivered(sources, c, size), Remaining(sources, c), size);
  }

  lemma SamePage(a: seq<Entry>, b: seq<Entry>, limit: nat)
    requires Take(limit + 1, a) == Take(limit + 1, b)
    ensures CutPage(a, limit) == CutPage(b, limit)
  {
    hide EncodeCursor;
    TakeFewer(limit + 1, limit, a, b);
  }

  /** When pulling the celebrity boxes fails, the page is that of the inbox alone. */
  lemma PullFailureServesTheInbox(inbox: seq<Z>, cursor: string, limit: int)
    ensures PageOf(inbox, None, cursor, limit) == PageOf(inbox, Some([]), cursor, limit)
  {
  }

  /**
   Why equal widths matter: when more ids tie on a score than a read takes, and the highest of them
   stands by its bytes behind those read, the first page lacks the newest entry.
   */
  lemma UnequalWidthsHideTheNewest(z: seq<Z>, x: Z, limit: nat)
    requires IsZSet(z) && x in z && x !in Take(limit + 17, z) && limit > 0
    requires forall y :: y in z ==> CanonicalMember(y.member)
    requires forall y :: y in z && y != x ==> y.score == x.score && EntryOf(y).id < EntryOf(x).id
    ensures var page := PageOf(z, Some([]), "", limit);
            && page.Page? && EntryOf(x) !in page.entries
            && EntryOf(x) in ToEntries(z) && forall e :: e in ToEntries(z) && e != EntryOf(x) ==> Newer(EntryOf(x), e)
  {
    hide ToEntries, ParseUint, Format, LexLess, Filter, EncodeCursor, Merged, EntryOf;
    var head := Take(Need(limit), z);
    FilterAll(AtMost(None), z);
    assert forall y :: y in head ==> y in z && y != x;
    CanonicalEntries(head);
    CanonicalEntries(z);
    EntryKeepsScore(z);
    var es := ToEntries(head);
    assert ReadBox(z, Start, limit) == es && ReadBoxes([], Start, limit) == [] && es + [] == es;
    NotMerged(es, EntryOf(x));
    var i :| 0 <= i < |z| && z[i] == x;
    assert ToEntries(z)[i] == EntryOf(x);
  }

  lemma EntryKeepsScore(z: seq<Z>)
    ensures forall y :: y in z ==> EntryOf(y).score == y.score
  {
    hide ParseUint;
  }

  lemma NotMerged(es: seq<Entry>, x: Entry)
    requires forall e :: e in es ==> e.id != x.id
    ensures x !in Filter(After(Start), Merged(es))
  {
    hide Sort, Filter;
    DedupeSubset(es);
    NewerIsTotal();
    SortSorts(Newer, Dedupe(es));
    FilterMembers(After(Start), Merged(es));
  }

  // ---- Publishing while somebody pages ----

  /** What a box holds at or below a bound after a newer entry was added and the box trimmed to n. */
  lemma TrimmedBelow(box: seq<Z>, e: Z, n: nat, max: int)
    requires IsZSet(box) && |box| <= n && n > 0 && e.score > max && forall x :: x in box ==> x.member != e.member
    ensures var below := Filter(AtMost(Some(max)), box);
            && Filter(AtMost(Some(max)), B.AddTrim(box, [e], n))
               == (if |box| < n || below == [] then below else below[..|below| - 1])
            && (below != [] ==> box != [] && below[|below| - 1] == box[|box| - 1])
  {
    hide Filter, RedisAbove, Insert, B.AddTrim, IsZSet;
    var p := AtMost(Some(max));
    var below, r := Filter(p, box), Insert(RedisAbove, e, box);
    B.OneAdd(box, e, n);
    FilterAll(OtherThan(e.member), box);
    InsertAboveBound(box, e, max);
    InsertLength(e, box);
    AddKeepsZSet(box, e);
    LowestLast(box, max);
    assert Add(box, e) == r && B.AddTrim(box, [e], n) == Take(n, r);
    LowestLast(r, max);
    if |box| < n {
      assert Take(n, r) == r;
    } else {
      var kept := Filter(p, r[..n]);
      assert Take(n, r) == r[..n];
      assert r == r[..n] + [r[n]];
      FilterSnoc(p, r[..n], r[n]);
      assert below == Filter(p, r) == kept + if p(r[n]) then [r[n]] else [];
      if r[n].score <= max {
        assert below == kept + [r[n]] && below[..|below| - 1] == kept;
      } else {
        assert below == kept + [] == kept;
      }
    }
  }

  lemma {:induction false} InsertLength(e: Z, z: seq<Z>)
    ensures |Insert(RedisAbove, e, z)| == |z| + 1
  {
    hide RedisAbove;
    if z != [] {
      InsertLength(e, z[1..]);
    }
  }

  /** The last entry of a sorted set is within a bound whenever any is, and then it is the last one within. */
  lemma LowestLast(z: seq<Z>, max: int)
    requires IsZSet(z)
    ensures var below := Filter(AtMost(Some(max)), z);
            below != [] <==> z != [] && z[|z| - 1].score <= max
    ensures var below := Filter(AtMost(Some(max)), z);
            below != [] ==> below[|below| - 1] == z[|z| - 1]
  {
    hide Filter;
    var p := AtMost(Some(max));
    FilterMembers(p, z);
    if z != [] {
      var last := z[|z| - 1];
      assert z == z[..|z| - 1] + [last];
      FilterSnoc(p, z[..|z| - 1], last);
      if last.score > max {
        FilterNone(p, z);
      }
    } else {
      FilterNone(p, z);
    }
  }

  /** Taking one entry out of a sorted list changes its page exactly when the page shows it or its hasMore hangs on it. */
  lemma WithoutOneEntry(a: seq<Entry>, b: seq<Entry>, x: Entry, limit: nat)
    requires Sorted(Newer, a) && Sorted(Newer, b) && x in a && forall y :: y in b <==> y in a && y != x
    ensures CutPage(b, limit) == CutPage(a, limit) <==> x !in Take(limit, a) && |a| != limit + 1
  {
    hide EncodeCursor, After;
    var i := PlaceWithout(a, b, x);
    NewerDistinct(a);
    TakeMembers(limit, a);
    TakeMembers(limit, b);
    if x in Take(limit, a) {
      assert x !in Take(limit, b);
    } else {
      assert a[i] == x && i >= limit;
      assert Take(limit, b) == Take(limit, a);
    }
  }

  lemma PlaceWithout(a: seq<Entry>, b: seq<Entry>, x: Entry) returns (i: nat)
    requires Sorted(Newer, a) && Sorted(Newer, b) && x in a && forall y :: y in b <==> y in a && y != x
    ensures i < |a| && a[i] == x && b == a[..i] + a[i + 1..]
  {
    NewerIsTotal();
    NewerDistinct(a);
    i :| 0 <= i < |a| && a[i] == x;
    var c := a[..i] + a[i + 1..];
    forall y ensures y in c <==> y in b {
      if y in b {
        var j :| 0 <= j < |a| && a[j] == y;
        assert c[if j < i then j else j - 1] == y;
      }
    }
    assert Sorted(Newer, c);
    SortedUnique(Newer, b, c);
  }

  function PageFrom(fetched: seq<Entry>, c: Cursor, limit: nat): Page {
    CutPage(Filter(After(c), Merged(fetched)), limit)
  }

  ghost predicate OneScoreEach(es: seq<Entry>) {
    forall a, b :: a in es && b in es && a.id == b.id ==> a == b
  }

  /** Losing one entry of a read changes the page unless another read has it or the page does not hang on it. */
  lemma ReadWithoutOne(before: seq<Entry>, read: seq<Entry>, x: Entry, after: seq<Entry>, c: Cursor, limit: nat)
    requires OneScoreEach(before + (read + [x]) + after) && x !in read
    ensures var rest := Filter(After(c), Merged(before + (read + [x]) + after));
            PageFrom(before + read + after, c, limit) == PageFrom(before + (read + [x]) + after, c, limit) <==>
            x in before || x in after || x !in rest || (x !in Take(limit, rest) && |rest| != limit + 1)
  {
    hide Merged, Filter, CutPage;
    var full, less := before + (read + [x]) + after, before + read + after;
    assert forall y :: y in full <==> y in less || y == x;
    CutOfUnion(full, c);
    CutOfUnion(less, c);
    var a, b := Filter(After(c), Merged(full)), Filter(After(c), Merged(less));
    if x in a && x !in less {
      WithoutOneEntry(a, b, x, limit);
    } else {
      NewerIsTotal();
      assert forall y :: y in a <==> y in b;
      SortedUnique(Newer, a, b);
    }
  }

  /** Publishing into one source, whose read stands between the others. */
  lemma PublishedIntoSource(before: seq<Entry>, box: seq<Z>, after: seq<Entry>, e: Z, n: nat, c: Cursor, limit: nat)
    requires c.At? && e.score > c.score && Canonical(box) && |box| <= n && n > 0
    requires (forall x :: x in box ==> x.member != e.member) && OneScoreEach(before + ReadBox(box, c, limit) + after)
    ensures var fetched := before + ReadBox(box, c, limit) + after;
            PageFrom(before + ReadBox(B.AddTrim(box, [e], n), c, limit) + after, c, limit) == PageFrom(fetched, c, limit) <==>
            |box| < n || TrimHarmless(EntryOf(box[|box| - 1]), before, after, Filter(After(c), Merged(fetched)), limit)
  {
    hide Filter, ToEntries, ParseUint, Merged, CutPage, RedisAbove, B.AddTrim, IsZSet, LexLess, Format;
    var below := Filter(AtMost(RangeMax(c)), box);
    var need := Need(limit);
    FilterMembers(AtMost(RangeMax(c)), box);
    TrimmedBelow(box, e, n, c.score);
    var fetched := before + ReadBox(box, c, limit) + after;
    CutOfUnion(fetched, c);
    if |box| == n {
      var x := box[n - 1];
      if below == [] {
        LowestLast(box, c.score);
        assert !After(c)(EntryOf(x));
      } else if |below| > need {
        assert Take(need, below[..|below| - 1]) == Take(need, below);
        NotRead(box, c, limit);
      } else {
        var init := below[..|below| - 1];
        assert below == init + [x] && Take(need, below) == below && Take(need, init) == init;
        ToEntriesSnoc(init, x);
        LastIsNew(box, c, init, x);
        ReadWithoutOne(before, ToEntries(init), EntryOf(x), after, c, limit);
      }
    }
  }

  /** The entry that a trim cuts off the end of its box is not missed by a page. */
  predicate TrimHarmless(cut: Entry, before: seq<Entry>, after: seq<Entry>, rest: seq<Entry>, limit: nat) {
    cut in before || cut in after || cut !in rest || (cut !in Take(limit, rest) && |rest| != limit + 1)
  }

  /** When a read is full, it does not reach the last entry of its box. */
  lemma NotRead(box: seq<Z>, c: Cursor, limit: nat)
    requires Canonical(box) && c.At? && |Filter(AtMost(RangeMax(c)), box)| > Need(limit)
    ensures box != [] && EntryOf(box[|box| - 1]) !in ReadBox(box, c, limit)
  {
    hide Filter, ParseUint, RedisAbove, LexLess, Format, ToEntries;
    ReadIsFetch(box, c, limit);
    CanonicalSorted(box);
    assert forall x :: x in box ==> CanonicalMember(x.member);
    CanonicalEntries(box);
    LowestLast(box, c.score);
    var es := ToEntries(box);
    var l := Filter(AtMostScore(RangeMax(c)), es);
    ToEntriesFilter(AtMost(RangeMax(c)), AtMostScore(RangeMax(c)), box);
    FilterMembers(AtMost(RangeMax(c)), box);
    CanonicalEntries(Filter(AtMost(RangeMax(c)), box));
    FilterSorted(Newer, AtMostScore(RangeMax(c)), es);
    NewerDistinct(l);
    assert l[|l| - 1] == EntryOf(box[|box| - 1]);
  }

  lemma LastIsNew(box: seq<Z>, c: Cursor, init: seq<Z>, x: Z)
    requires Canonical(box) && Filter(AtMost(RangeMax(c)), box) == init + [x]
    ensures EntryOf(x) !in ToEntries(init)
  {
    hide Filter, ParseUint, RedisAbove, LexLess, Format, ToEntries;
    CanonicalSorted(box);
    assert forall y :: y in box ==> CanonicalMember(y.member);
    FilterMembers(AtMost(RangeMax(c)), box);
    ToEntriesFilter(AtMost(RangeMax(c)), AtMostScore(RangeMax(c)), box);
    FilterSorted(Newer, AtMostScore(RangeMax(c)), ToEntries(box));
    var l := ToEntries(init + [x]);
    assert x in init + [x] && forall y :: y in init ==> y in init + [x];
    ToEntriesSnoc(init, x);
    NewerDistinct(l);
    LastOfDistinct(ToEntries(init), EntryOf(x));
  }

  lemma LastOfDistinct(es: seq<Entry>, x: Entry)
    requires Distinct(es + [x])
    ensures x !in es
  {
    var all := es + [x];
    assert all[|es|] == x && forall i :: 0 <= i < |es| ==> all[i] == es[i];
  }

  lemma {:induction false} ReadBoxesConcat(a: seq<seq<Z>>, b: seq<seq<Z>>, c: Cursor, limit: nat)
    ensures ReadBoxes(a + b, c, limit) == ReadBoxes(a, c, limit) + ReadBoxes(b, c, limit)
  {
    hide ReadBox;
    if b == [] {
      assert a + b == a;
    } else {
      assert (a + b)[..|a + b| - 1] == a + b[..|b| - 1];
      ReadBoxesConcat(a, b[..|b| - 1], c, limit);
    }
  }

  lemma ReadsAround(boxes: seq<seq<Z>>, k: nat, box: seq<Z>, c: Cursor, limit: nat)
    requires k < |boxes|
    ensures ReadBoxes(boxes[k := box], c, limit)
            == ReadBoxes(boxes[..k], c, limit) + ReadBox(box, c, limit) + ReadBoxes(boxes[k + 1..], c, limit)
  {
    hide ReadBox;
    assert boxes[k := box] == boxes[..k] + [box] + boxes[k + 1..];
    ReadBoxesConcat(boxes[..k] + [box], boxes[k + 1..], c, limit);
    ReadBoxesConcat(boxes[..k], [box], c, limit);
    assert [box][..0] == [];
    assert ReadBoxes([box], c, limit) == [] + ReadBox(box, c, limit);
  }

  lemma ReadsHaveOneScore(inbox: seq<Z>, boxes: seq<seq<Z>>, c: Cursor, limit: nat)
    requires AllCanonical([inbox] + boxes) && OneScore(Decoded([inbox] + boxes))
    ensures OneScoreEach(ReadBox(inbox, c, limit) + ReadBoxes(boxes, c, limit))
  {
    hide ReadBox, ReadBoxes, Decoded, FetchAll, Everything;
    var sources := Decoded([inbox] + boxes);
    ReadsOfSources(inbox, boxes, c, limit);
    forall e | e in FetchAll(sources, c, limit) ensures e in Everything(sources) {
      FetchedIsStored(sources, c, limit, e);
    }
  }

  /**
   A post newer than a cursor is published into a celebrity's box, which is trimmed to n: a page
   behind the cursor stays as it is if and only if the box had room, or the entry cut off for it is
   read from another source, or is not behind the cursor, or is neither on the page nor the only
   one behind it.
   */
  lemma PublishingKeepsLaterPagesIff(inbox: seq<Z>, boxes: seq<seq<Z>>, k: nat, e: Z, n: nat, cursor: string, limit: nat)
    requires ParseCursor(cursor).Some? && ParseCursor(cursor).value.At? && e.score > ParseCursor(cursor).value.score
    requires limit > 0 && k < |boxes| && |boxes[k]| <= n && n > 0 && forall x :: x in boxes[k] ==> x.member != e.member
    requires AllCanonical([inbox] + boxes) && OneScore(Decoded([inbox] + boxes))
    ensures var c := ParseCursor(cursor).value;
            var rest := Filter(After(c), Merged(ReadBox(inbox, c, limit) + ReadBoxes(boxes, c, limit)));
            PageOf(inbox, Some(boxes[k := B.AddTrim(boxes[k], [e], n)]), cursor, limit) == PageOf(inbox, Some(boxes), cursor, limit)
            <==> |boxes[k]| < n
                 || TrimHarmless(EntryOf(boxes[k][n - 1]), ReadBox(inbox, c, limit) + ReadBoxes(boxes[..k], c, limit),
                                 ReadBoxes(boxes[k + 1..], c, limit), rest, limit)
  {
    hide ReadBox, ReadBoxes, Merged, CutPage, Filter, ParseCursor, B.AddTrim, Canonical, Decoded, OneScore, EntryOf;
    var c, box := ParseCursor(cursor).value, boxes[k];
    var mine, left, right := ReadBox(inbox, c, limit), ReadBoxes(boxes[..k], c, limit), ReadBoxes(boxes[k + 1..], c, limit);
    ReadsHaveOneScore(inbox, boxes, c, limit);
    assert boxes[k := box] == boxes;
    ReadsAround(boxes, k, box, c, limit);
    ReadsAround(boxes, k, B.AddTrim(box, [e], n), c, limit);
    forall read: seq<Entry> ensures mine + (left + read + right) == mine + left + read + right {
    }
    assert ([inbox] + boxes)[k + 1] == box;
    PublishedIntoSource(mine + left, box, right, e, n, c, limit);
  }

  /** The same for a push into the reader's own inbox. */
  lemma PushingKeepsLaterPagesIff(inbox: seq<Z>, boxes: seq<seq<Z>>, e: Z, n: nat, cursor: string, limit: nat)
    requires ParseCursor(cursor).Some? && ParseCursor(cursor).value.At? && e.score > ParseCursor(cursor).value.score
    requires limit > 0 && |inbox| <= n && n > 0 && forall x :: x in inbox ==> x.member != e.member
    requires AllCanonical([inbox] + boxes) && OneScore(Decoded([inbox] + boxes))
    ensures var c := ParseCursor(cursor).value;
            var rest := Filter(After(c), Merged(ReadBox(inbox, c, limit) + ReadBoxes(boxes, c, limit)));
            PageOf(B.AddTrim(inbox, [e], n), Some(boxes), cursor, limit) == PageOf(inbox, Some(boxes), cursor, limit)
            <==> |inbox| < n || TrimHarmless(EntryOf(inbox[n - 1]), [], ReadBoxes(boxes, c, limit), rest, limit)
  {
    hide ReadBox, ReadBoxes, Merged, CutPage, Filter, ParseCursor, B.AddTrim, Canonical, Decoded, OneScore, EntryOf;
    var c := ParseCursor(cursor).value;
    ReadsHaveOneScore(inbox, boxes, c, limit);
    forall read: seq<Entry> ensures [] + read == read {
    }
    assert ([inbox] + boxes)[0] == inbox;
    PublishedIntoSource([], inbox, ReadBoxes(boxes, c, limit), e, n, c, limit);
  }
}
