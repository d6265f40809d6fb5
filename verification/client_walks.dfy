/**
 What a client gets who starts without a cursor and keeps sending back the cursor text of the
 last page: for each of the paginated lists, everything, once, in order.
 */
module ClientWalks {
  import opened Prelude
  import opened Decimal
  import opened Ordered
  import opened Recency
  import opened SortedSet
  import Bitmap
  import LikerScan
  import Likers
  import RelationList
  import Timeline
  import TimelineMerge

  /** Scores and ids that fit the integers of the cursor text. */
  predicate Fits(e: Entry) {
    -INT64_LIMIT <= e.score < INT64_LIMIT && e.id < UINT64_LIMIT
  }

  ghost predicate AllFit(es: seq<Entry>) {
    forall e :: e in es ==> Fits(e)
  }

  // ---- Home timeline ----

  /** The entries of up to `pages` pages, until hasMore is false. */
  function TimelinePages(inbox: seq<Z>, boxes: seq<seq<Z>>, raw: string, limit: int, pages: nat): seq<Entry>
    decreases pages
  {
    if pages == 0 then []
    else
      match Timeline.PageOf(inbox, Some(boxes), raw, limit)
      case InvalidCursor => []
      case Page(entries, next, hasMore) =>
        if hasMore then entries + TimelinePages(inbox, boxes, next, limit, pages - 1) else entries
  }

  ghost predicate SourcesFit(sources: seq<TimelineMerge.Box>) {
    forall b :: b in sources ==> AllFit(b)
  }

  lemma DeliveredFits(sources: seq<TimelineMerge.Box>, c: Cursor, limit: nat)
    requires TimelineMerge.OneScore(sources) && SourcesFit(sources)
    ensures AllFit(TimelineMerge.Delivered(sources, c, limit))
  {
    hide Fits, TimelineMerge.Delivered, TimelineMerge.FetchAll, TimelineMerge.Everything, TimelineMerge.Remaining;
    TimelineMerge.DeliveredIsPart(sources, c, limit);
    TimelineMerge.RemainingIsUnion(sources, c);
    forall e | e in TimelineMerge.Delivered(sources, c, limit) ensures Fits(e) {
      TimelineMerge.EverythingIn(sources, e);
    }
  }

  /** A page over the wire is a page of the merge, and its cursor text stands behind its last entry. */
  lemma TimelinePage(inbox: seq<Z>, boxes: seq<seq<Z>>, raw: string, c: Cursor, limit: nat)
    requires limit > 0 && Timeline.ParseCursor(raw) == Some(c) && Timeline.AllCanonical([inbox] + boxes)
    requires var sources := Timeline.Decoded([inbox] + boxes); TimelineMerge.OneScore(sources) && SourcesFit(sources)
    ensures var delivered := TimelineMerge.Delivered(Timeline.Decoded([inbox] + boxes), c, limit);
            var page := Timeline.PageOf(inbox, Some(boxes), raw, limit);
            && page.Page? && page.entries == Take(limit, delivered) && page.hasMore == (|delivered| > limit)
            && (page.hasMore ==> page.entries != [])
            && (page.hasMore ==> Timeline.ParseCursor(page.next) == Some(Behind(page.entries[|page.entries| - 1])))
  {
    hide Timeline.ParseCursor, Timeline.EncodeCursor, Timeline.ReadBox, Timeline.ReadBoxes, Timeline.Decoded,
         TimelineMerge.FetchAll, TimelineMerge.Merged, Filter;
    var sources := Timeline.Decoded([inbox] + boxes);
    Timeline.ReadsOfSources(inbox, boxes, c, limit);
    DeliveredFits(sources, c, limit);
    var delivered := TimelineMerge.Delivered(sources, c, limit);
    var entries := Take(limit, delivered);
    if entries != [] {
      assert entries[|entries| - 1] == delivered[|entries| - 1] && Fits(delivered[|entries| - 1]);
      Timeline.CursorRoundTrip(entries[|entries| - 1]);
    }
  }

  lemma {:induction false} TimelinePagesAreTheWalk(inbox: seq<Z>, boxes: seq<seq<Z>>, raw: string, c: Cursor, limit: nat, pages: nat)
    requires limit > 0 && Timeline.ParseCursor(raw) == Some(c) && Timeline.AllCanonical([inbox] + boxes)
    requires var sources := Timeline.Decoded([inbox] + boxes); TimelineMerge.OneScore(sources) && SourcesFit(sources)
    ensures TimelinePages(inbox, boxes, raw, limit, pages)
            == TimelineMerge.Walk(Timeline.Decoded([inbox] + boxes), limit, c, pages)
    decreases pages
  {
    hide Timeline.ParseCursor, Timeline.PageOf, Timeline.Decoded, Timeline.AllCanonical,
         TimelineMerge.Delivered, TimelineMerge.OneScore, SourcesFit;
    if pages > 0 {
      TimelinePage(inbox, boxes, raw, c, limit);
      var page := Timeline.PageOf(inbox, Some(boxes), raw, limit);
      if page.hasMore {
        TimelinePagesAreTheWalk(inbox, boxes, page.next, Behind(page.entries[|page.entries| - 1]), limit, pages - 1);
      }
    }
  }

  /** The pages of the home timeline are the sorted, deduplicated union of all sources. */
  lemma TimelineClientSeesEverything(inbox: seq<Z>, boxes: seq<seq<Z>>, limit: nat, pages: nat)
    requires limit > 0 && Timeline.AllCanonical([inbox] + boxes)
    requires var sources := Timeline.Decoded([inbox] + boxes);
             && TimelineMerge.OneScore(sources) && SourcesFit(sources) && TimelineMerge.NeverManyTies(sources)
             && pages > |TimelineMerge.Remaining(sources, Start)|
    ensures TimelinePages(inbox, boxes, "", limit, pages)
            == TimelineMerge.Remaining(Timeline.Decoded([inbox] + boxes), Start)
  {
    hide Timeline.PageOf, Timeline.Decoded, TimelineMerge.Remaining, TimelineMerge.Walk, SourcesFit;
    var sources := Timeline.Decoded([inbox] + boxes);
    Timeline.ReadsOfSources(inbox, boxes, Start, limit);
    TimelinePagesAreTheWalk(inbox, boxes, "", Start, limit, pages);
    TimelineMerge.WalkListsEverythingOnce(sources, limit, Start, pages);
  }

  // ---- Likers ----

  function LikerPages(z: seq<Z>, shards: Bitmap.Shards, maxChunk: nat, raw: string, limit: int, pages: nat): seq<Entry>
    decreases pages
  {
    if pages == 0 || Likers.ParseCursor(raw).None? then []
    else
      match Likers.Answer(z, shards, maxChunk, Likers.ParseCursor(raw).value, Likers.ClampLimit(limit))
      case InvalidCursor => []
      case Likers(items, hasMore, next) =>
        if hasMore then items + LikerPages(z, shards, maxChunk, next, limit, pages - 1) else items
  }

  /** A page by time behind the first k members of an index, and where its cursor text stands. */
  lemma LikerPageByTime(z: seq<Z>, shards: Bitmap.Shards, maxChunk: nat, limit: nat, k: nat)
    requires limit > 0 && z != [] && Likers.IsIndex(z) && AllFit(ToEntries(z)) && k <= |z|
    ensures |ToEntries(z)| == |z|
    ensures var es := ToEntries(z);
            var page := Likers.Answer(z, shards, maxChunk, Likers.CursorBehind(z, k), limit);
            && page.Likers? && page.items == es[k..][..Min(limit, |z| - k)] && (page.hasMore <==> k + limit < |z|)
            && (page.hasMore ==> Likers.ParseCursor(page.cursor) == Some(Likers.CursorBehind(z, k + limit)))
  {
    hide ToEntries, ParseUint, Likers.Found, Likers.ParseCursor, Likers.EncodeTimeCursor, Likers.IsIndex, EntryOf, Fits;
    Likers.PageBehindMembers(z, limit, k);
    var es := ToEntries(z);
    if k + limit < |z| {
      Likers.DecodedAt(z, k + limit - 1);
      assert es[k + limit - 1] in es;
      FitsMeans(es[k + limit - 1]);
      Likers.TimeCursorRoundTrip(es[k + limit - 1]);
    }
  }

  lemma FitsMeans(e: Entry)
    requires Fits(e)
    ensures -INT64_LIMIT <= e.score < INT64_LIMIT && e.id < UINT64_LIMIT
  {
  }

  lemma {:induction false} LikerPagesFrom(z: seq<Z>, shards: Bitmap.Shards, maxChunk: nat, raw: string, limit: int, k: nat, pages: nat)
    requires z != [] && Likers.IsIndex(z) && AllFit(ToEntries(z)) && k <= |z| && pages > |z| - k
    requires Likers.ParseCursor(raw) == Some(Likers.CursorBehind(z, k))
    ensures |ToEntries(z)| == |z| && LikerPages(z, shards, maxChunk, raw, limit, pages) == ToEntries(z)[k..]
    decreases pages
  {
    hide ToEntries, Likers.ParseCursor, Likers.Answer, Likers.IsIndex, Likers.CursorBehind, AllFit;
    var n := Likers.ClampLimit(limit);
    LikerPageByTime(z, shards, maxChunk, n, k);
    var es := ToEntries(z);
    if k + n < |z| {
      var page := Likers.Answer(z, shards, maxChunk, Likers.CursorBehind(z, k), n);
      LikerPagesFrom(z, shards, maxChunk, page.cursor, limit, k + n, pages - 1);
      assert es[k..][..n] + es[k + n..] == es[k..];
    }
  }

  /** With a time index: every member once, newest first. */
  lemma LikerClientSeesTheIndex(z: seq<Z>, shards: Bitmap.Shards, maxChunk: nat, limit: int, pages: nat)
    requires z != [] && Likers.IsIndex(z) && AllFit(ToEntries(z)) && pages > |z|
    ensures LikerPages(z, shards, maxChunk, "", limit, pages) == ToEntries(z)
  {
    hide ToEntries, LikerPages, Likers.IsIndex, AllFit;
    LikerPagesFrom(z, shards, maxChunk, "", limit, 0, pages);
    assert ToEntries(z)[0..] == ToEntries(z);
  }

  function AsEntries(users: seq<nat>): seq<Entry> {
    seq(|users|, i requires 0 <= i < |users| => Entry(users[i], 0))
  }

  /** A page by id, and where its cursor text stands. */
  lemma LikerPageByID(shards: Bitmap.Shards, maxChunk: nat, cursor: nat, limit: nat)
    requires limit > 0 && maxChunk * Bitmap.CHUNK_SIZE <= UINT64_LIMIT
    ensures var listed := LikerScan.Listed(shards, cursor + 1, maxChunk * Bitmap.CHUNK_SIZE);
            var page := Likers.Answer([], shards, maxChunk, Likers.Cursor(false, 0, cursor), limit);
            && page.Likers? && page.items == AsEntries(Take(limit, listed)) && (page.hasMore <==> |listed| > limit)
            && (page.hasMore ==> Likers.ParseCursor(page.cursor) == Some(Likers.Cursor(false, 0, listed[limit - 1])))
  {
    hide LikerScan.Listed, Likers.ParseCursor, Likers.EncodeUIDCursor;
    var listed := LikerScan.Listed(shards, cursor + 1, maxChunk * Bitmap.CHUNK_SIZE);
    LikerScan.ListedMembers(shards, cursor + 1, maxChunk * Bitmap.CHUNK_SIZE);
    assert Take(limit, Take(limit + 1, listed)) == Take(limit, listed);
    if |listed| > limit {
      assert listed[limit - 1] in listed;
      Likers.UIDCursorRoundTrip(listed[limit - 1]);
    }
  }

  lemma {:induction false} LikerPagesByID(shards: Bitmap.Shards, maxChunk: nat, raw: string, cursor: nat, limit: int, pages: nat)
    requires maxChunk * Bitmap.CHUNK_SIZE <= UINT64_LIMIT
    requires Likers.ParseCursor(raw) == Some(Likers.Cursor(false, 0, cursor))
    ensures LikerPages([], shards, maxChunk, raw, limit, pages)
            == AsEntries(LikerScan.Walk(shards, maxChunk, Likers.ClampLimit(limit), cursor, pages))
    decreases pages
  {
    hide LikerScan.Listed, Likers.ParseCursor, Likers.Answer;
    if pages > 0 {
      var n := Likers.ClampLimit(limit);
      LikerPageByID(shards, maxChunk, cursor, n);
      var listed := LikerScan.Listed(shards, cursor + 1, maxChunk * Bitmap.CHUNK_SIZE);
      var page := Likers.Answer([], shards, maxChunk, Likers.Cursor(false, 0, cursor), n);
      if page.hasMore {
        LikerPagesByID(shards, maxChunk, page.cursor, listed[n - 1], limit, pages - 1);
      }
      assert Take(n, Take(n + 1, listed)) == Take(n, listed);
    }
  }

  /** Without one: every user of the scanned chunks whose bit is set, once, by ascending id. */
  lemma LikerClientSeesTheBitmap(shards: Bitmap.Shards, maxChunk: nat, limit: int, pages: nat)
    requires maxChunk * Bitmap.CHUNK_SIZE <= UINT64_LIMIT
    requires pages > |LikerScan.Listed(shards, 1, maxChunk * Bitmap.CHUNK_SIZE)|
    ensures LikerPages([], shards, maxChunk, "", limit, pages)
            == AsEntries(LikerScan.Listed(shards, 1, maxChunk * Bitmap.CHUNK_SIZE))
  {
    hide LikerScan.Listed, LikerPages, AsEntries;
    LikerPagesByID(shards, maxChunk, "", 0, limit, pages);
    LikerScan.WalkListsEveryLiker(shards, maxChunk, Likers.ClampLimit(limit), 0, pages);
  }

  // ---- Following and follower lists ----

  /** The ids of up to `pages` pages, until one is empty. */
  function RelationPages(z: seq<Z>, db: seq<Entry>, raw: string, limit: nat, pages: nat): seq<nat>
    decreases pages
  {
    if pages == 0 || RelationList.ParseCursor(raw).None? then []
    else
      match RelationList.Answer(RelationList.PageEntries(z, Some(db), RelationList.ParseCursor(raw).value, limit))
      case InvalidCursor => []
      case Listed(ids, next) => if ids == [] then [] else ids + RelationPages(z, db, next, limit, pages - 1)
  }

  function IDs(es: seq<Entry>): seq<nat> {
    seq(|es|, i requires 0 <= i < |es| => es[i].id)
  }

  lemma {:induction false} RelationPagesFrom(z: seq<Z>, db: seq<Entry>, raw: string, limit: nat, k: nat, pages: nat)
    requires limit > 0 && RelationList.IsTable(db) && RelationList.CachesPrefixEverywhere(z, db) && AllFit(db)
    requires k <= |db| && pages > |db| - k
    requires RelationList.ParseCursor(raw) == Some(RelationList.CursorBehind(db, k))
    ensures RelationPages(z, db, raw, limit, pages) == IDs(db[k..])
    decreases pages
  {
    hide RelationList.PageEntries, RelationList.IsTable, RelationList.CachesPrefixEverywhere,
         RelationList.ParseCursor, RelationList.EncodeCursor;
    RelationList.PageBehindRows(z, db, limit, k);
    if k < |db| {
      var n := Min(limit, |db| - k);
      var page := RelationList.PageEntries(z, Some(db), RelationList.CursorBehind(db, k), limit);
      assert page == db[k..k + n];
      assert db[k + n - 1] in db;
      RelationList.CursorRoundTrip(db[k + n - 1]);
      RelationPagesFrom(z, db, RelationList.EncodeCursor(db[k + n - 1]), limit, k + n, pages - 1);
    }
  }

  /** Every row of the database once, newest first, however little of it the cache holds. */
  lemma RelationClientSeesEveryRow(z: seq<Z>, db: seq<Entry>, limit: nat, pages: nat)
    requires limit > 0 && RelationList.IsTable(db) && RelationList.CachesPrefixEverywhere(z, db) && AllFit(db)
    requires pages > |db|
    ensures RelationPages(z, db, "", limit, pages) == IDs(db)
  {
    hide RelationPages, RelationList.IsTable, RelationList.CachesPrefixEverywhere, AllFit;
    RelationPagesFrom(z, db, "", limit, 0, pages);
    assert db[0..] == db;
  }
}
