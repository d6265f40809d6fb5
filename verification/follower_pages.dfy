/**
 The follower list, paged by its text cursors, is the faithful list service that fan-out and
 celebrity lookup rely on.
 */
module FollowerPages {
  import opened Prelude
  import opened Decimal
  import opened Ordered
  import opened Recency
  import opened SortedSet
  import opened Fanout
  import RelationList
  import Timeline
  import TimelineMerge
  import opened ClientWalks

  /** FollowersCursor and FollowingCursor, with a warmed cache and a working database. */
  function Serving(z: seq<Z>, db: seq<Entry>, batch: nat): Lister {
    (call: nat, cursor: string) => ServedPage(z, db, batch, cursor)
  }

  function ServedPage(z: seq<Z>, db: seq<Entry>, batch: nat, cursor: string): ListPage {
    match RelationList.ParseCursor(cursor)
    case None => ListFailed
    case Some(cur) =>
      match RelationList.Answer(RelationList.PageEntries(z, Some(db), cur, batch))
      case InvalidCursor => ListFailed
      case Listed(ids, next) => Users(ids, next)
  }

  /** The number of rows before a cursor, looking at the first k; a cursor at no row stands past the end. */
  function RowsBehind(db: seq<Entry>, cur: RelationList.ListCursor, k: nat): nat
    requires k <= |db|
  {
    if RelationList.CursorBehind(db, k) == cur then k
    else if k == 0 then |db| + 1
    else RowsBehind(db, cur, k - 1)
  }

  function Standing(db: seq<Entry>): string -> nat {
    (cursor: string) =>
      match RelationList.ParseCursor(cursor)
      case None => |db| + 1
      case Some(cur) => RowsBehind(db, cur, |db|)
  }

  lemma {:induction false} FoundRow(db: seq<Entry>, cur: RelationList.ListCursor, k: nat)
    requires k <= |db|
    ensures var j := RowsBehind(db, cur, k); j <= |db| ==> j <= k && RelationList.CursorBehind(db, j) == cur
  {
    if k > 0 {
      FoundRow(db, cur, k - 1);
    }
  }

  lemma {:induction false} RowIsFound(db: seq<Entry>, i: nat, k: nat)
    requires RelationList.IsTable(db) && i <= k <= |db|
    ensures RowsBehind(db, RelationList.CursorBehind(db, i), k) == i
  {
    if i < k {
      assert i > 0 ==> db[i - 1] != db[k - 1];
      RowIsFound(db, i, k - 1);
    }
  }

  /** One page from a standing cursor, and where the next cursor stands. */
  lemma PageFrom(z: seq<Z>, db: seq<Entry>, batch: nat, cursor: string)
    requires batch > 0 && RelationList.IsTable(db) && RelationList.CachesPrefixEverywhere(z, db) && AllFit(db)
    requires Standing(db)(cursor) <= |db|
    ensures var k, page := Standing(db)(cursor), ServedPage(z, db, batch, cursor);
            && page.Users? && page.ids == Take(batch, IDs(db)[k..])
            && (k + batch <= |db| ==> Standing(db)(page.next) == k + batch)
  {
    hide RelationList.PageEntries, RelationList.IsTable, RelationList.CachesPrefixEverywhere,
         RelationList.ParseCursor, RelationList.EncodeCursor, RelationList.CursorBehind;
    var k := Standing(db)(cursor);
    FoundRow(db, RelationList.ParseCursor(cursor).value, |db|);
    RelationList.PageBehindRows(z, db, batch, k);
    var n := Min(batch, |db| - k);
    assert db[k..][..n] == db[k..k + n];
    assert IDs(db[k..k + n]) == Take(batch, IDs(db)[k..]);
    if k + batch <= |db| {
      assert db[k + n - 1] in db;
      RelationList.CursorRoundTrip(db[k + n - 1]);
      BehindRow(db, k + n);
      RowIsFound(db, k + n, |db|);
    }
  }

  lemma BehindRow(db: seq<Entry>, k: nat)
    requires 0 < k <= |db|
    ensures RelationList.CursorBehind(db, k) == RelationList.Composite(db[k - 1].score, db[k - 1].id)
  {
  }

  lemma RelationListIsFaithful(z: seq<Z>, db: seq<Entry>, batch: nat)
    requires batch > 0 && RelationList.IsTable(db) && RelationList.CachesPrefixEverywhere(z, db) && AllFit(db)
    ensures Faithful(Serving(z, db, batch), IDs(db), Standing(db), batch)
  {
    hide RelationList.IsTable, RelationList.CachesPrefixEverywhere, ServedPage, AllFit;
    var pages, at := Serving(z, db, batch), Standing(db);
    StartsAtTop(db);
    forall call: nat, cursor: string | at(cursor) <= |db|
      ensures pages(call, cursor).Users? && pages(call, cursor).ids == Take(batch, IDs(db)[at(cursor)..])
      ensures at(cursor) + batch <= |db| ==> at(pages(call, cursor).next) == at(cursor) + batch
    {
      PageFrom(z, db, batch, cursor);
    }
  }

  lemma StartsAtTop(db: seq<Entry>)
    requires RelationList.IsTable(db)
    ensures Standing(db)("") == 0
  {
    RowIsFound(db, 0, |db|);
  }

  /**
   A published post and the table of followers, end to end: whatever the cache of the follower list
   holds of it, all follower rows can read the post exactly under the condition on boxes and verdict.
   */
  lemma PostReachesTheTable(cfg: Config, b: Boxes, author: nat, e: Z, sig: Signals, z: seq<Z>, db: seq<Entry>)
    requires cfg.Valid() && ZSets(b)
    requires RelationList.IsTable(db) && RelationList.CachesPrefixEverywhere(z, db) && AllFit(db)
    ensures var after := Fanned(cfg, b, author, e, Serving(z, db, cfg.batch), sig).0;
            (forall f :: f in IDs(db) ==> CanRead(cfg, after, author, f, e)) <==>
            || author in AfterJudging(cfg, b.celebrities, author, sig)
            || (forall f :: f in IDs(db) ==> Shows(BoxOf(b.inbox, f), e, cfg.timelineMax))
            || ((sig.count.None? || sig.count.value < cfg.threshold)
                && (sig.markOk
                    || forall i :: RoundUp(cfg.Limit(), cfg.batch) <= i < |db| ==>
                         Shows(BoxOf(b.inbox, IDs(db)[i]), e, cfg.timelineMax)))
  {
    hide Fanned, CanRead, Shows, AfterJudging, RelationList.CachesPrefixEverywhere, Faithful, AllFit, RoundUp, ZSets;
    RelationListIsFaithful(z, db, cfg.batch);
    ReadableExactlyWhen(cfg, b, author, e, Serving(z, db, cfg.batch), sig, IDs(db), Standing(db));
  }

  // ---- From the boxes to the reader's timeline ----

  /** Whatever a source holds is listed on some page of the timeline. */
  lemma StoredIsListed(inbox: seq<Z>, boxes: seq<seq<Z>>, e: Z, limit: nat, pages: nat)
    requires limit > 0 && Timeline.AllCanonical([inbox] + boxes) && exists z :: z in [inbox] + boxes && e in z
    requires var sources := Timeline.Decoded([inbox] + boxes);
             && TimelineMerge.OneScore(sources) && SourcesFit(sources) && TimelineMerge.NeverManyTies(sources)
             && pages > |TimelineMerge.Remaining(sources, Start)|
    ensures EntryOf(e) in TimelinePages(inbox, boxes, "", limit, pages)
  {
    hide TimelinePages, ToEntries, ParseUint, TimelineMerge.Remaining, TimelineMerge.Everything, SourcesFit,
         TimelineMerge.NeverManyTies, TimelineMerge.OneScore, Format, LexLess, RedisAbove;
    var sources, all := Timeline.Decoded([inbox] + boxes), [inbox] + boxes;
    TimelineClientSeesEverything(inbox, boxes, limit, pages);
    TimelineMerge.RemainingIsUnion(sources, Start);
    var z :| z in all && e in z;
    var k :| 0 <= k < |all| && all[k] == z;
    var i :| 0 <= i < |z| && z[i] == e;
    assert Timeline.Canonical(z) && forall x :: x in z ==> CanonicalMember(x.member);
    CanonicalEntries(z);
    assert sources[k] == ToEntries(z) && ToEntries(z)[i] == EntryOf(e);
    TimelineMerge.EverythingIn(sources, EntryOf(e));
    assert sources[k] in sources;
  }

  /** The boxes that are pulled for a reader who follows `all`. */
  function PulledBoxes(cfg: Config, b: Boxes, all: seq<nat>): seq<seq<Z>> {
    var found := Take(cfg.maxPull, Filter(In(b.celebrities), Take(20000, all)));
    seq(|found|, i requires 0 <= i < |found| => BoxOf(b.authorBox, found[i]))
  }

  /**
   A post that the boxes let a follower read is on that follower's timeline: from the inbox, or from
   the box of an author in the set whom the scan of the following list reaches.
   */
  lemma ReadablePostIsListed(cfg: Config, b: Boxes, follower: nat, author: nat, e: Z, all: seq<nat>, i: nat,
                             limit: nat, pages: nat)
    requires Distinct(all) && i < |all| && all[i] == author && limit > 0
    requires || e in BoxOf(b.inbox, follower)
             || (author in b.celebrities && e in BoxOf(b.authorBox, author)
                 && i < 20000 && |Filter(In(b.celebrities), all[..i])| < cfg.maxPull)
    requires Timeline.AllCanonical([BoxOf(b.inbox, follower)] + PulledBoxes(cfg, b, all))
    requires var sources := Timeline.Decoded([BoxOf(b.inbox, follower)] + PulledBoxes(cfg, b, all));
             && TimelineMerge.OneScore(sources) && SourcesFit(sources) && TimelineMerge.NeverManyTies(sources)
             && pages > |TimelineMerge.Remaining(sources, Start)|
    ensures EntryOf(e) in TimelinePages(BoxOf(b.inbox, follower), PulledBoxes(cfg, b, all), "", limit, pages)
  {
    hide TimelinePages, Timeline.AllCanonical, Timeline.Decoded, TimelineMerge.Remaining, SourcesFit, Filter,
         TimelineMerge.NeverManyTies, TimelineMerge.OneScore, EntryOf;
    var inbox, boxes := BoxOf(b.inbox, follower), PulledBoxes(cfg, b, all);
    assert ([inbox] + boxes)[0] == inbox;
    if e !in inbox {
      PulledExactlyWhen(b.celebrities, all, author, i, cfg.maxPull);
      var found := Take(cfg.maxPull, Filter(In(b.celebrities), Take(20000, all)));
      var k :| 0 <= k < |found| && found[k] == author;
      assert ([inbox] + boxes)[k + 1] == BoxOf(b.authorBox, author);
    }
    assert exists z :: z in [inbox] + boxes && e in z;
    StoredIsListed(inbox, boxes, e, limit, pages);
  }
}
