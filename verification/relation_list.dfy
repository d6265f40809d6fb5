/**
 Following and follower lists: one page read from the Redis sorted set and, when that runs
 short, completed from the database behind the last entry already listed.
 */
module RelationList {
  import opened Prelude
  import opened Decimal
  import opened Ordered
  import opened Recency
  import opened SortedSet

  const CURSOR_TIE_SLACK: nat := 8

  /** The first page, a composite position, or the old score-only cursor. */
  datatype ListCursor = First | Composite(scoreMs: int, uid: nat) | Legacy(legacyMs: int)

  datatype Result = InvalidCursor | Listed(ids: seq<nat>, next: string)

  // ---- Cursor text ----

  function EncodeCursor(e: Entry): string {
    "s:" + FormatInt(e.score) + ":" + Format(e.id)
  }

  function ParseCursor(raw: string): Option<ListCursor> {
    if raw == "" || raw == "0" then Some(First)
    else if "s:" <= raw then
      match Cut(raw[2..], ':')
      case None => None
      case Some((ts, uid)) =>
        match (ParseInt(ts), ParseUint(uid))
        case (Some(ms), Some(id)) => Some(Composite(ms, id))
        case _ => None
    else
      match ParseInt(raw)
      case Some(ms) => if ms > 0 then Some(Legacy(ms)) else None
      case None => None
  }

  /** A cursor handed out is read back as the position it was made from. */
  lemma CursorRoundTrip(e: Entry)
    requires -INT64_LIMIT <= e.score < INT64_LIMIT && e.id < UINT64_LIMIT
    ensures ParseCursor(EncodeCursor(e)) == Some(Composite(e.score, e.id))
  {
    hide Format, ParseUint, FormatInt, ParseInt;
    var body := FormatInt(e.score) + [':'] + Format(e.id);
    assert EncodeCursor(e) == "s:" + body;
    assert EncodeCursor(e)[2..] == body;
    FormatIntHasNoColon(e.score);
    CutAtSeparator(FormatInt(e.score), ':', Format(e.id));
    ParseIntFormatInt(e.score);
    ParseUintFormat(e.id);
  }

  // ---- What is read ----

  /** The upper bound of the range: inclusive for a composite cursor, exclusive for an old one. */
  function Bound(cur: ListCursor): Z -> bool {
    (x: Z) => match cur
              case First => true
              case Composite(ms, _) => x.score <= ms
              case Legacy(ms) => x.score < ms
  }

  /** Members tied with a composite cursor are skipped up to and including it, by member bytes. */
  function NotSkipped(cur: ListCursor): Z -> bool {
    (x: Z) => !(cur.Composite? && x.score == cur.scoreMs && !LexLess(x.member, Format(cur.uid)))
  }

  function FetchCount(cur: ListCursor, limit: nat): nat {
    if cur.Composite? then limit + CURSOR_TIE_SLACK else limit
  }

  function CachePage(z: seq<Z>, cur: ListCursor, limit: nat): seq<Entry> {
    Take(limit, ToEntries(Filter(NotSkipped(cur), Take(FetchCount(cur, limit), Filter(Bound(cur), z)))))
  }

  /** Where a cursor stands in the database order; an old cursor stands before every id of its score. */
  function Position(cur: ListCursor): Cursor {
    match cur
    case First => Start
    case Composite(ms, uid) => At(ms, uid)
    case Legacy(ms) => At(ms, 0)
  }

  /** List*RowsBefore: rows strictly behind a (created_at, uid) boundary, newest first. */
  function RowsBefore(db: seq<Entry>, c: Cursor, limit: nat): seq<Entry> {
    Take(limit, Filter(After(c), db))
  }

  function Boundary(page: seq<Entry>, cur: ListCursor): Cursor {
    if page == [] then Position(cur) else Behind(page[|page| - 1])
  }

  function Ids(es: seq<Entry>): set<nat> {
    set e | e in es :: e.id
  }

  function NotIn(seen: set<nat>): Entry -> bool {
    (e: Entry) => e.id !in seen
  }

  /** One page: the cached part, and the database tail unless the read fails (db is None). */
  function PageEntries(z: seq<Z>, db: Option<seq<Entry>>, cur: ListCursor, limit: nat): seq<Entry> {
    var page := CachePage(z, cur, limit);
    if |page| >= limit || (page == [] && cur.First?) || db.None? then page
    else page + Filter(NotIn(Ids(page)), RowsBefore(db.value, Boundary(page, cur), limit - |page|))
  }

  function Answer(es: seq<Entry>): Result {
    Listed(seq(|es|, i requires 0 <= i < |es| => es[i].id), if es == [] then "" else EncodeCursor(es[|es| - 1]))
  }

  // ---- The operation ----

  method ReadCursorPageFromZSet(z: seq<Z>, cur: ListCursor, limit: nat) returns (page: seq<Entry>)
    requires limit > 0
    ensures page == CachePage(z, cur, limit)
  {
    hide Filter, ToEntries, NotSkipped, Bound, ParseUint;
    var zs := Take(FetchCount(cur, limit), Filter(Bound(cur), z));
    page := [];
    var i := 0;
    FilterNone(NotSkipped(cur), []);
    ToEntriesEmpty();
    assert zs[..0] == [];
    while i < |zs| && |page| < limit
      invariant 0 <= i <= |zs| && |page| <= limit
      invariant page == ToEntries(Filter(NotSkipped(cur), zs[..i]))
    {
      assert zs[..i + 1] == zs[..i] + [zs[i]];
      FilterSnoc(NotSkipped(cur), zs[..i], zs[i]);
      DecodeOne(Filter(NotSkipped(cur), zs[..i]), zs[i]);
      var uid := ParseUint(zs[i].member);
      if uid.Some? && NotSkipped(cur)(zs[i]) {
        page := page + [Entry(uid.value, zs[i].score)];
      }
      i := i + 1;
    }
    ghost var kept, rest := Filter(NotSkipped(cur), zs[..i]), Filter(NotSkipped(cur), zs[i..]);
    HeadAndTail(zs, i);
    FilterConcat(NotSkipped(cur), zs[..i], zs[i..]);
    DecodeConcat(kept, rest);
    if i == |zs| {
      assert zs[i..] == [];
      assert page + [] == page;
    } else {
      assert Take(limit, page + ToEntries(rest)) == page;
    }
  }

  method MergeDBTail(rows: seq<Entry>, page: seq<Entry>) returns (merged: seq<Entry>)
    ensures merged == page + Filter(NotIn(Ids(page)), rows)
  {
    var seen: set<nat> := {};
    for i := 0 to |page|
      invariant seen == Ids(page[..i])
    {
      assert page[..i + 1] == page[..i] + [page[i]];
      seen := seen + {page[i].id};
    }
    assert page[..|page|] == page;
    merged := page;
    for i := 0 to |rows|
      invariant merged == page + Filter(NotIn(Ids(page)), rows[..i])
    {
      assert rows[..i + 1] == rows[..i] + [rows[i]];
      FilterSnoc(NotIn(Ids(page)), rows[..i], rows[i]);
      if rows[i].id !in seen {
        merged := merged + [rows[i]];
      }
    }
    assert rows[..|rows|] == rows;
  }

  /** One page of a list whose sorted set has been warmed; db is None when the database read fails. */
  method GetListWithCursor(z: seq<Z>, db: Option<seq<Entry>>, cursor: string, limit: nat) returns (result: Result)
    requires limit > 0
    ensures result == match ParseCursor(cursor)
                      case None => InvalidCursor
                      case Some(cur) => Answer(PageEntries(z, db, cur, limit))
  {
    hide Filter, ToEntries, CachePage, EncodeCursor, ParseCursor;
    var parsed := ParseCursor(cursor);
    if parsed.None? {
      return InvalidCursor;
    }
    var cur := parsed.value;
    var page := ReadCursorPageFromZSet(z, cur, limit);
    if |page| < limit {
      if page == [] && cur.First? {
        return Answer(page);
      }
      if db.Some? {
        var rows := RowsBefore(db.value, Boundary(page, cur), limit - |page|);
        page := MergeDBTail(rows, page);
      }
    }
    result := Answer(page);
  }

  // ---- Hypotheses ----

  /** The cache lists a non-empty prefix of the database order, and agrees with it on ties at the cursor. */
  ghost predicate CachesPrefix(z: seq<Z>, db: seq<Entry>, cur: ListCursor) {
    && z != []
    && (forall x :: x in z ==> CanonicalMember(x.member))
    && ToEntries(z) <= db
    && (forall x :: x in z && cur.Composite? && x.score == cur.scoreMs ==>
          (LexLess(x.member, Format(cur.uid)) <==> EntryOf(x).id < cur.uid))
  }

  /** The database lists every user once, newest first. */
  ghost predicate IsTable(db: seq<Entry>) {
    && Sorted(Newer, db)
    && forall i, j :: 0 <= i < j < |db| ==> db[i].id != db[j].id
  }

  // ---- Exactness ----

  function BoundE(cur: ListCursor): Entry -> bool {
    (e: Entry) => match cur
                  case First => true
                  case Composite(ms, _) => e.score <= ms
                  case Legacy(ms) => e.score < ms
  }

  function NotSkippedE(cur: ListCursor): Entry -> bool {
    (e: Entry) => !(cur.Composite? && e.score == cur.scoreMs && e.id >= cur.uid)
  }

  lemma CachePageDecoded(z: seq<Z>, db: seq<Entry>, cur: ListCursor, limit: nat)
    requires CachesPrefix(z, db, cur)
    ensures CachePage(z, cur, limit) ==
            Take(limit, Filter(NotSkippedE(cur), Take(FetchCount(cur, limit), Filter(BoundE(cur), ToEntries(z)))))
  {
    hide ParseUint, Format, LexLess, Filter, ToEntries;
    var f := Filter(Bound(cur), z);
    FilterMembers(Bound(cur), z);
    assert forall x :: x in z ==> CanonicalMember(x.member);
    ToEntriesFilter(Bound(cur), BoundE(cur), z);
    var t := Take(FetchCount(cur, limit), f);
    ToEntriesTake(f, FetchCount(cur, limit));
    forall x | x in t ensures ParseUint(x.member).Some? && (NotSkipped(cur)(x) <==> NotSkippedE(cur)(EntryOf(x))) {
      assert x in f && x in z;
    }
    ToEntriesFilter(NotSkipped(cur), NotSkippedE(cur), t);
  }

  lemma {:induction false} FilterSame(p: Entry -> bool, q: Entry -> bool, s: seq<Entry>)
    requires forall e :: e in s ==> (p(e) <==> q(e))
    ensures Filter(p, s) == Filter(q, s)
  {
    if s != [] {
      FilterSame(p, q, s[1..]);
    }
  }

  /** The cached part of a page is the cut of one stretch of the database list. */
  lemma CachePageIsStretch(z: seq<Z>, db: seq<Entry>, cur: ListCursor, limit: nat) returns (i: nat, j: nat)
    requires IsTable(db) && CachesPrefix(z, db, cur)
    ensures i <= j <= |db| && CachePage(z, cur, limit) == Take(limit, Filter(After(Position(cur)), db[i..j]))
    ensures forall q :: 0 <= q < i ==> !After(Position(cur))(db[q])
    ensures cur.First? && limit > 0 ==> i == 0 && j > 0
  {
    hide ToEntries, Filter, Format, LexLess, ParseUint, CachePage, Bound, NotSkipped;
    CachePageDecoded(z, db, cur, limit);
    var c := ToEntries(z);
    assert c != [] by {
      assert CanonicalMember(z[0].member);
      assert forall x :: x in z ==> CanonicalMember(x.member);
      CanonicalEntries(z);
    }
    i, j := BoundedStretch(c, db, cur, FetchCount(cur, limit));
  }

  lemma BoundedStretch(c: seq<Entry>, db: seq<Entry>, cur: ListCursor, n: nat) returns (i: nat, j: nat)
    requires Sorted(Newer, db) && c <= db && c != []
    ensures i <= j <= |db| && Filter(NotSkippedE(cur), Take(n, Filter(BoundE(cur), c))) == Filter(After(Position(cur)), db[i..j])
    ensures forall q :: 0 <= q < i ==> !After(Position(cur))(db[q])
    ensures cur.First? && n > 0 ==> i == 0 && j > 0
  {
    hide Filter;
    assert DownClosed(Newer, BoundE(cur));
    assert forall q :: 0 <= q < |c| ==> c[q] == db[q];
    i := FilterIsSuffix(Newer, BoundE(cur), c);
    assert cur.First? ==> BoundE(cur)(c[0]);
    j := Min(|c|, i + n);
    var t := Take(n, c[i..]);
    assert t == db[i..j];
    forall e | e in t ensures NotSkippedE(cur)(e) <==> After(Position(cur))(e) {
      var q :| i <= q < j && db[q] == e;
      assert BoundE(cur)(c[q]);
    }
    FilterSame(NotSkippedE(cur), After(Position(cur)), t);
  }

  /** Behind the q-th row of the list lies its tail. */
  lemma TailBehindRow(db: seq<Entry>, q: nat)
    requires Sorted(Newer, db) && q < |db|
    ensures Filter(After(Behind(db[q])), db) == db[q + 1..]
  {
    var k := AfterSuffix(Behind(db[q]), db);
    assert k == q + 1 by {
      assert k < |db| ==> After(Behind(db[q]))(db[k]);
      assert q + 1 < |db| ==> Newer(db[q], db[q + 1]);
    }
  }

  lemma TakeIsPrefix(s: seq<Entry>, n: nat)
    ensures Take(n, s) <= s
  {
  }

  lemma JoinStretch(db: seq<Entry>, k: nat, j: nat, limit: nat)
    requires k <= j <= |db| && j - k <= limit
    ensures db[k..j] + Take(limit - (j - k), db[j..]) == Take(limit, db[k..])
  {
  }

  lemma ShortPageResumes(db: seq<Entry>, k: nat, j: nat, limit: nat)
    requires IsTable(db) && k < j <= |db| && j - k < limit
    ensures db[k..j] + Filter(NotIn(Ids(db[k..j])), RowsBefore(db, Behind(db[j - 1]), limit - (j - k))) == Take(limit, db[k..])
  {
    hide Filter, After, Ids, Take;
    TailBehindRow(db, j - 1);
    var rows := RowsBefore(db, Behind(db[j - 1]), limit - (j - k));
    assert rows == Take(limit - (j - k), db[j..]);
    TakeIsPrefix(db[j..], limit - (j - k));
    NoDuplicates(db, k, j, rows);
    JoinStretch(db, k, j, limit);
  }

  /** The page and, when it is short, the rows behind it. */
  function Completed(page: seq<Entry>, db: seq<Entry>, cur: ListCursor, limit: nat): seq<Entry> {
    if |page| >= limit then page
    else page + Filter(NotIn(Ids(page)), RowsBefore(db, Boundary(page, cur), limit - |page|))
  }

  /** The cached stretch followed by the rows behind it is the head of the list after the cursor. */
  lemma StretchThenTail(db: seq<Entry>, cur: ListCursor, i: nat, j: nat, limit: nat)
    requires IsTable(db) && i <= j <= |db| && limit > 0
    requires forall q :: 0 <= q < i ==> !After(Position(cur))(db[q])
    ensures var page := Take(limit, Filter(After(Position(cur)), db[i..j]));
            Completed(page, db, cur, limit) == RowsBefore(db, Position(cur), limit) && page <= RowsBefore(db, Position(cur), limit)
  {
    hide Filter, After, Ids, Position, Take, Newer;
    var k := StretchAfter(Position(cur), db, i, j);
    var rows := RowsBefore(db, Position(cur), limit);
    assert rows == Take(limit, db[k..]);
    if k >= j {
      TakeIsPrefix([], limit);
      TakeIsPrefix(db[k..], limit);
      assert db[k..k] == [];
      NoDuplicates(db, k, k, rows);
      assert [] + rows == rows;
    } else {
      StretchHead(db, k, j, limit);
      if j - k < limit {
        ShortPageResumes(db, k, j, limit);
      }
    }
  }

  lemma StretchHead(db: seq<Entry>, k: nat, j: nat, limit: nat)
    requires k <= j <= |db|
    ensures Take(limit, db[k..j]) <= Take(limit, db[k..])
    ensures j - k >= limit ==> Take(limit, db[k..j]) == Take(limit, db[k..]) && |Take(limit, db[k..j])| == limit
    ensures j - k < limit ==> Take(limit, db[k..j]) == db[k..j]
  {
  }

  lemma NoDuplicates(db: seq<Entry>, k: nat, j: nat, rows: seq<Entry>)
    requires IsTable(db) && k <= j <= |db| && rows <= db[j..]
    ensures Filter(NotIn(Ids(db[k..j])), rows) == rows
  {
    forall e | e in rows ensures e.id !in Ids(db[k..j]) {
      var q :| 0 <= q < |rows| && rows[q] == e;
      assert e == db[j + q];
    }
    FilterAll(NotIn(Ids(db[k..j])), rows);
  }

  /**
   With a cache that holds any non-empty prefix of the list, a page is exactly the next `limit`
   rows after the cursor, whatever the ties and wherever the cache ends; when the database
   read fails it is still a prefix of them.
   */
  lemma ListIsExact(z: seq<Z>, db: seq<Entry>, cur: ListCursor, limit: nat)
    requires limit > 0 && IsTable(db) && CachesPrefix(z, db, cur)
    ensures PageEntries(z, Some(db), cur, limit) == RowsBefore(db, Position(cur), limit)
    ensures PageEntries(z, None, cur, limit) <= RowsBefore(db, Position(cur), limit)
  {
    hide Filter, CachePage, Ids, CachesPrefix;
    var i, j := CachePageIsStretch(z, db, cur, limit);
    var page := CachePage(z, cur, limit);
    StretchThenTail(db, cur, i, j, limit);
    if cur.First? {
      FilterAll(After(Start), db[i..j]);
    }
  }

  /** Should the cache expire after its warming, the first page is empty whatever the table holds; every other page is exact. */
  lemma NothingCached(db: seq<Entry>, cur: ListCursor, limit: nat)
    requires limit > 0 && IsTable(db)
    ensures PageEntries([], Some(db), cur, limit) == if cur.First? then [] else RowsBefore(db, Position(cur), limit)
  {
    hide Filter;
    FilterNone(Bound(cur), []);
    FilterNone(NotSkipped(cur), []);
    ToEntriesEmpty();
    assert CachePage([], cur, limit) == [];
    var rows := RowsBefore(db, Position(cur), limit);
    FilterAll(NotIn(Ids([])), rows);
    assert [] + rows == rows;
  }

  // ---- When the database read fails ----

  /** Tied with a composite cursor, and listed before it or by it. */
  function Passed(cur: ListCursor): Entry -> bool {
    (e: Entry) => cur.Composite? && e.score == cur.scoreMs && e.id >= cur.uid
  }

  /** How the cached rows lie around a cursor: newer ones, then the tied ones already listed, then what follows. */
  lemma CacheAround(c: seq<Entry>, cur: ListCursor) returns (i: nat, k: nat)
    requires Sorted(Newer, c)
    ensures i <= k <= |c| && Filter(BoundE(cur), c) == c[i..] && Filter(After(Position(cur)), c) == c[k..]
    ensures |Filter(Passed(cur), c)| == k - i
    ensures forall q :: i <= q < |c| ==> (NotSkippedE(cur)(c[q]) <==> q >= k)
  {
    hide Filter, Newer;
    BoundIsDownClosed(cur);
    i := FilterIsSuffix(Newer, BoundE(cur), c);
    k := AfterSuffix(Position(cur), c);
    forall q | 0 <= q < |c| ensures After(Position(cur))(c[q]) <==> BoundE(cur)(c[q]) && !Passed(cur)(c[q]) {
    }
    assert k >= i by {
      assert k < |c| ==> BoundE(cur)(c[k]);
    }
    forall q | 0 <= q < |c| ensures Passed(cur)(c[q]) <==> i <= q < k {
    }
    assert c == c[..i] + c[i..k] + c[k..];
    FilterConcat(Passed(cur), c[..i] + c[i..k], c[k..]);
    FilterConcat(Passed(cur), c[..i], c[i..k]);
    FilterNone(Passed(cur), c[..i]);
    FilterAll(Passed(cur), c[i..k]);
    FilterNone(Passed(cur), c[k..]);
  }

  lemma BoundIsDownClosed(cur: ListCursor)
    ensures DownClosed(Newer, BoundE(cur))
  {
  }

  lemma FetchedStretch(c: seq<Entry>, cur: ListCursor, i: nat, k: nat, n: nat, limit: nat)
    requires i <= k <= |c| && forall q :: i <= q < |c| ==> (NotSkippedE(cur)(c[q]) <==> q >= k)
    ensures Take(limit, Filter(NotSkippedE(cur), Take(n, c[i..]))) == Take(Min(limit, Max(0, n - (k - i))), c[k..])
  {
    hide Filter, NotSkippedE;
    var m := Min(|c|, i + n);
    assert Take(n, c[i..]) == c[i..m];
    if m <= k {
      assert forall e :: e in c[i..m] ==> !NotSkippedE(cur)(e);
      FilterNone(NotSkippedE(cur), c[i..m]);
    } else {
      assert c[i..m] == c[i..k] + c[k..m];
      FilterConcat(NotSkippedE(cur), c[i..k], c[k..m]);
      FilterNone(NotSkippedE(cur), c[i..k]);
      FilterAll(NotSkippedE(cur), c[k..m]);
    }
  }

  /**
   When the database read fails, a page is exactly the next cached rows behind the cursor: `limit` of
   them, or all there are; fewer only after a composite cursor with more than 8 tied rows before it.
   */
  lemma FailedReadServesTheCache(z: seq<Z>, db: seq<Entry>, cur: ListCursor, limit: nat)
    requires limit > 0 && IsTable(db) && CachesPrefix(z, db, cur)
    ensures var cached := ToEntries(z);
            var passed := |Filter(Passed(cur), cached)|;
            PageEntries(z, None, cur, limit)
            == Take(if passed > 8 then Min(limit, Max(0, limit + 8 - passed)) else limit, Filter(After(Position(cur)), cached))
  {
    hide Filter, ToEntries, CachesPrefix, CachePage, After, Position, BoundE, NotSkippedE, Passed;
    var c := ToEntries(z);
    PrefixIsSorted(z, db, cur);
    CachePageDecoded(z, db, cur, limit);
    var i, k := CacheAround(c, cur);
    FetchedStretch(c, cur, i, k, FetchCount(cur, limit), limit);
    NonePassed(cur, c);
  }

  lemma NonePassed(cur: ListCursor, c: seq<Entry>)
    ensures !cur.Composite? ==> Filter(Passed(cur), c) == []
  {
    if !cur.Composite? {
      FilterNone(Passed(cur), c);
    }
  }

  lemma PrefixIsSorted(z: seq<Z>, db: seq<Entry>, cur: ListCursor)
    requires IsTable(db) && CachesPrefix(z, db, cur)
    ensures Sorted(Newer, ToEntries(z))
  {
    hide ToEntries, ParseUint, Format, LexLess;
    assert forall q :: 0 <= q < |ToEntries(z)| ==> ToEntries(z)[q] == db[q];
  }

  /** From the first page on, the list is right for every page size exactly when the cache is a prefix of it. */
  lemma FirstPagesExactIffPrefix(z: seq<Z>, db: seq<Entry>)
    requires z != [] && IsTable(db)
    requires forall x :: x in z ==> CanonicalMember(x.member)
    ensures (forall limit: nat :: limit > 0 ==> PageEntries(z, Some(db), First, limit) == Take(limit, db)) <==> ToEntries(z) <= db
  {
    hide Filter, ToEntries, IsTable, CanonicalMember;
    FilterAll(After(Start), db);
    if ToEntries(z) <= db {
      forall limit: nat | limit > 0 ensures PageEntries(z, Some(db), First, limit) == Take(limit, db) {
        ListIsExact(z, db, First, limit);
      }
    }
    if forall limit: nat :: limit > 0 ==> PageEntries(z, Some(db), First, limit) == Take(limit, db) {
      FilterAll(Bound(First), z);
      FilterAll(NotSkipped(First), z);
      WholeCachePage(z);
      assert PageEntries(z, Some(db), First, |z|) == Take(|z|, db);
    }
  }

  lemma WholeCachePage(z: seq<Z>)
    requires forall x :: x in z ==> CanonicalMember(x.member)
    ensures CachePage(z, First, |z|) == ToEntries(z) && |ToEntries(z)| == |z|
  {
    hide Filter, ToEntries, ParseUint;
    assert forall x :: x in z ==> CanonicalMember(x.member);
    FilterAll(Bound(First), z);
    FilterAll(NotSkipped(First), z);
    CanonicalEntries(z);
    assert Take(|z|, z) == z && Take(|z|, ToEntries(z)) == ToEntries(z);
  }

  // ---- Whole walks ----

  /** The member order agrees with the numeric order wherever a cached user ties with a listed one. */
  ghost predicate CachesPrefixEverywhere(z: seq<Z>, db: seq<Entry>) {
    && z != []
    && (forall x :: x in z ==> CanonicalMember(x.member))
    && ToEntries(z) <= db
    && TieOrder(z, db)
  }

  /** Cached members and rows tied on a score order by bytes as they do by number. */
  ghost predicate TieOrder(z: seq<Z>, db: seq<Entry>) {
    forall x, e :: x in z && e in db && x.score == e.score ==> (LexLess(x.member, Format(e.id)) <==> EntryOf(x).id < e.id)
  }

  /** What a client collects that follows the next cursor until it comes back empty. */
  ghost function Walk(z: seq<Z>, db: seq<Entry>, limit: nat, cur: ListCursor, pages: nat): seq<Entry>
    decreases pages
  {
    if pages == 0 then []
    else
      var page := PageEntries(z, Some(db), cur, limit);
      if page == [] then []
      else page + Walk(z, db, limit, Composite(page[|page| - 1].score, page[|page| - 1].id), pages - 1)
  }

  /** The cursor behind the first k rows of the list. */
  function CursorBehind(db: seq<Entry>, k: nat): ListCursor
    requires k <= |db|
  {
    if k == 0 then First else Composite(db[k - 1].score, db[k - 1].id)
  }

  lemma PageBehindRows(z: seq<Z>, db: seq<Entry>, limit: nat, k: nat)
    requires limit > 0 && IsTable(db) && CachesPrefixEverywhere(z, db) && k <= |db|
    ensures PageEntries(z, Some(db), CursorBehind(db, k), limit) == db[k..][..Min(limit, |db| - k)]
  {
    hide Filter, After, CachePage, PageEntries, IsTable, ToEntries, Format, LexLess;
    TableIsSorted(db);
    if k == 0 {
      AfterStart(db);
    } else {
      TailBehindRow(db, k - 1);
      assert db[k - 1] in db;
    }
    ListIsExact(z, db, CursorBehind(db, k), limit);
  }

  lemma WalkJoins(z: seq<Z>, db: seq<Entry>, limit: nat, k: nat, n: nat, pages: nat)
    requires pages > 0 && k < k + n <= |db|
    requires PageEntries(z, Some(db), CursorBehind(db, k), limit) == db[k..k + n]
    requires Walk(z, db, limit, CursorBehind(db, k + n), pages - 1) == db[k + n..]
    ensures Walk(z, db, limit, CursorBehind(db, k), pages) == db[k..]
  {
    hide PageEntries;
    assert db[k..k + n][n - 1] == db[k + n - 1];
    assert db[k..k + n] + db[k + n..] == db[k..];
  }

  /** Following the cursors lists every row behind the start exactly once and in order. */
  lemma {:induction false} WalkListsEveryRow(z: seq<Z>, db: seq<Entry>, limit: nat, k: nat, pages: nat)
    requires limit > 0 && IsTable(db) && CachesPrefixEverywhere(z, db)
    requires k <= |db| && pages > |db| - k
    ensures Walk(z, db, limit, CursorBehind(db, k), pages) == db[k..]
    decreases pages
  {
    hide PageEntries, IsTable, CachesPrefixEverywhere;
    PageBehindRows(z, db, limit, k);
    if k < |db| {
      var n := Min(limit, |db| - k);
      assert db[k..][..n] == db[k..k + n];
      WalkListsEveryRow(z, db, limit, k + n, pages - 1);
      WalkJoins(z, db, limit, k, n, pages);
    }
  }

  lemma TableIsSorted(db: seq<Entry>)
    requires IsTable(db)
    ensures Sorted(Newer, db)
  {
  }

  lemma AfterStart(db: seq<Entry>)
    ensures Filter(After(Start), db) == db
  {
    FilterAll(After(Start), db);
  }

  // ---- The tie order is needed ----

  /** A kept element is found among the kept ones at its own index or before, behind elements that stood before it. */
  lemma KeptEarly<T(!new)>(p: T -> bool, s: seq<T>, j: nat)
    requires j < |s| && p(s[j])
    ensures var head := Filter(p, s[..j + 1]);
            && 0 < |head| <= j + 1 && head[|head| - 1] == s[j] && head <= Filter(p, s)
            && forall y :: y in head ==> y in s[..j + 1]
  {
    hide Filter;
    assert s[..j + 1] == s[..j] + [s[j]];
    FilterSnoc(p, s[..j], s[j]);
    HeadAndTail(s, j + 1);
    FilterConcat(p, s[..j + 1], s[j + 1..]);
    FilterMembers(p, s[..j + 1]);
    FilterShorter(p, s[..j + 1]);
  }

  lemma FilterShorter<T(!new)>(p: T -> bool, s: seq<T>)
    ensures |Filter(p, s)| <= |s|
  {
  }

  /** A cached member that its bytes keep behind the cursor makes the page start within the cache up to it. */
  lemma PageStartsEarly(z: seq<Z>, cur: ListCursor, limit: nat, j: nat)
    requires limit > 0 && j < |z| && j < FetchCount(cur, limit) && Bound(cur)(z[j]) && NotSkipped(cur)(z[j])
    requires forall x :: x in z ==> ParseUint(x.member).Some?
    ensures CachePage(z, cur, limit) != []
    ensures exists x :: x in z[..j + 1] && CachePage(z, cur, limit)[0] == EntryOf(x)
  {
    hide Filter, ToEntries, ParseUint, NotSkipped, Bound;
    KeptEarly(Bound(cur), z, j);
    var a, bounded := Filter(Bound(cur), z[..j + 1]), Filter(Bound(cur), z);
    var fetched := Take(FetchCount(cur, limit), bounded);
    assert a <= fetched && fetched[|a| - 1] == z[j] && fetched[..|a|] == a;
    KeptEarly(NotSkipped(cur), fetched, |a| - 1);
    var head, kept := Filter(NotSkipped(cur), fetched[..|a|]), Filter(NotSkipped(cur), fetched);
    assert kept[0] == head[0] && head[0] in head;
    FilterMembers(Bound(cur), z);
    FilterMembers(NotSkipped(cur), fetched);
    assert forall x :: x in kept ==> x in fetched && x in bounded && x in z;
    CanonicalEntries(kept);
    assert CachePage(z, cur, limit)[0] == EntryOf(kept[0]);
  }

  /** A row and a cached member before it, tied with it, that the bytes order the other way round. */
  ghost predicate Misordered(z: seq<Z>, db: seq<Entry>, j: nat, i: nat) {
    j < |z| && j < i < |db| && z[j].score == db[i].score && LexLess(z[j].member, Format(db[i].id))
  }

  lemma MisorderedPair(z: seq<Z>, db: seq<Entry>) returns (j: nat, i: nat)
    requires IsTable(db) && ToEntries(z) <= db && !TieOrder(z, db)
    requires forall x :: x in z ==> CanonicalMember(x.member)
    ensures Misordered(z, db, j, i)
  {
    hide ToEntries, Format, ParseUint, LexLess;
    CanonicalEntries(z);
    var x, e :| x in z && e in db && x.score == e.score && !(LexLess(x.member, Format(e.id)) <==> EntryOf(x).id < e.id);
    var p :| 0 <= p < |z| && z[p] == x;
    var q :| 0 <= q < |db| && db[q] == e;
    assert ToEntries(z)[p] == db[p] == EntryOf(x) && x.member == Format(EntryOf(x).id);
    LexIrreflexive(x.member);
    assert p != q;
    if p < q {
      assert Newer(db[p], db[q]);
      j, i := p, q;
    } else {
      assert Newer(db[q], db[p]) && !LexLess(x.member, Format(e.id));
      assert ToEntries(z)[q] == db[q] == EntryOf(z[q]) && z[q] in z && z[q].member == Format(e.id);
      if x.member == Format(e.id) {
        FormatInjective(EntryOf(x).id, e.id);
      }
      LexTotal(x.member, Format(e.id));
      j, i := q, p;
    }
  }

  /** Walking with pages that end at the row lists something a second time. */
  lemma MisorderedWalkRepeats(z: seq<Z>, db: seq<Entry>, j: nat, i: nat)
    requires z != [] && IsTable(db) && ToEntries(z) <= db && Misordered(z, db, j, i)
    requires forall x :: x in z ==> CanonicalMember(x.member)
    ensures Walk(z, db, i + 1, First, |db| + 1) != db
  {
    hide ToEntries, Format, ParseUint, LexLess, PageEntries, IsTable, CachePage, Filter;
    var limit := i + 1;
    var cur := Composite(db[i].score, db[i].id);
    FirstPagesExactIffPrefix(z, db);
    var one := PageEntries(z, Some(db), First, limit);
    assert one == Take(limit, db) == db[..limit] && one[|one| - 1] == db[i];
    PageStartsEarly(z, cur, limit, j);
    var two := PageEntries(z, Some(db), cur, limit);
    PageStartsWithCache(z, db, cur, limit);
    var x :| x in z[..j + 1] && two[0] == EntryOf(x);
    var p :| 0 <= p < j + 1 && z[p] == x;
    CanonicalEntries(z);
    assert ToEntries(z)[p] == db[p] == two[0];
    var rest := Walk(z, db, limit, cur, |db|);
    assert Walk(z, db, limit, First, |db| + 1) == one + rest;
    WalkStarts(z, db, limit, cur, |db|);
    assert rest != [] && rest[0] == db[p];
    if one + rest == db {
      assert db[limit] == (one + rest)[limit] == db[p];
      TableIsSorted(db);
      NewerDistinct(db);
      assert false;
    }
  }

  lemma PageStartsWithCache(z: seq<Z>, db: seq<Entry>, cur: ListCursor, limit: nat)
    requires CachePage(z, cur, limit) != []
    ensures PageEntries(z, Some(db), cur, limit) != []
    ensures PageEntries(z, Some(db), cur, limit)[0] == CachePage(z, cur, limit)[0]
  {
    hide CachePage, Filter;
  }

  lemma WalkStarts(z: seq<Z>, db: seq<Entry>, limit: nat, cur: ListCursor, pages: nat)
    requires pages > 0 && PageEntries(z, Some(db), cur, limit) != []
    ensures Walk(z, db, limit, cur, pages) != []
    ensures Walk(z, db, limit, cur, pages)[0] == PageEntries(z, Some(db), cur, limit)[0]
  {
    hide PageEntries;
  }

  /** A walk with pages of one size lists the database list. */
  ghost predicate WalkExact(z: seq<Z>, db: seq<Entry>, limit: nat) {
    Walk(z, db, limit, First, |db| + 1) == db
  }

  /**
   With a cache that holds a prefix of the database list, walks with pages of every size list every
   row once if and only if cached members order against tied rows by bytes as they do by number.
   */
  lemma WalksExactIffTieOrder(z: seq<Z>, db: seq<Entry>)
    requires z != [] && IsTable(db) && ToEntries(z) <= db
    requires forall x :: x in z ==> CanonicalMember(x.member)
    ensures (forall limit: nat :: limit > 0 ==> WalkExact(z, db, limit)) <==> TieOrder(z, db)
  {
    hide ToEntries, IsTable, Walk, CanonicalMember, TieOrder;
    if TieOrder(z, db) {
      forall limit: nat | limit > 0 ensures WalkExact(z, db, limit) {
        WalkListsEveryRow(z, db, limit, 0, |db| + 1);
        assert db[0..] == db;
      }
    } else {
      var j, i := MisorderedPair(z, db);
      MisorderedWalkRepeats(z, db, j, i);
      assert !WalkExact(z, db, i + 1);
    }
  }

  const TIED_CACHE: seq<Z> := [Z(5, "10")]

  const TIED_ROWS: seq<Entry> := [Entry(10, 5), Entry(9, 5)]

  /**
   Users 10 and 9 followed in the same millisecond, of whom the cache holds the newer one: read one
   by one, the list goes 10, 9, 10, 9 and never ends.
   */
  lemma UnequalWidthsListTwice()
    ensures IsZSet(TIED_CACHE) && IsTable(TIED_ROWS) && ToEntries(TIED_CACHE) <= TIED_ROWS
    ensures PageEntries(TIED_CACHE, Some(TIED_ROWS), First, 1) == [Entry(10, 5)]
    ensures PageEntries(TIED_CACHE, Some(TIED_ROWS), Composite(5, 10), 1) == [Entry(9, 5)]
    ensures PageEntries(TIED_CACHE, Some(TIED_ROWS), Composite(5, 9), 1) == [Entry(10, 5)]
  {
    hide Filter, ToEntries, PageEntries;
    TiedText();
    TiedPages();
    TiedTail();
  }

  lemma TiedText()
    ensures Format(9) == "9" && Format(10) == "10" && LexLess("10", "9") && !LexLess("10", "10")
    ensures ToEntries(TIED_CACHE) == [Entry(10, 5)]
  {
    assert Format(10) == Format(1) + [DigitChar(0)] == "10";
    assert Format(9) == "9";
    ParseUintFormat(10);
    LexIrreflexive("10");
    ToEntriesEmpty();
    assert TIED_CACHE[..0] == [] && [] + TIED_CACHE == TIED_CACHE;
    ToEntriesSnoc([], Z(5, "10"));
    assert [] + [Entry(10, 5)] == [Entry(10, 5)];
  }

  lemma TiedPages()
    ensures PageEntries(TIED_CACHE, Some(TIED_ROWS), First, 1) == [Entry(10, 5)]
    ensures PageEntries(TIED_CACHE, Some(TIED_ROWS), Composite(5, 9), 1) == [Entry(10, 5)]
  {
    hide Filter, ToEntries, Format;
    TiedText();
    FilterAll(Bound(First), TIED_CACHE);
    FilterAll(NotSkipped(First), TIED_CACHE);
    FilterAll(Bound(Composite(5, 9)), TIED_CACHE);
    FilterAll(NotSkipped(Composite(5, 9)), TIED_CACHE);
    assert Take(1, TIED_CACHE) == TIED_CACHE && Take(9, TIED_CACHE) == TIED_CACHE;
    assert CachePage(TIED_CACHE, First, 1) == Take(1, [Entry(10, 5)]) == [Entry(10, 5)];
    assert CachePage(TIED_CACHE, Composite(5, 9), 1) == [Entry(10, 5)];
  }

  lemma TiedTail()
    ensures PageEntries(TIED_CACHE, Some(TIED_ROWS), Composite(5, 10), 1) == [Entry(9, 5)]
  {
    hide Filter, ToEntries, Format;
    TiedText();
    var cur := Composite(5, 10);
    var nine, ten := Entry(9, 5), Entry(10, 5);
    FilterAll(Bound(cur), TIED_CACHE);
    FilterNone(NotSkipped(cur), TIED_CACHE);
    ToEntriesEmpty();
    var page := CachePage(TIED_CACHE, cur, 1);
    assert page == [] && Boundary(page, cur) == At(5, 10) && Ids(page) == {};
    assert TIED_ROWS == [ten] + [nine];
    FilterNone(After(At(5, 10)), [ten]);
    FilterSnoc(After(At(5, 10)), [ten], nine);
    assert [] + [nine] == [nine] && Take(1, [nine]) == [nine];
    FilterAll(NotIn(Ids(page)), [nine]);
  }
}
