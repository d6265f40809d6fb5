/**
 "Who liked this": the time index kept beside the bitmap by one script, read newest first by
 rank or by score, and the bitmap scan when the index is missing.
 */
module Likers {
  import opened Prelude
  import opened Decimal
  import opened Ordered
  import opened SortedSet
  import Bitmap
  import LikerScan

  const TIE_SLACK: nat := 16

  datatype Cursor = Cursor(byTime: bool, ts: int, userID: nat)

  const FIRST_PAGE := Cursor(false, 0, 0)

  datatype Response = InvalidCursor | Likers(items: seq<Entry>, hasMore: bool, cursor: string)

  // ---- Cursor text ----

  function EncodeTimeCursor(e: Entry): string {
    "t:" + FormatInt(e.score) + ":" + Format(e.id)
  }

  function EncodeUIDCursor(user: nat): string {
    "u:" + Format(user)
  }

  function ParseCursor(raw: string): Option<Cursor> {
    if raw == "" || raw == "0" then Some(FIRST_PAGE)
    else if "t:" <= raw && Cut(raw[2..], ':').Some? then
      var parts := Cut(raw[2..], ':').value;
      match (ParseInt(parts.0), ParseUint(parts.1))
      case (Some(ts), Some(user)) => Some(Cursor(true, ts, user))
      case _ => None
    else if "u:" <= raw then
      match ParseUint(raw[2..])
      case Some(user) => Some(Cursor(false, 0, user))
      case None => None
    else
      match ParseUint(raw)
      case Some(user) => Some(Cursor(false, 0, user))
      case None => None
  }

  lemma TimeCursorRoundTrip(e: Entry)
    requires -INT64_LIMIT <= e.score < INT64_LIMIT && e.id < UINT64_LIMIT
    ensures ParseCursor(EncodeTimeCursor(e)) == Some(Cursor(true, e.score, e.id))
  {
    hide Format, ParseUint, FormatInt, ParseInt;
    var body := FormatInt(e.score) + [':'] + Format(e.id);
    assert EncodeTimeCursor(e) == "t:" + body;
    assert EncodeTimeCursor(e)[2..] == body;
    FormatIntHasNoColon(e.score);
    CutAtSeparator(FormatInt(e.score), ':', Format(e.id));
    ParseIntFormatInt(e.score);
    ParseUintFormat(e.id);
  }

  lemma UIDCursorRoundTrip(user: nat)
    requires user < UINT64_LIMIT
    ensures ParseCursor(EncodeUIDCursor(user)) == Some(Cursor(false, 0, user))
  {
    hide Format, ParseUint;
    var raw := EncodeUIDCursor(user);
    assert raw[0] == 'u' && raw[2..] == Format(user);
    assert !("t:" <= raw) && "u:" <= raw;
    ParseUintFormat(user);
  }

  // ---- Reading by time ----

  function ClampLimit(limit: int): nat {
    if limit <= 0 then 20 else if limit > 50 then 50 else limit
  }

  /** The position of a time cursor in the index. */
  function Mark(cur: Cursor): Z {
    Z(cur.ts, Format(cur.userID))
  }

  /** What a by-score read keeps: everything but the cursor and the members tied before it. */
  function Kept(cur: Cursor): Z -> bool {
    (x: Z) => !(cur.byTime && x.score == cur.ts && !LexLess(x.member, Format(cur.userID)))
  }

  function ScoreBound(cur: Cursor): Option<int> {
    if cur.byTime then Some(cur.ts) else None
  }

  function FetchCount(cur: Cursor, limit: nat): nat {
    limit + 1 + if cur.byTime then TIE_SLACK else 0
  }

  /** Up to limit + 1 entries behind the cursor, read by score. */
  function FoundByScore(z: seq<Z>, cur: Cursor, limit: nat): seq<Entry> {
    Take(limit + 1, ToEntries(Filter(Kept(cur), RevRangeByScore(z, ScoreBound(cur), FetchCount(cur, limit)))))
  }

  /** Up to limit + 1 entries behind the cursor: by rank while its member is still listed. */
  function Found(z: seq<Z>, cur: Cursor, limit: nat): seq<Entry> {
    if cur.byTime && RevRank(z, Format(cur.userID)).Some? then
      var rank := RevRank(z, Format(cur.userID)).value;
      Take(limit + 1, ToEntries(RevRange(z, rank + 1, rank + limit + 1)))
    else FoundByScore(z, cur, limit)
  }

  method FilterLikerPage(zs: seq<Z>, cur: Cursor, limit: nat) returns (items: seq<Entry>)
    ensures items == Take(limit + 1, ToEntries(Filter(Kept(cur), zs)))
  {
    hide Filter, ToEntries, ParseUint, LexLess, Format;
    items := [];
    FilterNone(Kept(cur), []);
    ToEntriesEmpty();
    assert zs[..0] == [];
    var i := 0;
    while i < |zs| && |items| <= limit
      invariant 0 <= i <= |zs| && |items| <= limit + 1
      invariant items == ToEntries(Filter(Kept(cur), zs[..i]))
    {
      assert zs[..i + 1] == zs[..i] + [zs[i]];
      FilterSnoc(Kept(cur), zs[..i], zs[i]);
      DecodeOne(Filter(Kept(cur), zs[..i]), zs[i]);
      var uid := ParseUint(zs[i].member);
      if uid.Some? && !(cur.byTime && zs[i].score == cur.ts && !LexLess(zs[i].member, Format(cur.userID))) {
        items := items + [Entry(uid.value, zs[i].score)];
      }
      i := i + 1;
    }
    ghost var rest := Filter(Kept(cur), zs[i..]);
    HeadAndTail(zs, i);
    FilterConcat(Kept(cur), zs[..i], zs[i..]);
    DecodeConcat(Filter(Kept(cur), zs[..i]), rest);
    if i == |zs| {
      assert zs[i..] == [];
      assert items + [] == items;
    } else {
      assert Take(limit + 1, items + ToEntries(rest)) == items;
    }
  }

  method PackLikerPage(zs: seq<Z>, limit: nat) returns (items: seq<Entry>)
    ensures items == Take(limit + 1, ToEntries(zs))
  {
    FilterAll(Kept(FIRST_PAGE), zs);
    items := FilterLikerPage(zs, FIRST_PAGE, limit);
  }

  /**
   GetLikers: by time while the index exists, else from the bitmap. An id cursor stays on the
   bitmap. `z` is the time index (a Redis sorted set without members does not exist).
   */
  method GetLikers(z: seq<Z>, shards: Bitmap.Shards, maxChunk: nat, raw: string, limit: int) returns (r: Response)
    requires Bitmap.ValidShards(shards)
    ensures r == match ParseCursor(raw)
                 case None => InvalidCursor
                 case Some(cur) => Answer(z, shards, maxChunk, cur, ClampLimit(limit))
  {
    hide ParseCursor, Found, LikerScan.ScanPage, IdPage, TimePage;
    var size := ClampLimit(limit);
    var parsed := ParseCursor(raw);
    if parsed.None? {
      return InvalidCursor;
    }
    var cur := parsed.value;
    if !cur.byTime && cur.userID > 0 {
      var users := LikerScan.ScanLikerChunks(shards, maxChunk, cur.userID, size);
      return IdPage(users, size);
    }
    if !cur.byTime && z == [] {
      var users := LikerScan.ScanLikerChunks(shards, maxChunk, cur.userID, size);
      return IdPage(users, size);
    }
    var items := ReadLikersByTime(z, cur, size);
    r := TimePage(items, size);
  }

  /** By rank when the cursor's member is still listed, else by score. */
  method ReadLikersByTime(z: seq<Z>, cur: Cursor, limit: nat) returns (items: seq<Entry>)
    ensures items == Found(z, cur, limit)
  {
    hide Filter, ToEntries, Format, RevRange, RevRangeByScore, Kept, RevRank, Take;
    if cur.byTime {
      var rank := RevRank(z, Format(cur.userID));
      if rank.Some? {
        items := PackLikerPage(RevRange(z, rank.value + 1, rank.value + limit + 1), limit);
        return;
      }
    }
    items := FilterLikerPage(RevRangeByScore(z, ScoreBound(cur), FetchCount(cur, limit)), cur, limit);
  }

  /** One page: from the bitmap for an id cursor or a missing index, else from the index. */
  function Answer(z: seq<Z>, shards: Bitmap.Shards, maxChunk: nat, cur: Cursor, limit: nat): Response {
    if !cur.byTime && (cur.userID > 0 || z == [])
    then IdPage(LikerScan.ScanPage(shards, maxChunk, cur.userID, limit), limit)
    else TimePage(Found(z, cur, limit), limit)
  }

  function TimePage(found: seq<Entry>, limit: nat): Response {
    var items := Take(limit, found);
    Likers(items, |found| > limit, if items == [] then "" else EncodeTimeCursor(items[|items| - 1]))
  }

  /** The time of an old like is unknown and reported as 0. */
  function IdPage(found: seq<nat>, limit: nat): Response {
    var users := Take(limit, found);
    Likers(seq(|users|, i requires 0 <= i < |users| => Entry(users[i], 0)), |found| > limit,
           if users == [] then "" else EncodeUIDCursor(users[|users| - 1]))
  }

  // ---- The reference ----

  ghost predicate IsIndex(z: seq<Z>) {
    IsZSet(z) && forall x :: x in z ==> CanonicalMember(x.member)
  }

  /** Members listed behind a position. */
  function BehindMark(m: Z): Z -> bool {
    (x: Z) => RedisAbove(m, x)
  }

  /** Everything the index lists behind a cursor. */
  function Remaining(z: seq<Z>, cur: Cursor): seq<Z> {
    if cur.byTime then Filter(BehindMark(Mark(cur)), z) else z
  }

  lemma MarkSuffix(z: seq<Z>, m: Z) returns (k: nat)
    requires IsZSet(z)
    ensures k <= |z| && Filter(BehindMark(m), z) == z[k..]
    ensures forall i :: 0 <= i < k ==> !RedisAbove(m, z[i])
    ensures forall i :: k <= i < |z| ==> RedisAbove(m, z[i])
  {
    assert DownClosed(RedisAbove, BehindMark(m)) by {
      RedisOrderIsTotal();
    }
    k := FilterIsSuffix(RedisAbove, BehindMark(m), z);
  }

  lemma BoundSuffix(z: seq<Z>, max: Option<int>) returns (k: nat)
    requires IsZSet(z)
    ensures k <= |z| && Filter(AtMost(max), z) == z[k..]
    ensures forall i :: 0 <= i < k ==> !AtMost(max)(z[i])
    ensures forall i :: k <= i < |z| ==> AtMost(max)(z[i])
  {
    hide LexLess;
    assert DownClosed(RedisAbove, AtMost(max));
    k := FilterIsSuffix(RedisAbove, AtMost(max), z);
  }

  lemma SuffixIsIndex(z: seq<Z>, i: nat, j: nat)
    requires IsIndex(z) && i <= j <= |z|
    ensures forall x :: x in z[i..j] ==> ParseUint(x.member).Some?
  {
    hide ParseUint;
    assert forall x :: x in z[i..j] ==> x in z && CanonicalMember(x.member);
  }

  /** While the cursor's member keeps its time, the page by rank is exact for any number of ties. */
  lemma RankPageIsExact(z: seq<Z>, cur: Cursor, limit: nat)
    requires IsIndex(z) && cur.byTime && Mark(cur) in z
    ensures Found(z, cur, limit) == Take(limit + 1, ToEntries(Remaining(z, cur)))
  {
    hide ParseUint, RedisAbove, Format, ToEntries, Filter, IsIndex, Take;
    assert IsZSet(z) by { IndexIsZSet(z); }
    var r := RankOfMark(z, cur);
    var k := MarkSuffix(z, Mark(cur));
    RanksAgree(z, r, k);
    SuffixIsIndex(z, r + 1, |z|);
    assert z[r + 1..|z|] == z[r + 1..];
    ToEntriesTake(z[r + 1..], limit + 1);
    RevRangeIsTake(z, r + 1, limit);
    TakeAgain(limit + 1, ToEntries(z[r + 1..]));
  }

  lemma IndexIsZSet(z: seq<Z>)
    requires IsIndex(z)
    ensures IsZSet(z)
  {
  }

  lemma RankOfMark(z: seq<Z>, cur: Cursor) returns (r: nat)
    requires IsZSet(z) && Mark(cur) in z
    ensures RevRank(z, Format(cur.userID)) == Some(r) && r < |z| && z[r] == Mark(cur)
  {
    hide Format, RedisAbove;
    assert RevRank(z, Format(cur.userID)).Some?;
    r := RevRank(z, Format(cur.userID)).value;
    assert z[r] in z && z[r].member == Mark(cur).member;
    if z[r] != Mark(cur) {
      MembersUnique(z, z[r], Mark(cur));
    }
  }

  lemma RanksAgree(z: seq<Z>, r: nat, k: nat)
    requires IsZSet(z) && r < |z| && k <= |z|
    requires forall i :: 0 <= i < k ==> !RedisAbove(z[r], z[i])
    requires forall i :: k <= i < |z| ==> RedisAbove(z[r], z[i])
    ensures k == r + 1
  {
    hide RedisAbove;
    RedisOrderIsTotal();
    assert k < |z| ==> RedisAbove(z[r], z[k]);
    assert r + 1 < |z| ==> RedisAbove(z[r], z[r + 1]);
  }

  /** How many members at the cursor's score are not behind it. */
  ghost function Skipped(z: seq<Z>, cur: Cursor): nat {
    |Filter(TiedNotBehind(cur), z)|
  }

  function TiedNotBehind(cur: Cursor): Z -> bool {
    (x: Z) => x.score == cur.ts && !LexLess(x.member, Format(cur.userID))
  }

  /** A by-score read finds the first entries behind the cursor, as many as its fetch has room for. */
  lemma ScorePage(z: seq<Z>, cur: Cursor, limit: nat)
    requires IsIndex(z) && cur.byTime
    ensures FoundByScore(z, cur, limit)
            == Take(Min(limit + 1, Max(0, limit + 17 - Skipped(z, cur))), ToEntries(Remaining(z, cur)))
  {
    hide ParseUint, LexLess, Format, ToEntries, Filter;
    var i := BoundSuffix(z, ScoreBound(cur));
    var k := MarkSuffix(z, Mark(cur));
    SuffixesNest(z, cur, i, k);
    var n := FetchCount(cur, limit);
    var j := Min(|z|, i + n);
    assert Take(n, z[i..]) == z[i..j];
    KeptStretch(z, cur, i, j, k);
    SuffixIsIndex(z, k, |z|);
    assert z[k..|z|] == z[k..];
    if k <= j {
      assert z[k..j] == Take(j - k, z[k..]);
      ToEntriesTake(z[k..], j - k);
      CanonicalEntries(z[k..]);
      TakeTake(ToEntries(z[k..]), limit + 1, j - k, n - (k - i));
    } else {
      ToEntriesEmpty();
    }
  }

  lemma TakeTake(s: seq<Entry>, a: nat, b: nat, c: int)
    requires b == c || (b == |s| && c >= b)
    ensures Take(a, Take(b, s)) == Take(Min(a, Max(0, c)), s)
  {
  }

  lemma SuffixesNest(z: seq<Z>, cur: Cursor, i: nat, k: nat)
    requires IsIndex(z) && cur.byTime && i <= |z| && k <= |z|
    requires forall q :: 0 <= q < i ==> !AtMost(ScoreBound(cur))(z[q])
    requires forall q :: i <= q < |z| ==> AtMost(ScoreBound(cur))(z[q])
    requires forall q :: 0 <= q < k ==> !RedisAbove(Mark(cur), z[q])
    requires forall q :: k <= q < |z| ==> RedisAbove(Mark(cur), z[q])
    ensures i <= k && Filter(TiedNotBehind(cur), z) == z[i..k]
  {
    hide LexLess, Format, Filter, IsIndex;
    assert i <= k by {
      assert k < |z| ==> RedisAbove(Mark(cur), z[k]);
    }
    forall q | 0 <= q < |z| ensures TiedNotBehind(cur)(z[q]) <==> i <= q < k {
      assert AtMost(ScoreBound(cur))(z[q]) <==> q >= i;
      assert RedisAbove(Mark(cur), z[q]) <==> q >= k;
    }
    FilterMiddle(TiedNotBehind(cur), z, i, k);
  }

  lemma FilterMiddle(p: Z -> bool, z: seq<Z>, i: nat, k: nat)
    requires i <= k <= |z|
    requires forall q :: 0 <= q < |z| ==> (p(z[q]) <==> i <= q < k)
    ensures Filter(p, z) == z[i..k]
  {
    hide Filter;
    assert z == z[..i] + z[i..k] + z[k..];
    FilterConcat(p, z[..i] + z[i..k], z[k..]);
    FilterConcat(p, z[..i], z[i..k]);
    FilterNone(p, z[..i]);
    FilterAll(p, z[i..k]);
    FilterNone(p, z[k..]);
  }

  lemma KeptStretch(z: seq<Z>, cur: Cursor, i: nat, j: nat, k: nat)
    requires IsIndex(z) && cur.byTime && i <= k <= |z| && i <= j <= |z|
    requires forall q :: i <= q < |z| ==> AtMost(ScoreBound(cur))(z[q])
    requires forall q :: 0 <= q < k ==> !RedisAbove(Mark(cur), z[q])
    requires forall q :: k <= q < |z| ==> RedisAbove(Mark(cur), z[q])
    ensures Filter(Kept(cur), z[i..j]) == if k <= j then z[k..j] else []
  {
    hide LexLess, Format, Filter;
    var m := Min(j, k);
    assert z[i..j] == z[i..m] + z[m..j];
    FilterConcat(Kept(cur), z[i..m], z[m..j]);
    forall x | x in z[i..m] ensures !Kept(cur)(x) {
      var q :| i <= q < m && z[q] == x;
      assert AtMost(ScoreBound(cur))(z[q]) && !RedisAbove(Mark(cur), z[q]);
    }
    forall x | x in z[m..j] ensures Kept(cur)(x) {
      var q :| m <= q < j && z[q] == x;
      assert RedisAbove(Mark(cur), z[q]);
    }
    FilterNone(Kept(cur), z[i..m]);
    FilterAll(Kept(cur), z[m..j]);
  }

  /**
   After the cursor's member was deleted, the page read by score and its hasMore are right
   exactly when at most sixteen tied members are skipped, or what remains fits in the fetch.
   */
  lemma ScorePageExactIff(z: seq<Z>, cur: Cursor, limit: nat)
    requires IsIndex(z) && cur.byTime
    ensures FoundByScore(z, cur, limit) == Take(limit + 1, ToEntries(Remaining(z, cur))) <==>
            Skipped(z, cur) <= 16 || |Remaining(z, cur)| <= limit + 17 - Skipped(z, cur)
               || Remaining(z, cur) == []
  {
    hide ToEntries, Filter, Skipped, LexLess, Format, ParseUint;
    ScorePage(z, cur, limit);
    RemainingDecodes(z, cur);
    var es := ToEntries(Remaining(z, cur));
    var room := Max(0, FetchCount(cur, limit) - Skipped(z, cur));
    assert |Take(Min(limit + 1, room), es)| == Min(Min(limit + 1, room), |es|);
    assert |Take(limit + 1, es)| == Min(limit + 1, |es|);
  }

  lemma RemainingDecodes(z: seq<Z>, cur: Cursor)
    requires IsIndex(z)
    ensures |ToEntries(Remaining(z, cur))| == |Remaining(z, cur)|
  {
    hide ToEntries, ParseUint, LexLess, Format, Filter;
    assert forall x :: x in z ==> CanonicalMember(x.member);
    FilterMembers(BehindMark(Mark(cur)), z);
    CanonicalEntries(Remaining(z, cur));
  }

  /** The first page is exact whatever the ties. */
  lemma FirstPageIsExact(z: seq<Z>, cur: Cursor, limit: nat)
    requires IsIndex(z) && !cur.byTime
    ensures Found(z, cur, limit) == Take(limit + 1, ToEntries(z))
  {
    hide ToEntries, Filter, ParseUint, Take, RevRank, LexLess, Format;
    FilterAll(AtMost(None), z);
    FilterAll(Kept(cur), Take(limit + 1, z));
    assert forall x :: x in z ==> CanonicalMember(x.member);
    ToEntriesTake(z, limit + 1);
    TakeAgain(limit + 1, ToEntries(z));
  }

  /**
   No page is longer than was asked for (20 when nothing was, and 50 at most), and one that announces
   more is exactly that long; the first page of an index is as long as it can be.
   */
  lemma PagesAreAsLongAsAsked(z: seq<Z>, shards: Bitmap.Shards, maxChunk: nat, cur: Cursor, limit: int)
    requires Bitmap.ValidShards(shards)
    ensures var r, asked := Answer(z, shards, maxChunk, cur, ClampLimit(limit)), if limit < 1 then 20 else Min(limit, 50);
            && r.Likers? && |r.items| <= asked && (r.hasMore ==> |r.items| == asked)
    ensures IsIndex(z) && z != [] && cur == FIRST_PAGE ==>
              var r, asked := Answer(z, shards, maxChunk, cur, ClampLimit(limit)), if limit < 1 then 20 else Min(limit, 50);
              |r.items| == Min(asked, |z|) && (r.hasMore <==> |z| > asked)
  {
    hide Found, LikerScan.ScanPage, IsIndex, EncodeTimeCursor, EncodeUIDCursor;
    if IsIndex(z) && z != [] && cur == FIRST_PAGE {
      FirstPageIsExact(z, cur, ClampLimit(limit));
      IndexDecodes(z);
    }
  }

  lemma IndexDecodes(z: seq<Z>)
    requires IsIndex(z)
    ensures |ToEntries(z)| == |z|
  {
    hide ParseUint, Format;
    assert forall x :: x in z ==> CanonicalMember(x.member);
    CanonicalEntries(z);
  }

  // ---- Whole walks ----

  /** What a client collects that follows the time cursors until hasMore is false. */
  ghost function Walk(z: seq<Z>, limit: nat, cur: Cursor, pages: nat): seq<Entry>
    decreases pages
  {
    if pages == 0 then []
    else
      var found := Found(z, cur, limit);
      var items := Take(limit, found);
      if |found| > limit && items != []
      then items + Walk(z, limit, Cursor(true, items[|items| - 1].score, items[|items| - 1].id), pages - 1)
      else items
  }

  /** The cursor behind the first k members of the index. */
  function CursorBehind(z: seq<Z>, k: nat): Cursor
    requires k <= |z|
  {
    if k == 0 then FIRST_PAGE else Cursor(true, EntryOf(z[k - 1]).score, EntryOf(z[k - 1]).id)
  }

  lemma PageBehindMembers(z: seq<Z>, limit: nat, k: nat)
    requires IsIndex(z) && k <= |z|
    ensures |ToEntries(z)| == |z| && Found(z, CursorBehind(z, k), limit) == Take(limit + 1, ToEntries(z)[k..])
  {
    hide ToEntries, ParseUint, LexLess, Format, Found, Filter;
    assert forall x :: x in z ==> CanonicalMember(x.member);
    CanonicalEntries(z);
    var cur := CursorBehind(z, k);
    if k == 0 {
      FirstPageIsExact(z, cur, limit);
      assert ToEntries(z)[0..] == ToEntries(z);
    } else {
      assert z[k - 1] in z && Mark(cur) == z[k - 1];
      RankPageIsExact(z, cur, limit);
      var m := MarkSuffix(z, z[k - 1]);
      RanksAgree(z, k - 1, m);
      CanonicalEntries(z[k..]);
      assert ToEntries(z[k..]) == ToEntries(z)[k..];
    }
  }

  lemma WalkJoins(z: seq<Z>, es: seq<Entry>, limit: nat, k: nat, pages: nat)
    requires |es| == |z| && pages > 0 && limit > 0 && k + limit < |z|
    requires es[k + limit - 1] == EntryOf(z[k + limit - 1])
    requires Found(z, CursorBehind(z, k), limit) == Take(limit + 1, es[k..])
    requires Walk(z, limit, CursorBehind(z, k + limit), pages - 1) == es[k + limit..]
    ensures Walk(z, limit, CursorBehind(z, k), pages) == es[k..]
  {
    hide Found, EntryOf;
    var items := Take(limit, Take(limit + 1, es[k..]));
    assert items == es[k..k + limit] && items[limit - 1] == es[k + limit - 1];
    assert es[k..k + limit] + es[k + limit..] == es[k..];
  }

  /**
   On a fixed index the first page and the pages by rank list every member exactly once, newest
   first, for any number of ties; the walk stops, hasMore being false, only at the end.
   */
  lemma {:induction false} WalkListsEveryMember(z: seq<Z>, limit: nat, k: nat, pages: nat)
    requires limit > 0 && IsIndex(z) && k <= |z| && pages > |z| - k
    ensures |ToEntries(z)| == |z| && Walk(z, limit, CursorBehind(z, k), pages) == ToEntries(z)[k..]
    decreases pages
  {
    hide ToEntries, ParseUint, Found, IsIndex;
    PageBehindMembers(z, limit, k);
    var es := ToEntries(z);
    if k + limit < |z| {
      WalkListsEveryMember(z, limit, k + limit, pages - 1);
      DecodedAt(z, k + limit - 1);
      WalkJoins(z, es, limit, k, pages);
    } else {
      assert Take(limit, Take(limit + 1, es[k..])) == es[k..];
    }
  }

  lemma DecodedAt(z: seq<Z>, i: nat)
    requires IsIndex(z) && i < |z|
    ensures |ToEntries(z)| == |z| && ToEntries(z)[i] == EntryOf(z[i])
  {
    hide ParseUint, ToEntries;
    assert forall x :: x in z ==> CanonicalMember(x.member);
    CanonicalEntries(z);
  }
}
