/**
 Listing likers straight from the bitmap: the fallback that walks shards, bytes and bits
 in ascending user order behind a "u:" cursor.
 */
module LikerScan {
  import opened Prelude
  import opened Ordered
  import opened Bitmap

  const CHUNK_FETCH_BATCH: nat := 16

  /** User ids start at 1, so bit 0 of shard 0 is never listed. */
  predicate IsLiker(shards: Shards, user: nat) {
    user > 0 && HasBit(shards, user)
  }

  /** The likers with lo <= id < hi, ascending: the reference every scan is measured against. */
  function Listed(shards: Shards, lo: nat, hi: nat): seq<nat>
    decreases hi
  {
    if hi <= lo then []
    else Listed(shards, lo, hi - 1) + if IsLiker(shards, hi - 1) then [hi - 1] else []
  }

  /** What one scan page returns: one liker more than the limit shows that others follow. */
  function ScanPage(shards: Shards, maxChunk: nat, cursor: nat, limit: nat): seq<nat> {
    Take(limit + 1, Listed(shards, cursor + 1, maxChunk * CHUNK_SIZE))
  }

  // ---- The reference ----

  /** The reference lists exactly the likers of its range, each once, in ascending order. */
  lemma {:induction false} ListedMembers(shards: Shards, lo: nat, hi: nat)
    ensures forall u :: u in Listed(shards, lo, hi) <==> lo <= u < hi && IsLiker(shards, u)
    ensures Ascending(Listed(shards, lo, hi))
    decreases hi
  {
    hide IsLiker;
    if hi > lo {
      ListedMembers(shards, lo, hi - 1);
      var init := Listed(shards, lo, hi - 1);
      assert forall i :: 0 <= i < |init| ==> init[i] in init;
    }
  }

  ghost predicate Ascending(s: seq<nat>) {
    forall i, j :: 0 <= i < j < |s| ==> s[i] < s[j]
  }

  lemma {:induction false} ListedSplit(shards: Shards, lo: nat, mid: nat, hi: nat)
    requires lo <= mid <= hi
    ensures Listed(shards, lo, hi) == Listed(shards, lo, mid) + Listed(shards, mid, hi)
    decreases hi
  {
    hide IsLiker;
    if mid < hi {
      ListedSplit(shards, lo, mid, hi - 1);
    } else {
      assert Listed(shards, lo, mid) + [] == Listed(shards, lo, mid);
    }
  }

  lemma {:induction false} ListedNone(shards: Shards, lo: nat, hi: nat)
    requires forall u :: lo <= u < hi ==> !IsLiker(shards, u)
    ensures Listed(shards, lo, hi) == []
    decreases hi
  {
    if hi > lo {
      ListedNone(shards, lo, hi - 1);
    }
  }

  lemma ListedOne(shards: Shards, lo: nat, user: nat)
    requires lo <= user
    ensures Listed(shards, lo, user + 1) == Listed(shards, lo, user) + if IsLiker(shards, user) then [user] else []
  {
  }

  lemma TakeOfLonger(n: nat, a: seq<nat>, b: seq<nat>)
    requires |a| >= n
    ensures Take(n, a + b) == Take(n, a)
  {
  }

  // ---- One shard ----

  /** The position a scan of one shard starts from. */
  function FirstOffset(chunk: nat, cursor: nat): nat {
    if chunk == cursor / CHUNK_SIZE then cursor % CHUNK_SIZE + 1 else 0
  }

  /** The items after scanning a shard up to an offset, as long as the page is not full. */
  ghost predicate ScannedTo(shards: Shards, before: seq<nat>, items: seq<nat>, lo: nat, user: nat, need: nat) {
    lo <= user && items == before + Listed(shards, lo, user) && |items| < need
  }

  lemma ScanSkips(shards: Shards, before: seq<nat>, items: seq<nat>, lo: nat, from: nat, to: nat, need: nat)
    requires ScannedTo(shards, before, items, lo, from, need) && from <= to
    requires forall u :: from <= u < to ==> !IsLiker(shards, u)
    ensures ScannedTo(shards, before, items, lo, to, need)
  {
    hide IsLiker;
    ListedSplit(shards, lo, from, to);
    ListedNone(shards, from, to);
    assert Listed(shards, lo, from) + [] == Listed(shards, lo, from);
  }

  lemma ScanStops(shards: Shards, before: seq<nat>, items: seq<nat>, lo: nat, user: nat, hi: nat, need: nat)
    requires lo <= user < hi && need > 0
    requires items == before + Listed(shards, lo, user) && |items| == need
    ensures items == Take(need, before + Listed(shards, lo, hi))
  {
    hide IsLiker, Listed;
    ListedSplit(shards, lo, user, hi);
    assert before + (Listed(shards, lo, user) + Listed(shards, user, hi)) == items + Listed(shards, user, hi);
    TakeOfLonger(need, items, Listed(shards, user, hi));
  }

  lemma ScanStep(shards: Shards, before: seq<nat>, items: seq<nat>, lo: nat, user: nat, need: nat)
    requires ScannedTo(shards, before, items, lo, user, need) && IsLiker(shards, user)
    ensures items + [user] == before + Listed(shards, lo, user + 1)
  {
    hide IsLiker;
    ListedOne(shards, lo, user);
  }

  lemma BitMeansLiker(shards: Shards, chunk: nat, offset: nat)
    requires chunk in shards && offset < CHUNK_SIZE
    ensures IsLiker(shards, UserAt(chunk, offset)) <==> UserAt(chunk, offset) > 0 && GetBit(shards[chunk], offset)
  {
    hide GetBit;
    ChunkAndBitLocate(chunk, offset);
  }

  lemma ZeroByteHasNoBit(b: bv8, bit: nat)
    requires bit < 8 && b == 0
    ensures !ByteBit(b, bit)
  {
  }

  /** Bits past the end of a string are unset. */
  lemma NoLikersPastEnd(shards: Shards, chunk: nat, offset: nat)
    requires chunk in shards && 8 * |shards[chunk]| <= offset <= CHUNK_SIZE
    ensures forall u :: UserAt(chunk, offset) <= u < UserAt(chunk, CHUNK_SIZE) ==> !IsLiker(shards, u)
  {
    forall u | UserAt(chunk, offset) <= u < UserAt(chunk, CHUNK_SIZE) ensures !IsLiker(shards, u) {
      assert u == UserAt(chunk, u - UserAt(chunk, 0));
      BitMeansLiker(shards, chunk, u - UserAt(chunk, 0));
    }
  }

  lemma NoLikersInZeroByte(shards: Shards, chunk: nat, byteIdx: nat)
    requires chunk in shards && byteIdx < |shards[chunk]| && 8 * byteIdx + 8 <= CHUNK_SIZE
    requires shards[chunk][byteIdx] == 0
    ensures forall u :: UserAt(chunk, 8 * byteIdx) <= u < UserAt(chunk, 8 * byteIdx + 8) ==> !IsLiker(shards, u)
  {
    forall u | UserAt(chunk, 8 * byteIdx) <= u < UserAt(chunk, 8 * byteIdx + 8) ensures !IsLiker(shards, u) {
      var offset := u - UserAt(chunk, 0);
      assert offset / 8 == byteIdx;
      BitMeansLiker(shards, chunk, offset);
      ZeroByteHasNoBit(shards[chunk][byteIdx], offset % 8);
    }
  }

  /** Decodes one shard behind the cursor until it ends or the page is full. */
  method AppendLikersFromChunk(ghost shards: Shards, items: seq<nat>, bytes: Bytes, chunk: nat, cursor: nat, need: nat)
    returns (out: seq<nat>)
    requires chunk in shards && shards[chunk] == bytes && 8 * |bytes| <= CHUNK_SIZE
    requires |items| < need && chunk >= cursor / CHUNK_SIZE
    ensures out == Take(need, items + Listed(shards, UserAt(chunk, FirstOffset(chunk, cursor)), UserAt(chunk, CHUNK_SIZE)))
  {
    hide IsLiker, Listed, GetBit, UserAt;
    var first := FirstOffset(chunk, cursor);
    ghost var lo, hi := UserAt(chunk, first), UserAt(chunk, CHUNK_SIZE);
    UserArithmetic(chunk);
    out := items;
    ListedNone(shards, lo, lo);
    assert items + [] == items;
    if first >= CHUNK_SIZE {
      return;
    }
    var byteIdx := first / 8;
    while byteIdx < |bytes|
      invariant first / 8 <= byteIdx
      invariant byteIdx <= |bytes| || byteIdx == first / 8
      invariant ScannedTo(shards, items, out, lo, UserAt(chunk, Max(first, 8 * byteIdx)), need)
    {
      if bytes[byteIdx] == 0 {
        NoLikersInZeroByte(shards, chunk, byteIdx);
        ScanSkips(shards, items, out, lo, UserAt(chunk, Max(first, 8 * byteIdx)), UserAt(chunk, Max(first, 8 * byteIdx + 8)), need);
      } else {
        var full := false;
        out, full := AppendLikersFromByte(shards, items, out, bytes, chunk, first, byteIdx, need);
        if full {
          return;
        }
      }
      byteIdx := byteIdx + 1;
    }
    var reached := Max(first, 8 * byteIdx);
    NoLikersPastEnd(shards, chunk, reached);
    ScanSkips(shards, items, out, lo, UserAt(chunk, reached), hi, need);
  }

  lemma UserArithmetic(chunk: nat)
    ensures forall o: nat :: UserAt(chunk, o) == chunk * CHUNK_SIZE + o
  {
  }

  /** The eight bits of one byte, highest first. */
  method AppendLikersFromByte(ghost shards: Shards, ghost before: seq<nat>, items: seq<nat>, bytes: Bytes, chunk: nat,
                              first: nat, byteIdx: nat, need: nat)
    returns (out: seq<nat>, full: bool)
    requires chunk in shards && shards[chunk] == bytes && 8 * |bytes| <= CHUNK_SIZE
    requires byteIdx < |bytes| && first / 8 <= byteIdx && first < CHUNK_SIZE
    requires ScannedTo(shards, before, items, UserAt(chunk, first), UserAt(chunk, Max(first, 8 * byteIdx)), need)
    ensures !full ==> ScannedTo(shards, before, out, UserAt(chunk, first), UserAt(chunk, Max(first, 8 * byteIdx + 8)), need)
    ensures full ==> out == Take(need, before + Listed(shards, UserAt(chunk, first), UserAt(chunk, CHUNK_SIZE)))
  {
    hide IsLiker, Listed, ByteBit, UserAt;
    UserArithmetic(chunk);
    ghost var lo := UserAt(chunk, first);
    out, full := items, false;
    var bit := 0;
    while bit < 8
      invariant bit <= 8
      invariant ScannedTo(shards, before, out, lo, UserAt(chunk, Max(first, 8 * byteIdx + bit)), need)
    {
      var offset := 8 * byteIdx + bit;
      assert offset / 8 == byteIdx && offset % 8 == bit;
      BitMeansLiker(shards, chunk, offset);
      if ByteBit(bytes[byteIdx], bit) && offset >= first && UserAt(chunk, offset) != 0 {
        ScanStep(shards, before, out, lo, UserAt(chunk, offset), need);
        out := out + [UserAt(chunk, offset)];
        if |out| >= need {
          full := true;
          if offset + 1 < CHUNK_SIZE {
            ScanStops(shards, before, out, lo, UserAt(chunk, offset + 1), UserAt(chunk, CHUNK_SIZE), need);
          }
          return;
        }
      } else if offset >= first {
        ScanSkips(shards, before, out, lo, UserAt(chunk, offset), UserAt(chunk, offset + 1), need);
      }
      bit := bit + 1;
    }
  }

  // ---- All shards ----

  /** Scans shards in batches from the one the cursor lies in, for at most limit + 1 likers. */
  method ScanLikerChunks(shards: Shards, maxChunk: nat, cursor: nat, limit: nat) returns (items: seq<nat>)
    requires ValidShards(shards)
    ensures items == ScanPage(shards, maxChunk, cursor, limit)
  {
    hide IsLiker, Listed;
    var need := limit + 1;
    var chunk := cursor / CHUNK_SIZE;
    ghost var lo, hi := cursor + 1, maxChunk * CHUNK_SIZE;
    items := [];
    ListedNone(shards, lo, lo);
    while chunk < maxChunk && |items| < need
      invariant chunk == cursor / CHUNK_SIZE || (cursor / CHUNK_SIZE < chunk <= maxChunk)
      invariant |items| < need ==> ScannedTo(shards, [], items, lo, Max(lo, chunk * CHUNK_SIZE), need)
      invariant |items| >= need ==> items == Take(need, Listed(shards, lo, hi))
      decreases maxChunk - chunk
    {
      var end := Min(chunk + CHUNK_FETCH_BATCH, maxChunk);
      var i := chunk;
      while i < end && |items| < need
        invariant chunk <= i <= end
        invariant |items| < need ==> ScannedTo(shards, [], items, lo, Max(lo, i * CHUNK_SIZE), need)
        invariant |items| >= need ==> items == Take(need, Listed(shards, lo, hi))
      {
        items := ScanOneChunk(shards, items, i, cursor, need, maxChunk);
        i := i + 1;
      }
      chunk := end;
    }
    if |items| < need {
      FinishScan(shards, items, lo, chunk, maxChunk, need, cursor);
    }
  }

  lemma FinishScan(shards: Shards, items: seq<nat>, lo: nat, chunk: nat, maxChunk: nat, need: nat, cursor: nat)
    requires lo == cursor + 1 && chunk >= maxChunk
    requires chunk == cursor / CHUNK_SIZE || chunk == maxChunk
    requires ScannedTo(shards, [], items, lo, Max(lo, chunk * CHUNK_SIZE), need)
    ensures items == Take(need, Listed(shards, lo, maxChunk * CHUNK_SIZE))
  {
    hide IsLiker;
    if Max(lo, chunk * CHUNK_SIZE) == lo {
      assert maxChunk * CHUNK_SIZE <= lo;
    }
  }

  method ScanOneChunk(shards: Shards, items: seq<nat>, i: nat, cursor: nat, need: nat, ghost maxChunk: nat)
    returns (out: seq<nat>)
    requires ValidShards(shards) && cursor / CHUNK_SIZE <= i < maxChunk
    requires ScannedTo(shards, [], items, cursor + 1, Max(cursor + 1, i * CHUNK_SIZE), need)
    ensures |out| < need ==> ScannedTo(shards, [], out, cursor + 1, Max(cursor + 1, (i + 1) * CHUNK_SIZE), need)
    ensures |out| >= need ==> out == Take(need, Listed(shards, cursor + 1, maxChunk * CHUNK_SIZE))
  {
    hide IsLiker, Listed;
    ghost var lo, from, to := cursor + 1, Max(cursor + 1, i * CHUNK_SIZE), (i + 1) * CHUNK_SIZE;
    assert from <= to && UserAt(i, FirstOffset(i, cursor)) == from && UserAt(i, CHUNK_SIZE) == to;
    if i !in shards {
      out := items;
      assert forall u :: from <= u < to ==> ChunkOf(u) == i;
      forall u | from <= u < to ensures !IsLiker(shards, u) {
        MissingShard(shards, u);
      }
      ScanSkips(shards, [], items, lo, from, to, need);
    } else {
      out := AppendLikersFromChunk(shards, items, shards[i], i, cursor, need);
      ListedSplit(shards, lo, from, to);
      assert [] + Listed(shards, lo, from) == Listed(shards, lo, from);
      assert out == Take(need, Listed(shards, lo, to));
      ListedSplit(shards, lo, to, maxChunk * CHUNK_SIZE);
      TakeOfLongerIf(need, Listed(shards, lo, to), Listed(shards, to, maxChunk * CHUNK_SIZE));
    }
  }

  lemma MissingShard(shards: Shards, user: nat)
    requires ChunkOf(user) !in shards
    ensures !IsLiker(shards, user)
  {
  }

  lemma TakeOfLongerIf(n: nat, a: seq<nat>, b: seq<nat>)
    ensures |Take(n, a)| >= n ==> Take(n, a + b) == Take(n, a)
    ensures |Take(n, a)| < n ==> Take(n, a) == a
  {
  }

  // ---- Whole walks ----

  /** Behind the last user of a full page lies exactly the rest of the list. */
  lemma RestBehindUser(shards: Shards, lo: nat, hi: nat, n: nat)
    requires 0 < n <= |Listed(shards, lo, hi)|
    ensures Listed(shards, Listed(shards, lo, hi)[n - 1] + 1, hi) == Listed(shards, lo, hi)[n..]
  {
    hide IsLiker, Listed;
    var whole := Listed(shards, lo, hi);
    var u := whole[n - 1];
    ListedMembers(shards, lo, hi);
    assert u in whole;
    ListedSplit(shards, lo, u + 1, hi);
    var head := Listed(shards, lo, u + 1);
    ListedMembers(shards, lo, u + 1);
    assert u in head;
    var k :| 0 <= k < |head| && head[k] == u;
    assert whole[k] == u;
    assert k == n - 1;
    assert head[|head| - 1] in head;
    assert |head| == n;
  }

  /** What a client collects that follows the "u:" cursors until hasMore is false. */
  ghost function Walk(shards: Shards, maxChunk: nat, limit: nat, cursor: nat, pages: nat): seq<nat>
    decreases pages
  {
    if pages == 0 then []
    else
      var found := ScanPage(shards, maxChunk, cursor, limit);
      var items := Take(limit, found);
      if |found| > limit && items != [] then items + Walk(shards, maxChunk, limit, items[|items| - 1], pages - 1)
      else items
  }

  /** Chaining the cursors lists every user with a set bit in range exactly once, ascending. */
  lemma {:induction false} WalkListsEveryLiker(shards: Shards, maxChunk: nat, limit: nat, cursor: nat, pages: nat)
    requires limit > 0 && pages > |Listed(shards, cursor + 1, maxChunk * CHUNK_SIZE)|
    ensures Walk(shards, maxChunk, limit, cursor, pages) == Listed(shards, cursor + 1, maxChunk * CHUNK_SIZE)
    decreases pages
  {
    hide Listed;
    var hi := maxChunk * CHUNK_SIZE;
    var whole := Listed(shards, cursor + 1, hi);
    if |whole| > limit {
      RestBehindUser(shards, cursor + 1, hi, limit);
      WalkListsEveryLiker(shards, maxChunk, limit, whole[limit - 1], pages - 1);
      assert Take(limit, ScanPage(shards, maxChunk, cursor, limit)) == whole[..limit];
      HeadAndTail(whole, limit);
    } else {
      assert Take(limit, ScanPage(shards, maxChunk, cursor, limit)) == whole;
    }
  }
}
