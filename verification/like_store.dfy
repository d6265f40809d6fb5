/**
 The stored like state of one (metric, entity): the bitmap that decides who likes it and the
 time index that lists them, changed together by one atomic script and rebuilt offline.
 */
module LikeStore {
  import opened Prelude
  import opened Decimal
  import opened Ordered
  import opened SortedSet
  import opened Bitmap
  import LikerScan
  import Likers

  datatype Op = Add | Remove | Other

  /** ZADD NX with score 0: a listed member keeps its time. */
  function AddIfMissing(z: seq<Z>, user: nat): seq<Z> {
    if RevRank(z, Format(user)).Some? then z else SortedSet.Add(z, Z(0, Format(user)))
  }

  function AddAllMissing(z: seq<Z>, users: seq<nat>): seq<Z> {
    if users == [] then z else AddIfMissing(AddAllMissing(z, users[..|users| - 1]), users[|users| - 1])
  }

  predicate Indexed(z: seq<Z>, user: nat) {
    RevRank(z, Format(user)).Some?
  }

  /** The index lists only users whose bit is set. */
  ghost predicate IndexWithinBitmap(z: seq<Z>, shards: Shards) {
    && Likers.IsIndex(z)
    && forall x :: x in z ==> HasBit(shards, EntryOf(x).id)
  }

  ghost predicate OnlyBitChanged(before: Shards, after: Shards, user: nat, on: bool) {
    forall u :: HasBit(after, u) <==> if u == user then on else HasBit(before, u)
  }

  class Store {
    var shards: Shards
    var index: seq<Z>

    ghost predicate Valid()
      reads this
    {
      ValidShards(shards) && IndexWithinBitmap(index, shards)
    }

    constructor ()
      ensures Valid() && shards == map[] && index == []
    {
      shards := map[];
      index := [];
    }

    /**
     The toggle script: tests the bit, and only on a real change sets it and moves the user in
     or out of the time index. Answers 1 for a change, 0 for none, -1 for an unknown operation.
     */
    method Toggle(user: nat, op: Op, now: int) returns (changed: int)
      requires Valid() && user < UINT64_LIMIT
      modifies this
      ensures Valid()
      ensures changed == if op.Other? then -1 else if HasBit(old(shards), user) == op.Add? then 0 else 1
      ensures Users(shards) == if op.Add? then Users(old(shards)) + {user}
                               else if op.Remove? then Users(old(shards)) - {user} else Users(old(shards))
      ensures index == if changed != 1 then old(index)
                       else if op.Add? then SortedSet.Add(old(index), Z(now, Format(user)))
                       else Rem(old(index), Format(user))
    {
      hide GetBit, SetBit, Users;
      var chunk, bit := ChunkOf(user), BitOf(user);
      var previous := chunk in shards && GetBit(shards[chunk], bit);
      if op.Other? || previous == op.Add? {
        SameUsers(shards, user);
        return if op.Other? then -1 else 0;
      }
      var bytes := if chunk in shards then shards[chunk] else [];
      var written := shards[chunk := SetBit(bytes, bit, op.Add?)];
      OneBitChanged(shards, user, op.Add?);
      if op.Add? {
        AddedToIndex(index, shards, written, user, now);
        index := SortedSet.Add(index, Z(now, Format(user)));
      } else {
        RemovedFromIndex(index, shards, written, user);
        index := Rem(index, Format(user));
      }
      shards := written;
      changed := 1;
    }

    /** The offline rebuild adds every liker in range that is not listed yet, with time 0. */
    method RebuildTimeIndex(maxChunk: nat) returns (added: nat)
      requires Valid() && maxChunk * CHUNK_SIZE <= UINT64_LIMIT
      modifies this`index
      ensures Valid()
      ensures index == AddAllMissing(old(index), LikerScan.Listed(shards, 1, maxChunk * CHUNK_SIZE))
      ensures added == |index| - |old(index)|
    {
      hide LikerScan.Listed, LikerScan.IsLiker, GetBit, AddAllMissing, IndexWithinBitmap;
      added := 0;
      AddNothing(index);
      LikerScan.ListedNone(shards, 1, 1);
      var chunk := 0;
      while chunk < maxChunk
        invariant chunk <= maxChunk
        invariant Valid()
        invariant index == AddAllMissing(old(index), LikerScan.Listed(shards, 1, Max(1, chunk * CHUNK_SIZE)))
        invariant added == |index| - |old(index)|
      {
        var end := Min(chunk + LikerScan.CHUNK_FETCH_BATCH, maxChunk);
        var members := LikersOfBatch(shards, chunk, end);
        ghost var from, to := Max(1, chunk * CHUNK_SIZE), Max(1, end * CHUNK_SIZE);
        LikerScan.ListedSplit(shards, 1, from, to);
        AddAllConcat(old(index), LikerScan.Listed(shards, 1, from), members);
        AddAllKeeps(index, shards, from, to);
        var grown := AddAllMissing(index, members);
        added := added + (|grown| - |index|);
        index := grown;
        chunk := end;
      }
      if maxChunk == 0 {
        LikerScan.ListedNone(shards, 1, 0);
      }
    }
  }

  lemma AddNothing(z: seq<Z>)
    ensures AddAllMissing(z, []) == z
  {
  }

  /** The likers of a run of shards, fetched together. */
  method LikersOfBatch(shards: Shards, chunk: nat, end: nat) returns (members: seq<nat>)
    requires ValidShards(shards) && chunk <= end
    ensures members == LikerScan.Listed(shards, Max(1, chunk * CHUNK_SIZE), Max(1, end * CHUNK_SIZE))
  {
    hide LikerScan.Listed, LikerScan.IsLiker, GetBit;
    members := [];
    ghost var from := Max(1, chunk * CHUNK_SIZE);
    LikerScan.ListedNone(shards, from, from);
    for i := chunk to end
      invariant members == LikerScan.Listed(shards, from, Max(1, i * CHUNK_SIZE))
    {
      var users := LikersOfChunk(shards, i);
      LikerScan.ListedSplit(shards, from, Max(1, i * CHUNK_SIZE), (i + 1) * CHUNK_SIZE);
      members := members + users;
    }
  }

  method LikersOfChunk(shards: Shards, i: nat) returns (users: seq<nat>)
    requires ValidShards(shards)
    ensures users == LikerScan.Listed(shards, Max(1, i * CHUNK_SIZE), (i + 1) * CHUNK_SIZE)
  {
    hide LikerScan.Listed, LikerScan.IsLiker, GetBit;
    ghost var lo, hi := Max(1, i * CHUNK_SIZE), (i + 1) * CHUNK_SIZE;
    if i !in shards {
      forall u | lo <= u < hi ensures !LikerScan.IsLiker(shards, u) {
        assert ChunkOf(u) == i;
        LikerScan.MissingShard(shards, u);
      }
      LikerScan.ListedNone(shards, lo, hi);
      users := [];
    } else {
      assert UserAt(i, LikerScan.FirstOffset(i, 0)) == lo && UserAt(i, CHUNK_SIZE) == hi;
      users := LikerScan.AppendLikersFromChunk(shards, [], shards[i], i, 0, CHUNK_SIZE);
      ListedFits(shards, lo, hi);
      assert [] + LikerScan.Listed(shards, lo, hi) == LikerScan.Listed(shards, lo, hi);
    }
  }

  lemma {:induction false} ListedFits(shards: Shards, lo: nat, hi: nat)
    requires lo <= hi
    ensures |LikerScan.Listed(shards, lo, hi)| <= hi - lo
    decreases hi
  {
    hide LikerScan.IsLiker;
    if lo < hi {
      ListedFits(shards, lo, hi - 1);
    }
  }

  // ---- One toggle ----

  lemma SameUsers(shards: Shards, user: nat)
    ensures HasBit(shards, user) ==> Users(shards) == Users(shards) + {user}
    ensures !HasBit(shards, user) ==> Users(shards) == Users(shards) - {user}
  {
    UsersAreSetBits(shards, user);
  }

  lemma OneBitChanged(shards: Shards, user: nat, on: bool)
    requires ValidShards(shards)
    ensures var bytes := if ChunkOf(user) in shards then shards[ChunkOf(user)] else [];
            var written := shards[ChunkOf(user) := SetBit(bytes, BitOf(user), on)];
            && ValidShards(written)
            && OnlyBitChanged(shards, written, user, on)
            && Users(written) == if on then Users(shards) + {user} else Users(shards) - {user}
  {
    hide GetBit, Users;
    var bytes := if ChunkOf(user) in shards then shards[ChunkOf(user)] else [];
    var written := shards[ChunkOf(user) := SetBit(bytes, BitOf(user), on)];
    SetBitFits(bytes, BitOf(user), on);
    forall u ensures HasBit(written, u) <==> if u == user then on else HasBit(shards, u) {
      GetAfterSet(bytes, BitOf(user), on, BitOf(u));
      NoBits(BitOf(u));
      assert UserAt(ChunkOf(u), BitOf(u)) == u && UserAt(ChunkOf(user), BitOf(user)) == user;
    }
    forall u ensures u in Users(written) <==> HasBit(written, u) {
      UsersAreSetBits(written, u);
    }
    forall u ensures u in Users(shards) <==> HasBit(shards, u) {
      UsersAreSetBits(shards, u);
    }
  }

  lemma NoBits(o: nat)
    ensures !GetBit([], o)
  {
  }

  lemma SetBitFits(bytes: Bytes, bit: nat, on: bool)
    requires bit < CHUNK_SIZE && 8 * |bytes| <= CHUNK_SIZE
    ensures 8 * |SetBit(bytes, bit, on)| <= CHUNK_SIZE
  {
    hide ByteWith;
  }

  lemma AddedToIndex(z: seq<Z>, before: Shards, after: Shards, user: nat, now: int)
    requires IndexWithinBitmap(z, before) && user < UINT64_LIMIT
    requires OnlyBitChanged(before, after, user, true)
    ensures IndexWithinBitmap(SortedSet.Add(z, Z(now, Format(user))), after)
  {
    hide HasBit, Format, ParseUint, Insert, Filter;
    var e := Z(now, Format(user));
    AddKeepsZSet(z, e);
    AddMembers(z, e);
    ParseUintFormat(user);
  }

  lemma AddMembers(z: seq<Z>, e: Z)
    ensures forall x :: x in SortedSet.Add(z, e) <==> x == e || (x in z && x.member != e.member)
  {
    InsertMembers(RedisAbove, e, Rem(z, e.member));
    FilterMembers(OtherThan(e.member), z);
  }

  lemma RemovedFromIndex(z: seq<Z>, before: Shards, after: Shards, user: nat)
    requires IndexWithinBitmap(z, before)
    requires OnlyBitChanged(before, after, user, false)
    ensures IndexWithinBitmap(Rem(z, Format(user)), after)
  {
    hide HasBit, Format, ParseUint, Filter, LexLess;
    RemKeepsZSet(z, Format(user));
    FilterMembers(OtherThan(Format(user)), z);
    forall x | x in Rem(z, Format(user)) ensures HasBit(after, EntryOf(x).id) && CanonicalMember(x.member) {
      assert x in z && x.member != Format(user) && CanonicalMember(x.member);
    }
  }

  lemma RemKeepsZSet(z: seq<Z>, member: string)
    requires IsZSet(z)
    ensures IsZSet(Rem(z, member))
  {
    hide LexLess;
    FilterSorted(RedisAbove, OtherThan(member), z);
    var r := Rem(z, member);
    RedisOrderIsTotal();
    forall i, j | 0 <= i < j < |r| ensures r[i].member != r[j].member {
      assert r[i] in r && r[j] in r && RedisAbove(r[i], r[j]);
      MembersUnique(z, r[i], r[j]);
    }
  }

  // ---- Rebuilding ----

  lemma {:induction false} AddAllConcat(z: seq<Z>, a: seq<nat>, b: seq<nat>)
    ensures AddAllMissing(z, a + b) == AddAllMissing(AddAllMissing(z, a), b)
  {
    hide AddIfMissing;
    if b == [] {
      assert a + b == a;
    } else {
      AddAllConcat(z, a, b[..|b| - 1]);
      assert (a + b)[..|a + b| - 1] == a + b[..|b| - 1];
    }
  }

  lemma AddOneKeeps(z: seq<Z>, shards: Shards, user: nat)
    requires IndexWithinBitmap(z, shards) && HasBit(shards, user) && user < UINT64_LIMIT
    ensures IndexWithinBitmap(AddIfMissing(z, user), shards) && Indexed(AddIfMissing(z, user), user)
    ensures forall x :: x in z ==> x in AddIfMissing(z, user)
    ensures forall x :: x in AddIfMissing(z, user) ==> x in z || x == Z(0, Format(user))
    ensures |AddIfMissing(z, user)| == |z| + if Indexed(z, user) then 0 else 1
  {
    hide HasBit, Format, Insert, Filter, ParseUint;
    if RevRank(z, Format(user)).None? {
      assert OnlyBitChanged(shards, shards, user, true);
      AddedToIndex(z, shards, shards, user, 0);
      AddMembers(z, Z(0, Format(user)));
      FilterAll(OtherThan(Format(user)), z);
      InsertLength(z, Z(0, Format(user)));
      assert Z(0, Format(user)) in AddIfMissing(z, user);
    }
  }

  lemma InsertLength(z: seq<Z>, e: Z)
    ensures |Insert(RedisAbove, e, z)| == |z| + 1
  {
  }

  /** The index has grown by likers of a range, all of them listed now. */
  ghost predicate GrownBy(z: seq<Z>, grown: seq<Z>, shards: Shards, lo: nat, hi: nat) {
    && IndexWithinBitmap(grown, shards) && |grown| >= |z|
    && (forall x :: x in z ==> x in grown)
    && (forall x :: x in grown ==> x in z || x.score == 0)
    && (forall u :: lo <= u < hi && LikerScan.IsLiker(shards, u) ==> Indexed(grown, u))
  }

  lemma {:induction false} AddAllKeeps(z: seq<Z>, shards: Shards, lo: nat, hi: nat)
    requires IndexWithinBitmap(z, shards) && hi <= UINT64_LIMIT
    ensures GrownBy(z, AddAllMissing(z, LikerScan.Listed(shards, lo, hi)), shards, lo, hi)
    decreases hi
  {
    hide IndexWithinBitmap, Indexed, AddIfMissing, HasBit;
    if hi > lo {
      AddAllKeeps(z, shards, lo, hi - 1);
      var init := LikerScan.Listed(shards, lo, hi - 1);
      var grown := AddAllMissing(z, init);
      if LikerScan.IsLiker(shards, hi - 1) {
        var users := LikerScan.Listed(shards, lo, hi);
        assert users[..|users| - 1] == init;
        AddOneKeeps(grown, shards, hi - 1);
        var more := AddIfMissing(grown, hi - 1);
        forall u | Indexed(grown, u) ensures Indexed(more, u) {
          StaysIndexed(grown, more, u);
        }
      } else {
        assert LikerScan.Listed(shards, lo, hi) == init;
      }
    }
  }

  lemma StaysIndexed(z: seq<Z>, grown: seq<Z>, user: nat)
    requires Indexed(z, user) && forall x :: x in z ==> x in grown
    ensures Indexed(grown, user)
  {
    var r := RevRank(z, Format(user)).value;
    assert z[r] in grown;
  }

  /**
   After a rebuild over the whole id range the index lists exactly the likers of the bitmap, a
   time once recorded is never overwritten, and rebuilding again changes nothing.
   */
  lemma RebuiltIndexIsTheBitmap(z: seq<Z>, shards: Shards, maxChunk: nat)
    requires IndexWithinBitmap(z, shards) && maxChunk * CHUNK_SIZE <= UINT64_LIMIT
    ensures var likers := LikerScan.Listed(shards, 1, maxChunk * CHUNK_SIZE);
            var grown := AddAllMissing(z, likers);
            && (forall u :: 0 < u < maxChunk * CHUNK_SIZE ==> (Indexed(grown, u) <==> HasBit(shards, u)))
            && (forall x :: x in z ==> x in grown)
            && (forall x :: x in grown && x !in z ==> x.score == 0)
            && AddAllMissing(grown, likers) == grown
  {
    hide HasBit, Format, ParseUint, LikerScan.Listed;
    var hi := maxChunk * CHUNK_SIZE;
    AddAllKeeps(z, shards, 1, hi);
    var likers := LikerScan.Listed(shards, 1, hi);
    var grown := AddAllMissing(z, likers);
    forall u | 0 < u < hi ensures Indexed(grown, u) <==> HasBit(shards, u) {
      if Indexed(grown, u) {
        var r := RevRank(grown, Format(u)).value;
        assert grown[r] in grown;
        ParseUintFormat(u);
      }
    }
    LikerScan.ListedMembers(shards, 1, hi);
    NothingMissing(grown, likers);
  }

  lemma {:induction false} NothingMissing(z: seq<Z>, users: seq<nat>)
    requires forall u :: u in users ==> Indexed(z, u)
    ensures AddAllMissing(z, users) == z
  {
    if users != [] {
      assert users[|users| - 1] in users;
      NothingMissing(z, users[..|users| - 1]);
    }
  }
}
