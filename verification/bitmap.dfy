/**
 The sharded like bitmap: one Redis string per 65536 users, bits numbered from the high end
 of each byte, and the count over all shards.
 */
module Bitmap {
  import opened Prelude
  import opened Ordered

  const CHUNK_SIZE: nat := 65536

  type Bytes = seq<bv8>

  /** The shards of one (metric, entity): chunk number to string. */
  type Shards = map<nat, Bytes>

  function ChunkOf(user: nat): nat {
    user / CHUNK_SIZE
  }

  function BitOf(user: nat): nat {
    user % CHUNK_SIZE
  }

  function UserAt(chunk: nat, offset: nat): nat {
    chunk * CHUNK_SIZE + offset
  }

  /** Splitting an id into shard and bit loses nothing. */
  lemma ChunkAndBitLocate(chunk: nat, offset: nat)
    requires offset < CHUNK_SIZE
    ensures ChunkOf(UserAt(chunk, offset)) == chunk && BitOf(UserAt(chunk, offset)) == offset
  {
  }

  /** Bit 0 of a byte is its highest: the order of SETBIT and GETBIT. */
  function Mask(bit: nat): bv8
    requires bit < 8
  {
    [0x80, 0x40, 0x20, 0x10, 0x08, 0x04, 0x02, 0x01][bit]
  }

  predicate ByteBit(b: bv8, bit: nat)
    requires bit < 8
  {
    b & Mask(bit) != 0
  }

  function ByteWith(b: bv8, bit: nat, on: bool): bv8
    requires bit < 8
  {
    if on then b | Mask(bit) else b & !Mask(bit)
  }

  predicate GetBit(s: Bytes, offset: nat) {
    offset / 8 < |s| && ByteBit(s[offset / 8], offset % 8)
  }

  function Padded(s: Bytes, length: nat): Bytes {
    if length <= |s| then s else s + seq(length - |s|, _ => 0)
  }

  lemma BitByShift(b: bv8, bit: nat)
    requires bit < 8
    ensures ByteBit(b, bit) <==> (b >> (7 - bit)) & 1 == 1
  {
    assert bit == 0 || bit == 1 || bit == 2 || bit == 3 || bit == 4 || bit == 5 || bit == 6 || bit == 7;
  }

  /** SETBIT: grows the string with zero bytes when needed, then changes one bit. */
  function SetBit(s: Bytes, offset: nat, on: bool): Bytes {
    var p := Padded(s, offset / 8 + 1);
    p[offset / 8 := ByteWith(p[offset / 8], offset % 8, on)]
  }

  lemma MasksAreSingleBits(i: nat, j: nat)
    requires i < 8 && j < 8
    ensures Mask(i) != 0
    ensures i != j ==> Mask(i) & Mask(j) == 0
  {
  }

  lemma MaskedByte(b: bv8, m: bv8, n: bv8)
    ensures (b | m) & m == m && (b & !m) & m == 0 && 0 & n == 0
    ensures m & n == 0 ==> (b | m) & n == b & n && (b & !m) & n == b & n
  {
  }

  lemma ByteAfterWith(b: bv8, i: nat, on: bool, j: nat)
    requires i < 8 && j < 8
    ensures ByteBit(ByteWith(b, i, on), j) == if i == j then on else ByteBit(b, j)
    ensures !ByteBit(0, j)
  {
    hide Mask;
    MasksAreSingleBits(i, j);
    MaskedByte(b, Mask(i), Mask(j));
  }

  /** SETBIT changes exactly the addressed bit. */
  lemma GetAfterSet(s: Bytes, offset: nat, on: bool, other: nat)
    ensures GetBit(SetBit(s, offset, on), other) == if other == offset then on else GetBit(s, other)
  {
    hide ByteBit, ByteWith;
    var p := Padded(s, offset / 8 + 1);
    ByteAfterWith(p[offset / 8], offset % 8, on, other % 8);
    assert other == other / 8 * 8 + other % 8 && offset == offset / 8 * 8 + offset % 8;
  }

  function HasBit(shards: Shards, user: nat): bool {
    ChunkOf(user) in shards && GetBit(shards[ChunkOf(user)], BitOf(user))
  }

  /** Where the bit of a user lies: 65536 users to a shard, 8 to a byte, the first of them at its high end. */
  lemma BitOfUser(shards: Shards, user: nat)
    ensures var chunk, offset := user / 65536, user % 65536;
            HasBit(shards, user) <==>
              chunk in shards && offset / 8 < |shards[chunk]| && (shards[chunk][offset / 8] >> (7 - offset % 8)) & 1 == 1
  {
    hide ByteBit;
    var chunk, offset := user / 65536, user % 65536;
    if chunk in shards && offset / 8 < |shards[chunk]| {
      BitByShift(shards[chunk][offset / 8], offset % 8);
    }
  }

  /** Every shard was written through SETBIT at offsets below the chunk size. */
  ghost predicate ValidShards(shards: Shards) {
    forall c :: c in shards ==> 8 * |shards[c]| <= CHUNK_SIZE
  }

  /** The users whose bit is set. */
  ghost function Users(shards: Shards): set<nat> {
    set c, o | c in shards && 0 <= o < CHUNK_SIZE && GetBit(shards[c], o) :: UserAt(c, o)
  }

  lemma UsersAreSetBits(shards: Shards, user: nat)
    ensures user in Users(shards) <==> HasBit(shards, user)
  {
    if user in Users(shards) {
      var c, o :| c in shards && 0 <= o < CHUNK_SIZE && GetBit(shards[c], o) && UserAt(c, o) == user;
      ChunkAndBitLocate(c, o);
    }
    assert UserAt(ChunkOf(user), BitOf(user)) == user;
  }

  // ---- BITCOUNT ----

  function One(b: bool): nat {
    if b then 1 else 0
  }

  /** Set bits among the first few of a byte. */
  function CountBelow(b: bv8, bits: nat): nat
    requires bits <= 8
  {
    if bits == 0 then 0 else CountBelow(b, bits - 1) + One(ByteBit(b, bits - 1))
  }

  /** BITCOUNT of one string. */
  function BitCount(s: Bytes): nat {
    if s == [] then 0 else BitCount(s[..|s| - 1]) + CountBelow(s[|s| - 1], 8)
  }

  /** The set offsets below a bound. */
  ghost function SetOffsets(s: Bytes, bound: nat): set<nat> {
    set o | 0 <= o < bound && GetBit(s, o)
  }

  lemma OneMoreOffset(s: Bytes, bound: nat)
    ensures |SetOffsets(s, bound + 1)| == |SetOffsets(s, bound)| + One(GetBit(s, bound))
  {
    hide GetBit;
    if GetBit(s, bound) {
      assert SetOffsets(s, bound + 1) == SetOffsets(s, bound) + {bound};
    } else {
      assert SetOffsets(s, bound + 1) == SetOffsets(s, bound);
    }
  }

  lemma OneMoreByte(s: Bytes, n: nat)
    requires n < |s|
    ensures |SetOffsets(s, 8 * n + 8)| == |SetOffsets(s, 8 * n)| + CountBelow(s[n], 8)
  {
    hide ByteBit, SetOffsets;
    var i := 0;
    while i < 8
      invariant i <= 8
      invariant |SetOffsets(s, 8 * n + i)| == |SetOffsets(s, 8 * n)| + CountBelow(s[n], i)
    {
      OneMoreOffset(s, 8 * n + i);
      assert (8 * n + i) / 8 == n && (8 * n + i) % 8 == i;
      i := i + 1;
    }
  }

  /** BITCOUNT is the number of set offsets. */
  lemma {:induction false} BitCountCounts(s: Bytes)
    ensures BitCount(s) == |SetOffsets(s, 8 * |s|)|
  {
    if s == [] {
      assert SetOffsets(s, 0) == {};
    } else {
      var n := |s| - 1;
      BitCountCounts(s[..n]);
      assert SetOffsets(s, 8 * n) == SetOffsets(s[..n], 8 * n) by {
        forall o | 0 <= o < 8 * n ensures GetBit(s, o) == GetBit(s[..n], o) {
          assert o / 8 < n;
        }
      }
      OneMoreByte(s, n);
    }
  }

  /** The users of one shard. */
  ghost function ShardUsers(shards: Shards, chunk: nat): set<nat>
    requires chunk in shards
  {
    set o | 0 <= o < CHUNK_SIZE && GetBit(shards[chunk], o) :: UserAt(chunk, o)
  }

  lemma NoOffsets(s: Bytes)
    ensures SetOffsets(s, 0) == {}
  {
  }

  lemma {:induction false} ImageSize(s: Bytes, chunk: nat, bound: nat)
    ensures |set o | 0 <= o < bound && GetBit(s, o) :: UserAt(chunk, o)| == |SetOffsets(s, bound)|
  {
    hide GetBit, SetOffsets;
    var image := set o | 0 <= o < bound && GetBit(s, o) :: UserAt(chunk, o);
    if bound == 0 {
      assert image == {};
      NoOffsets(s);
    } else {
      ImageSize(s, chunk, bound - 1);
      OneMoreOffset(s, bound - 1);
      var smaller := set o | 0 <= o < bound - 1 && GetBit(s, o) :: UserAt(chunk, o);
      if GetBit(s, bound - 1) {
        assert image == smaller + {UserAt(chunk, bound - 1)};
        assert UserAt(chunk, bound - 1) !in smaller;
      } else {
        assert image == smaller;
      }
    }
  }

  lemma ShardCount(shards: Shards, chunk: nat)
    requires chunk in shards && ValidShards(shards)
    ensures BitCount(shards[chunk]) == |ShardUsers(shards, chunk)|
  {
    var s := shards[chunk];
    BitCountCounts(s);
    assert SetOffsets(s, 8 * |s|) == SetOffsets(s, CHUNK_SIZE);
    ImageSize(s, chunk, CHUNK_SIZE);
  }

  lemma ShardUsersAre(shards: Shards, chunk: nat)
    requires chunk in shards
    ensures forall u :: u in ShardUsers(shards, chunk) <==> u in Users(shards) && ChunkOf(u) == chunk
  {
    hide GetBit;
    forall u ensures u in ShardUsers(shards, chunk) <==> u in Users(shards) && ChunkOf(u) == chunk {
      UsersAreSetBits(shards, u);
      if u in ShardUsers(shards, chunk) {
        var o :| 0 <= o < CHUNK_SIZE && GetBit(shards[chunk], o) && UserAt(chunk, o) == u;
        ChunkAndBitLocate(chunk, o);
      }
      assert UserAt(ChunkOf(u), BitOf(u)) == u;
    }
  }

  function SumCounts(shards: Shards, keys: seq<nat>): nat
    requires forall c :: c in keys ==> c in shards
  {
    if keys == [] then 0 else SumCounts(shards, keys[..|keys| - 1]) + BitCount(shards[keys[|keys| - 1]])
  }

  /** The users of some shards. */
  ghost function UsersIn(shards: Shards, keys: seq<nat>): set<nat> {
    set u | u in Users(shards) && ChunkOf(u) in keys
  }

  lemma OneMoreShard(shards: Shards, keys: seq<nat>, chunk: nat)
    requires chunk in shards && chunk !in keys
    ensures |UsersIn(shards, keys + [chunk])| == |UsersIn(shards, keys)| + |ShardUsers(shards, chunk)|
  {
    hide GetBit, Users, ShardUsers, ChunkOf;
    ShardUsersAre(shards, chunk);
    assert forall c :: c in keys + [chunk] <==> c in keys || c == chunk;
    assert UsersIn(shards, keys + [chunk]) == UsersIn(shards, keys) + ShardUsers(shards, chunk);
    assert UsersIn(shards, keys) !! ShardUsers(shards, chunk);
  }

  /** Counting the shards one by one, in any order, counts every user once. */
  lemma {:induction false} SumCountsUsers(shards: Shards, keys: seq<nat>)
    requires ValidShards(shards) && Distinct(keys)
    requires forall c :: c in keys ==> c in shards
    ensures SumCounts(shards, keys) == |UsersIn(shards, keys)|
  {
    hide GetBit, BitCount, HasBit, Users, ShardUsers, ValidShards, UsersIn;
    if keys == [] {
      NoShards(shards);
    } else {
      var init, last := keys[..|keys| - 1], keys[|keys| - 1];
      SumCountsUsers(shards, init);
      ShardCount(shards, last);
      OneMoreShard(shards, init, last);
      assert keys == init + [last];
    }
  }

  lemma NoShards(shards: Shards)
    ensures UsersIn(shards, []) == {}
  {
  }

  /**
   The rebuild count: SCAN delivers the shard keys page by page, and the counts are added up.
   When every key is delivered once the total is the number of users.
   */
  method BitCountShards(shards: Shards, pages: seq<seq<nat>>) returns (total: nat)
    requires ValidShards(shards)
    requires forall p, c :: p in pages && c in p ==> c in shards
    requires Distinct(Flatten(pages)) && forall c :: c in shards <==> c in Flatten(pages)
    ensures total == |Users(shards)|
  {
    hide BitCount, Users, UsersIn, ValidShards, SumCounts, Distinct;
    total := 0;
    NothingCounted(shards);
    FlattenMembers(pages);
    assert pages[..0] == [];
    for i := 0 to |pages|
      invariant forall c :: c in Flatten(pages[..i]) ==> c in shards
      invariant total == SumCounts(shards, Flatten(pages[..i]))
    {
      assert pages[i] in pages;
      assert pages[..i + 1][..i] == pages[..i];
      ghost var done := Flatten(pages[..i]);
      assert done + pages[i][..0] == done;
      for j := 0 to |pages[i]|
        invariant forall c :: c in done + pages[i][..j] ==> c in shards
        invariant total == SumCounts(shards, done + pages[i][..j])
      {
        assert done + pages[i][..j + 1] == done + pages[i][..j] + [pages[i][j]];
        OneMoreCount(shards, done + pages[i][..j], pages[i][j]);
        total := total + BitCount(shards[pages[i][j]]);
      }
      assert pages[i][..|pages[i]|] == pages[i];
      assert Flatten(pages[..i + 1]) == done + pages[i];
    }
    assert pages[..|pages|] == pages;
    SumCountsUsers(shards, Flatten(pages));
    AllUsersIn(shards, Flatten(pages));
  }

  lemma NothingCounted(shards: Shards)
    ensures SumCounts(shards, []) == 0
  {
  }

  lemma OneMoreCount(shards: Shards, keys: seq<nat>, chunk: nat)
    requires chunk in shards && forall c :: c in keys ==> c in shards
    ensures SumCounts(shards, keys + [chunk]) == SumCounts(shards, keys) + BitCount(shards[chunk])
  {
    hide BitCount;
    assert (keys + [chunk])[..|keys|] == keys;
  }

  lemma AllUsersIn(shards: Shards, keys: seq<nat>)
    requires forall c :: c in shards ==> c in keys
    ensures UsersIn(shards, keys) == Users(shards)
  {
    hide Users, ChunkOf;
    forall u | u in Users(shards) ensures ChunkOf(u) in keys {
      UsersAreSetBits(shards, u);
    }
  }

  function Flatten(pages: seq<seq<nat>>): seq<nat> {
    if pages == [] then [] else Flatten(pages[..|pages| - 1]) + pages[|pages| - 1]
  }

  lemma {:induction false} FlattenMembers(pages: seq<seq<nat>>)
    ensures forall c :: c in Flatten(pages) <==> exists p :: p in pages && c in p
  {
    if pages != [] {
      FlattenMembers(pages[..|pages| - 1]);
      assert pages == pages[..|pages| - 1] + [pages[|pages| - 1]];
    }
  }
}
