/**
 A Redis sorted set, kept in the order the reverse range commands list it:
 score descending, and member bytes descending among equal scores.
 */
module SortedSet {
  import opened Prelude
  import opened Decimal
  import opened Ordered

  datatype Z = Z(score: int, member: string)

  predicate RedisAbove(a: Z, b: Z) {
    a.score > b.score || (a.score == b.score && LexLess(b.member, a.member))
  }

  ghost predicate IsZSet(z: seq<Z>) {
    && Sorted(RedisAbove, z)
    && forall i, j :: 0 <= i < j < |z| ==> z[i].member != z[j].member
  }

  function AtMost(max: Option<int>): Z -> bool {
    (x: Z) => max.None? || x.score <= max.value
  }

  function OtherThan(member: string): Z -> bool {
    (x: Z) => x.member != member
  }

  /** ZREVRANGEBYSCORE key max -inf LIMIT 0 count, with an inclusive bound. */
  function RevRangeByScore(z: seq<Z>, max: Option<int>, count: nat): seq<Z> {
    Take(count, Filter(AtMost(max), z))
  }

  /** ZREVRANGE key start stop, where stop is inclusive. */
  function RevRange(z: seq<Z>, start: nat, stop: nat): seq<Z> {
    if start >= |z| || stop < start then [] else Take(stop + 1 - start, z[start..])
  }

  lemma RevRangeIsTake(z: seq<Z>, start: nat, n: nat)
    requires start <= |z|
    ensures RevRange(z, start, start + n) == Take(n + 1, z[start..])
  {
  }

  /** ZREVRANK. */
  function RevRank(z: seq<Z>, member: string): (r: Option<nat>)
    ensures r.None? <==> forall x :: x in z ==> x.member != member
    ensures r.Some? ==> r.value < |z| && z[r.value].member == member
  {
    if z == [] then None
    else if z[0].member == member then Some(0)
    else match RevRank(z[1..], member)
         case None => None
         case Some(k) => Some(k + 1)
  }

  /** ZREM. */
  function Rem(z: seq<Z>, member: string): seq<Z> {
    Filter(OtherThan(member), z)
  }

  /** ZADD: a member already present moves to its new score. */
  function Add(z: seq<Z>, e: Z): seq<Z> {
    Insert(RedisAbove, e, Rem(z, e.member))
  }

  /** ZREMRANGEBYRANK key 0 -(n+1): only the n greatest stay. */
  function TrimTo(z: seq<Z>, n: nat): seq<Z> {
    Take(n, z)
  }

  /** The decimal members of a reply; any other member is skipped. */
  function ToEntries(z: seq<Z>): seq<Entry> {
    if z == [] then []
    else
      var init := ToEntries(z[..|z| - 1]);
      match ParseUint(z[|z| - 1].member)
      case None => init
      case Some(id) => init + [Entry(id, z[|z| - 1].score)]
  }

  method DecodeEntries(items: seq<Z>) returns (out: seq<Entry>)
    ensures out == ToEntries(items)
  {
    out := [];
    for i := 0 to |items|
      invariant out == ToEntries(items[..i])
    {
      assert items[..i + 1][..i] == items[..i];
      match ParseUint(items[i].member)
      case None =>
      case Some(id) => out := out + [Entry(id, items[i].score)];
    }
    assert items[..|items|] == items;
  }

  predicate CanonicalMember(m: string) {
    ParseUint(m).Some? && m == Format(ParseUint(m).value)
  }

  function EntryOf(x: Z): Entry {
    Entry(if ParseUint(x.member).Some? then ParseUint(x.member).value else 0, x.score)
  }

  lemma {:induction false} CanonicalEntries(z: seq<Z>)
    requires forall x :: x in z ==> ParseUint(x.member).Some?
    ensures |ToEntries(z)| == |z|
    ensures forall i :: 0 <= i < |z| ==> ToEntries(z)[i] == EntryOf(z[i])
  {
    if z != [] {
      CanonicalEntries(z[..|z| - 1]);
    }
  }

  lemma ToEntriesSnoc(z: seq<Z>, x: Z)
    requires ParseUint(x.member).Some?
    ensures ToEntries(z + [x]) == ToEntries(z) + [EntryOf(x)]
  {
    hide ParseUint;
    assert (z + [x])[..|z|] == z;
  }

  lemma DecodeOne(z: seq<Z>, x: Z)
    ensures ToEntries(z + [x]) == ToEntries(z) + if ParseUint(x.member).Some? then [Entry(ParseUint(x.member).value, x.score)] else []
    ensures z + [] == z
  {
    hide ParseUint;
    assert (z + [x])[..|z|] == z;
  }

  lemma {:induction false} DecodeConcat(a: seq<Z>, b: seq<Z>)
    ensures ToEntries(a + b) == ToEntries(a) + ToEntries(b)
  {
    hide ParseUint;
    if b == [] {
      assert a + b == a;
    } else {
      var n := |b| - 1;
      assert a + b == (a + b[..n]) + [b[n]] && b == b[..n] + [b[n]];
      DecodeOne(a + b[..n], b[n]);
      DecodeOne(b[..n], b[n]);
      DecodeConcat(a, b[..n]);
    }
  }

  lemma ToEntriesEmpty()
    ensures ToEntries([]) == []
  {
  }

  lemma ToEntriesTake(z: seq<Z>, n: nat)
    requires forall x :: x in z ==> ParseUint(x.member).Some?
    ensures ToEntries(Take(n, z)) == Take(n, ToEntries(z))
  {
    hide ParseUint, ToEntries;
    CanonicalEntries(z);
    CanonicalEntries(Take(n, z));
  }

  /** Filtering members and then decoding is decoding and then filtering. */
  lemma {:induction false} ToEntriesFilter(p: Z -> bool, q: Entry -> bool, z: seq<Z>)
    requires forall x :: x in z ==> ParseUint(x.member).Some? && (p(x) <==> q(EntryOf(x)))
    ensures ToEntries(Filter(p, z)) == Filter(q, ToEntries(z))
  {
    hide ParseUint, Filter, ToEntries;
    ToEntriesEmpty();
    if z == [] {
      FilterNone(p, z);
      FilterNone(q, []);
    } else {
      var n := |z| - 1;
      ToEntriesFilter(p, q, z[..n]);
      assert z == z[..n] + [z[n]];
      FilterSnoc(p, z[..n], z[n]);
      FilterSnoc(q, ToEntries(z[..n]), EntryOf(z[n]));
      ToEntriesSnoc(z[..n], z[n]);
      ToEntriesSnoc(Filter(p, z[..n]), z[n]);
      var kept, entries := Filter(p, z[..n]), Filter(q, ToEntries(z[..n]));
      assert kept + [] == kept && entries + [] == entries;
    }
  }

  lemma RedisOrderIsTotal()
    ensures TotalOrder(RedisAbove)
  {
    forall x: Z ensures !RedisAbove(x, x) {
      LexIrreflexive(x.member);
    }
    forall x: Z, y: Z, z: Z | RedisAbove(x, y) && RedisAbove(y, z) ensures RedisAbove(x, z) {
      if x.score == y.score == z.score {
        LexTransitive(z.member, y.member, x.member);
      }
    }
    forall x: Z, y: Z ensures x == y || RedisAbove(x, y) || RedisAbove(y, x) {
      LexTotal(x.member, y.member);
    }
  }

  lemma AddKeepsZSet(z: seq<Z>, e: Z)
    requires IsZSet(z)
    ensures IsZSet(Add(z, e))
  {
    RedisOrderIsTotal();
    FilterSorted(RedisAbove, OtherThan(e.member), z);
    InsertSorted(RedisAbove, e, Rem(z, e.member));
    var r := Add(z, e);
    InsertMembers(RedisAbove, e, Rem(z, e.member));
    forall i, j | 0 <= i < j < |r| ensures r[i].member != r[j].member {
      assert r[i] in r && r[j] in r && RedisAbove(r[i], r[j]);
      if r[i] != e && r[j] != e {
        MembersUnique(z, r[i], r[j]);
      }
    }
  }

  lemma MembersUnique(z: seq<Z>, x: Z, y: Z)
    requires IsZSet(z) && x in z && y in z && x != y
    ensures x.member != y.member
  {
    var i :| 0 <= i < |z| && z[i] == x;
    var j :| 0 <= j < |z| && z[j] == y;
    assert if i < j then z[i].member != z[j].member else z[j].member != z[i].member;
  }

  /** A new entry above the bound leaves every range below the bound as it was. */
  lemma {:induction false} InsertAboveBound(z: seq<Z>, e: Z, max: int)
    requires e.score > max
    ensures Filter(AtMost(Some(max)), Insert(RedisAbove, e, z)) == Filter(AtMost(Some(max)), z)
  {
    if z == [] || RedisAbove(e, z[0]) {
      assert ([e] + z)[1..] == z;
    } else {
      InsertAboveBound(z[1..], e, max);
      assert ([z[0]] + Insert(RedisAbove, e, z[1..]))[1..] == Insert(RedisAbove, e, z[1..]);
    }
  }
}
