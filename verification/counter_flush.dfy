/**
 Flushing: a finished batch is laid out and executed by the apply script, and batches flushed in
 order count every usable message once.
 */
module CounterFlush {
  import opened Prelude
  import opened CounterKeys
  import S = ApplyScript
  import opened Batching

  /** The events of a batch as the script should see them: each with its own counter and marker. */
  function Scripted(events: seq<BatchEvent>): (es: seq<S.Event>)
    ensures forall e :: e in es ==> e.key.Some? && e.marker.Some?
  {
    seq(|events|, i requires 0 <= i < |events| => Intended(events[i]))
  }

  ghost predicate AllGood(events: seq<BatchEvent>) {
    forall e :: e in events ==> GoodType(e)
  }

  method CollectDirtyMembers(entities: set<string>) returns (members: seq<string>)
    ensures forall m :: m in members <==> m in entities
  {
    members := [];
    var todo := entities;
    while todo != {}
      invariant forall m :: m in entities <==> m in members || m in todo
    {
      var m :| m in todo;
      members, todo := members + [m], todo - {m};
    }
  }

  /** The batch is counted from the watermark on, each event for its own entity, and nothing else changes. */
  ghost predicate BatchCounted(before: S.Db, after: S.Db, reply: S.Reply, appliedKey: string, events: seq<BatchEvent>, start: nat) {
    var current := S.Current(before, appliedKey);
    && (forall e :: e in S.Fresh(Scripted(events), start, current) ==> e.key.Some? && e.marker.Some?)
    && after.counts == S.ApplyAll(before.counts, before.markers, S.Fresh(Scripted(events), start, current))
    && after.markers == before.markers
    && S.Current(after, appliedKey) == Max(current, start + |events| - 1)
    && (forall k :: k != appliedKey ==> S.Current(after, k) == S.Current(before, k))
    && reply == S.Watermark(S.Current(after, appliedKey))
  }

  /** Executing a batch never meets an error reply, if no entity type begins with a colon. */
  method ApplyBatch(redis: S.CounterRedis, appliedKey: string, batch: CounterBatch) returns (reply: S.Reply)
    requires batch.Valid() && batch.messages != []
    modifies redis
    ensures AllGood(batch.events) && S.Current(old(redis.db), appliedKey) >= -1 ==>
              BatchCounted(old(redis.db), redis.db, reply, appliedKey, batch.events, batch.messages[0].offset)
    ensures AllGood(batch.events) && S.Current(old(redis.db), appliedKey) >= -1 ==>
              FieldsMoved(old(redis.db), redis.db,
                          Behind(batch.events, batch.messages[0].offset, S.Current(old(redis.db), appliedKey)))
  {
    hide FieldsMoved, Behind, S.Apply, S.Events, S.ApplyAll, S.Current, S.Fresh, AllGood, IsLayout, BatchCounted;
    var events, start := batch.events, batch.messages[0].offset;
    var members := CollectDirtyMembers(batch.entities);
    var keys, argv := LayOut(appliedKey, events, members);
    LayoutIsShaped(keys, argv, events, members);
    reply := redis.ApplyPartitionBatch(keys, argv);
    BatchEventsAre(batch);
    if AllGood(events) && S.Current(old(redis.db), appliedKey) >= -1 {
      LaidOut(keys, argv, events, members);
      CountedByScript(old(redis.db), appliedKey, events, start);
      CountedMovesFields(old(redis.db), redis.db, reply, appliedKey, events, start);
    }
  }

  // ---- Which field an event goes to ----

  /** The events of a batch that lie behind the watermark. */
  function Behind(events: seq<BatchEvent>, start: nat, current: int): seq<BatchEvent> {
    events[Min(|events|, Max(0, current + 1 - start))..]
  }

  /** One number of one entity after some events: those with its index add up, and never below zero. */
  function FieldFold(c: int, events: seq<BatchEvent>, entityType: string, entityID: string, index: int): int {
    if events == [] then c
    else
      var before, e := FieldFold(c, events[..|events| - 1], entityType, entityID, index), events[|events| - 1];
      if e.entityType + ":" + e.entityID == entityType + ":" + entityID && e.index == index then Max(0, before + e.delta) else before
  }

  /** A field of an entity's counter moves by the events with its index, and stays under a rebuild marker. */
  ghost predicate FieldMoved(before: S.Db, after: S.Db, events: seq<BatchEvent>, entityType: string, entityID: string,
                             index: int, field: string) {
    S.Count(after.counts, SdsKey(entityType, entityID), field)
    == var c := S.Count(before.counts, SdsKey(entityType, entityID), field);
       if RebuildMarkerKey(entityType, entityID) in before.markers then c else FieldFold(c, events, entityType, entityID, index)
  }

  /** Every counter has its likes, favourites, followers, followings and posts moved, each by its own events. */
  ghost predicate FieldsMoved(before: S.Db, after: S.Db, events: seq<BatchEvent>) {
    forall entityType, entityID ::
      && FieldMoved(before, after, events, entityType, entityID, 0, "like")
      && FieldMoved(before, after, events, entityType, entityID, 1, "fav")
      && FieldMoved(before, after, events, entityType, entityID, 2, "follower")
      && FieldMoved(before, after, events, entityType, entityID, 3, "following")
      && FieldMoved(before, after, events, entityType, entityID, 4, "posts")
  }

  /** The indexes of the five metrics. */
  predicate IndexNames(index: int, field: string) {
    || (index == 0 && field == "like") || (index == 1 && field == "fav") || (index == 2 && field == "follower")
    || (index == 3 && field == "following") || (index == 4 && field == "posts")
  }

  lemma MetricIsNamed(e: BatchEvent, index: int, field: string)
    requires 0 <= e.index < SCHEMA_LEN && IndexNames(index, field)
    ensures MetricOf(e) == field <==> e.index == index
  {
  }

  lemma CntKeysDiffer(a: string, b: string)
    ensures "cnt:" + a == "cnt:" + b <==> a == b
  {
    if "cnt:" + a == "cnt:" + b { assert a == ("cnt:" + a)[4..] && b == ("cnt:" + b)[4..]; }
  }

  lemma BumpThenCount(counts: S.Counts, key: string, field: string, delta: int, k: string, f: string)
    ensures S.Count(S.Bump(counts, key, field, delta), k, f)
            == if k == key && f == field then Max(0, S.Count(counts, key, field) + delta) else S.Count(counts, k, f)
  {
  }

  lemma EventMovesField(counts: S.Counts, markers: set<string>, e: BatchEvent, entityType: string, entityID: string,
                        index: int, field: string)
    requires 0 <= e.index < SCHEMA_LEN && IndexNames(index, field)
    ensures S.Count(S.ApplyOne(counts, markers, Intended(e)), SdsKey(entityType, entityID), field)
            == var c := S.Count(counts, SdsKey(entityType, entityID), field);
               if RebuildMarkerKey(entityType, entityID) in markers then c
               else if e.entityType + ":" + e.entityID == entityType + ":" + entityID && e.index == index then Max(0, c + e.delta)
               else c
  {
    hide S.Bump, S.Count, MetricOf, SdsKey, RebuildMarkerKey;
    KeyOfMember(entityType, entityID);
    KeyOfMember(e.entityType, e.entityID);
    CntKeysDiffer(MemberOf(e), DirtyMember(entityType, entityID));
    MetricIsNamed(e, index, field);
    BumpThenCount(counts, SdsKey(e.entityType, e.entityID), MetricOf(e), e.delta, SdsKey(entityType, entityID), field);
  }

  /** Counting in events moves each field by the events with its index. */
  lemma {:induction false} ScriptMovesField(counts: S.Counts, markers: set<string>, events: seq<BatchEvent>,
                                            entityType: string, entityID: string, index: int, field: string)
    requires (forall e :: e in events ==> 0 <= e.index < SCHEMA_LEN) && IndexNames(index, field)
    ensures S.Count(S.ApplyAll(counts, markers, Scripted(events)), SdsKey(entityType, entityID), field)
            == var c := S.Count(counts, SdsKey(entityType, entityID), field);
               if RebuildMarkerKey(entityType, entityID) in markers then c else FieldFold(c, events, entityType, entityID, index)
  {
    hide S.ApplyOne, S.Count, Intended, SdsKey, RebuildMarkerKey, IndexNames;
    if events != [] {
      var init := events[..|events| - 1];
      assert Scripted(events)[..|events| - 1] == Scripted(init);
      assert events[|events| - 1] in events;
      ScriptMovesField(counts, markers, init, entityType, entityID, index, field);
      EventMovesField(S.ApplyAll(counts, markers, Scripted(init)), markers, events[|events| - 1], entityType, entityID, index, field);
    }
  }

  lemma CountedMovesFields(before: S.Db, after: S.Db, reply: S.Reply, appliedKey: string, events: seq<BatchEvent>, start: nat)
    requires BatchCounted(before, after, reply, appliedKey, events, start)
    requires forall e :: e in events ==> 0 <= e.index < SCHEMA_LEN
    ensures FieldsMoved(before, after, Behind(events, start, S.Current(before, appliedKey)))
  {
    hide S.ApplyAll, S.Count, S.Current, Intended, SdsKey, RebuildMarkerKey, FieldFold;
    var unseen := Behind(events, start, S.Current(before, appliedKey));
    assert S.Fresh(Scripted(events), start, S.Current(before, appliedKey)) == Scripted(unseen);
    forall entityType, entityID ensures
      && FieldMoved(before, after, unseen, entityType, entityID, 0, "like")
      && FieldMoved(before, after, unseen, entityType, entityID, 1, "fav")
      && FieldMoved(before, after, unseen, entityType, entityID, 2, "follower")
      && FieldMoved(before, after, unseen, entityType, entityID, 3, "following")
      && FieldMoved(before, after, unseen, entityType, entityID, 4, "posts")
    {
      ScriptMovesField(before.counts, before.markers, unseen, entityType, entityID, 0, "like");
      ScriptMovesField(before.counts, before.markers, unseen, entityType, entityID, 1, "fav");
      ScriptMovesField(before.counts, before.markers, unseen, entityType, entityID, 2, "follower");
      ScriptMovesField(before.counts, before.markers, unseen, entityType, entityID, 3, "following");
      ScriptMovesField(before.counts, before.markers, unseen, entityType, entityID, 4, "posts");
    }
  }

  lemma LayoutIsShaped(keys: seq<string>, argv: seq<S.Arg>, events: seq<BatchEvent>, members: seq<string>)
    requires IsLayout(keys, argv, events, members)
    ensures |keys| > 0 && S.Shaped(argv)
  {
    hide S.Shaped, ArgsOf;
  }

  lemma LaidOut(keys: seq<string>, argv: seq<S.Arg>, events: seq<BatchEvent>, members: seq<string>)
    requires IsLayout(keys, argv, events, members) && S.Shaped(argv) && AllGood(events)
    requires forall m :: m in members <==> exists e :: e in events && MemberOf(e) == m
    ensures S.Events(keys, argv) == Scripted(events)
  {
    hide S.Events, IsLayout, MemberOf, S.Shaped;
    LayoutRightIff(keys, argv, events, members);
  }

  lemma BatchEventsAre(batch: CounterBatch)
    requires batch.Valid() && batch.messages != []
    ensures |batch.events| > 0
    ensures forall i :: 0 <= i < |batch.events| ==> batch.events[i].offset == batch.messages[0].offset + i
    ensures forall m :: m in batch.entities <==> exists e :: e in batch.events && MemberOf(e) == m
    ensures forall e :: e in batch.events ==> 0 <= e.index < SCHEMA_LEN
  {
    hide MemberOf;
  }

  lemma CountedByScript(db: S.Db, appliedKey: string, events: seq<BatchEvent>, start: nat)
    requires events != [] && S.Current(db, appliedKey) >= -1
    requires forall i :: 0 <= i < |events| ==> events[i].offset == start + i
    ensures var (after, reply) := S.Apply(db, appliedKey, Scripted(events));
            BatchCounted(db, after, reply, appliedKey, events, start)
  {
    hide S.Apply, S.ApplyAll, S.Current, S.Fresh;
    S.ApplyConsecutive(db, appliedKey, Scripted(events), start);
  }

  // ---- Executing the turns of a partition ----

  predicate AllUsable(ms: seq<Message>) {
    forall m :: m in ms ==> Usable(m) && m.body.entityType[0] != ':'
  }

  function EventsOf(ms: seq<Message>): seq<BatchEvent>
    requires AllUsable(ms)
  {
    seq(|ms|, i requires 0 <= i < |ms| => EventOf(ms[i]))
  }

  ghost predicate GoodTurns(turns: seq<Turn>, p: int) {
    forall t :: t in turns ==> GoodTurn(View(t, p), p)
  }

  ghost predicate GoodTurn(t: Turn, p: int) {
    Gapless(t.batch, p) && AllUsable(t.batch)
  }

  /** The database after one turn: first the skip, then the batch. */
  ghost function ExecutedTurn(db: S.Db, appliedKey: string, t: Turn, p: int): S.Db
    requires GoodTurn(t, p)
  {
    var skipped := if t.skip.Some? then S.Advance(db, appliedKey, t.skip.value).0 else db;
    if t.batch == [] then skipped else S.Apply(skipped, appliedKey, Scripted(EventsOf(t.batch))).0
  }

  ghost function Executed(db: S.Db, appliedKey: string, turns: seq<Turn>, p: int): S.Db
    requires GoodTurns(turns, p)
  {
    if turns == [] then db
    else
      var n := |turns| - 1;
      assert GoodTurn(View(turns[n], p), p);
      ExecutedTurn(Executed(db, appliedKey, turns[..n], p), appliedKey, View(turns[n], p), p)
  }

  function SkippedTo(watermark: int, t: Turn): int {
    if t.skip.Some? then Max(watermark, t.skip.value) else watermark
  }

  /** The watermark after one turn. */
  function ReachedBy(watermark: int, t: Turn): int {
    if t.batch == [] then SkippedTo(watermark, t) else Max(SkippedTo(watermark, t), t.batch[|t.batch| - 1].offset)
  }

  function Reached(current: int, turns: seq<Turn>, p: int): int {
    if turns == [] then current
    else ReachedBy(Reached(current, turns[..|turns| - 1], p), View(turns[|turns| - 1], p))
  }

  /** The part of a batch that lies behind a watermark. */
  function Fresh(ms: seq<Message>, watermark: int): seq<Message> {
    if ms == [] then [] else ms[Min(|ms|, Max(0, watermark + 1 - ms[0].offset))..]
  }

  /** The messages that executing the turns counts, in order. */
  function Counted(current: int, turns: seq<Turn>, p: int): seq<Message> {
    if turns == [] then []
    else
      var n := |turns| - 1;
      Counted(current, turns[..n], p)
      + Fresh(View(turns[n], p).batch, SkippedTo(Reached(current, turns[..n], p), View(turns[n], p)))
  }

  lemma FreshMembers(ms: seq<Message>, watermark: int, p: int)
    requires Gapless(ms, p)
    ensures forall m :: m in Fresh(ms, watermark) <==> m in ms && m.offset > watermark
    ensures forall i, j :: 0 <= i < j < |Fresh(ms, watermark)| ==> Fresh(ms, watermark)[i].offset < Fresh(ms, watermark)[j].offset
    ensures ms != [] ==> forall m :: m in ms ==> m.offset <= ms[|ms| - 1].offset
  {
    hide Usable;
    if ms != [] {
      var k := Min(|ms|, Max(0, watermark + 1 - ms[0].offset));
      forall m | m in ms && m.offset > watermark ensures m in ms[k..] {
        var i :| 0 <= i < |ms| && ms[i] == m;
        assert ms[k..][i - k] == m;
      }
    }
  }

  lemma {:induction false} ApplyAllConcat(counts: S.Counts, markers: set<string>, a: seq<S.Event>, b: seq<S.Event>)
    requires forall e :: e in a + b ==> e.key.Some? && e.marker.Some?
    ensures (forall e :: e in a ==> e.key.Some? && e.marker.Some?) && (forall e :: e in b ==> e.key.Some? && e.marker.Some?)
    ensures S.ApplyAll(counts, markers, a + b) == S.ApplyAll(S.ApplyAll(counts, markers, a), markers, b)
  {
    hide S.ApplyOne;
    assert forall e :: e in a ==> e in a + b;
    assert forall e :: e in b ==> e in a + b;
    if b == [] {
      assert a + b == a;
    } else {
      assert (a + b)[..|a + b| - 1] == a + b[..|b| - 1];
      ApplyAllConcat(counts, markers, a, b[..|b| - 1]);
    }
  }

  lemma {:induction false} GoodPrefix(turns: seq<Turn>, p: int)
    requires GoodTurns(turns, p) && turns != []
    ensures GoodTurns(turns[..|turns| - 1], p) && GoodTurn(View(turns[|turns| - 1], p), p)
  {
    hide GoodTurn;
  }

  /** Whatever the offsets, executing the turns counts exactly the messages found fresh, each for its own entity. */
  lemma {:induction false} ExecutionCounts(db: S.Db, appliedKey: string, turns: seq<Turn>, p: int)
    requires GoodTurns(turns, p) && S.Current(db, appliedKey) >= -1
    ensures AllUsable(Counted(S.Current(db, appliedKey), turns, p))
    ensures var counted, after := Counted(S.Current(db, appliedKey), turns, p), Executed(db, appliedKey, turns, p);
            && after.markers == db.markers
            && after.counts == S.ApplyAll(db.counts, db.markers, Scripted(EventsOf(counted)))
            && S.Current(after, appliedKey) == Reached(S.Current(db, appliedKey), turns, p) >= -1
  {
    hide S.Current, S.ApplyAll, GoodTurns, GoodTurn, ExecutedTurn, ReachedBy, Fresh, SkippedTo, Scripted, EventsOf, AllUsable;
    var current := S.Current(db, appliedKey);
    if turns == [] {
      NothingScripted(db);
    } else {
      var n := |turns| - 1;
      GoodPrefix(turns, p);
      ExecutionCounts(db, appliedKey, turns[..n], p);
      var before, t := Executed(db, appliedKey, turns[..n], p), View(turns[n], p);
      TurnCounts(before, appliedKey, t, p);
      JoinScripted(db, Counted(current, turns[..n], p), Fresh(t.batch, SkippedTo(S.Current(before, appliedKey), t)));
    }
  }

  lemma NothingScripted(db: S.Db)
    ensures AllUsable([]) && S.ApplyAll(db.counts, db.markers, Scripted(EventsOf([]))) == db.counts
  {
  }

  lemma TurnCounts(db: S.Db, appliedKey: string, t: Turn, p: int)
    requires GoodTurn(t, p) && S.Current(db, appliedKey) >= -1
    ensures AllUsable(Fresh(t.batch, SkippedTo(S.Current(db, appliedKey), t)))
    ensures var unseen, after := Fresh(t.batch, SkippedTo(S.Current(db, appliedKey), t)), ExecutedTurn(db, appliedKey, t, p);
            && after.markers == db.markers
            && after.counts == S.ApplyAll(db.counts, db.markers, Scripted(EventsOf(unseen)))
            && S.Current(after, appliedKey) == ReachedBy(S.Current(db, appliedKey), t) >= -1
  {
    hide S.Apply, S.ApplyAll, S.Fresh, Usable, Scripted, EventsOf, Fresh;
    FreshIsScripted(t.batch, SkippedTo(S.Current(db, appliedKey), t));
    ConsecutiveScript(t.batch, p);
    var skipped := if t.skip.Some? then S.Advance(db, appliedKey, t.skip.value).0 else db;
    var current := SkippedTo(S.Current(db, appliedKey), t);
    assert S.Current(skipped, appliedKey) == current;
    if t.batch == [] {
      NothingScripted(db);
    } else {
      var es, start := Scripted(EventsOf(t.batch)), t.batch[0].offset;
      S.ApplyConsecutive(skipped, appliedKey, es, start);
    }
  }

  lemma FreshIsScripted(ms: seq<Message>, current: int)
    requires AllUsable(ms)
    ensures AllUsable(Fresh(ms, current)) && (ms == [] ==> Fresh(ms, current) == [])
    ensures ms != [] ==> S.Fresh(Scripted(EventsOf(ms)), ms[0].offset, current) == Scripted(EventsOf(Fresh(ms, current)))
    ensures |Scripted(EventsOf(ms))| == |ms|
  {
    hide Usable, EventOf, Intended;
    if ms != [] {
      var k := Min(|ms|, Max(0, current + 1 - ms[0].offset));
      assert Scripted(EventsOf(ms))[k..] == Scripted(EventsOf(ms[k..]));
    }
  }

  lemma ConsecutiveScript(ms: seq<Message>, p: int)
    requires AllUsable(ms) && Gapless(ms, p)
    ensures ms != [] ==> S.Consecutive(Scripted(EventsOf(ms)), ms[0].offset) && ms[|ms| - 1].offset == ms[0].offset + |ms| - 1
  {
    hide Usable;
  }

  lemma JoinScripted(db: S.Db, a: seq<Message>, b: seq<Message>)
    requires AllUsable(a) && AllUsable(b)
    ensures AllUsable(a + b)
    ensures S.ApplyAll(db.counts, db.markers, Scripted(EventsOf(a + b)))
            == S.ApplyAll(S.ApplyAll(db.counts, db.markers, Scripted(EventsOf(a))), db.markers, Scripted(EventsOf(b)))
  {
    hide S.ApplyAll, Usable, EventOf, Intended;
    assert Scripted(EventsOf(a + b)) == Scripted(EventsOf(a)) + Scripted(EventsOf(b));
    ApplyAllConcat(db.counts, db.markers, Scripted(EventsOf(a)), Scripted(EventsOf(b)));
  }

  // ---- What is counted, and what a skip loses ----

  /** No message is counted twice, and counted and flushed messages lie at or below the watermark reached. */
  lemma {:induction false} CountedRises(current: int, turns: seq<Turn>, p: int)
    requires GoodTurns(turns, p)
    ensures current <= Reached(current, turns, p)
    ensures forall m :: m in Flushed(turns, p) ==> m.offset <= Reached(current, turns, p)
    ensures var counted := Counted(current, turns, p);
            && (forall m :: m in counted ==> current < m.offset <= Reached(current, turns, p) && m in Flushed(turns, p))
            && forall i, j :: 0 <= i < j < |counted| ==> counted[i].offset < counted[j].offset
  {
    hide GoodTurns, Fresh, Gapless, AllUsable;
    if turns != [] {
      var n := |turns| - 1;
      GoodPrefix(turns, p);
      CountedRises(current, turns[..n], p);
      var t := View(turns[n], p);
      FreshMembers(t.batch, SkippedTo(Reached(current, turns[..n], p), t), p);
      var before, unseen := Counted(current, turns[..n], p), Fresh(t.batch, SkippedTo(Reached(current, turns[..n], p), t));
      JoinRises(before, unseen, Reached(current, turns[..n], p));
    }
  }

  lemma JoinRises(a: seq<Message>, b: seq<Message>, mid: int)
    requires forall i, j :: 0 <= i < j < |a| ==> a[i].offset < a[j].offset
    requires forall i, j :: 0 <= i < j < |b| ==> b[i].offset < b[j].offset
    requires (forall m :: m in a ==> m.offset <= mid) && forall m :: m in b ==> m.offset > mid
    ensures forall i, j :: 0 <= i < j < |a + b| ==> (a + b)[i].offset < (a + b)[j].offset
  {
    assert forall i :: 0 <= i < |a| ==> a[i] in a;
    assert forall i :: 0 <= i < |b| ==> b[i] in b;
  }

  /**
   Messages come from one log and are fetched in its order, though any stretch may be fetched
   again: an offset names one message, and whatever lies before a fetched message has been
   fetched before it.
   */
  ghost predicate InLogOrder(ms: seq<Message>, current: int) {
    && (forall a, b :: a in ms && b in ms && a.offset == b.offset ==> a == b)
    && forall m, j :: 0 <= j < |ms| && m in ms && current < m.offset < ms[j].offset ==> m in ms[..j]
  }

  /** Everything handed on behind the first watermark has been counted. */
  ghost predicate AllCounted(current: int, turns: seq<Turn>, p: int) {
    forall m :: m in Flushed(turns, p) && m.offset > current ==> m in Counted(current, turns, p)
  }

  /** No skip moves the watermark over a pending message that lies behind it. */
  ghost predicate SkipsPassNothing(current: int, inputs: seq<Input>, turns: seq<Turn>, p: int)
    requires |turns| == |inputs|
  {
    inputs != [] ==>
      var n := |inputs| - 1;
      && SkipsPassNothing(current, inputs[..n], turns[..n], p)
      && PassesNothing(View(turns[n], p), Held(inputs[..n], turns[..n], p), Reached(current, turns[..n], p))
  }

  predicate PassesNothing(t: Turn, pending: seq<Message>, watermark: int) {
    t.skip.Some? ==> forall m :: m in pending ==> m.offset <= watermark || m.offset > t.skip.value
  }

  /** Fetched messages are accounted for: counted up to the watermark, and pending behind it. */
  ghost predicate Accounted(current: int, fetched: seq<Message>, pending: seq<Message>, watermark: int, counted: seq<Message>) {
    && (watermark == current || exists f :: f in fetched && f.offset == watermark)
    && current <= watermark
    && (forall m :: m in pending ==> m in fetched)
    && (forall m :: m in fetched && Usable(m) && current < m.offset <= watermark ==> m in counted)
    && (forall m :: m in fetched && Usable(m) && m.offset > watermark ==> m in pending)
  }

  lemma FetchedEarlier(fetched: seq<Message>, x: Message, f: Message, current: int)
    requires InLogOrder(fetched + [x], current) && f in fetched && current < x.offset <= f.offset
    ensures x in fetched
  {
    var ms := fetched + [x];
    var j :| 0 <= j < |fetched| && fetched[j] == f;
    if x.offset < f.offset {
      assert ms[j] == f && x in ms;
      assert x in ms[..j] && ms[..j] == fetched[..j];
    } else {
      assert x in ms && f in ms;
    }
  }

  /** A message that arrives is pending, unless it was counted before. */
  lemma ArrivalAccounted(current: int, fetched: seq<Message>, x: Message, pending: seq<Message>, watermark: int, counted: seq<Message>)
    requires Accounted(current, fetched, pending, watermark, counted) && InLogOrder(fetched + [x], current)
    ensures Accounted(current, fetched + [x], if Usable(x) then pending + [x] else pending, watermark, counted)
  {
    hide Usable, InLogOrder;
    if current < x.offset <= watermark {
      var f :| f in fetched && f.offset == watermark;
      FetchedEarlier(fetched, x, f, current);
    }
  }

  lemma SkipAccounted(current: int, fetched: seq<Message>, x: Message, pending: seq<Message>, watermark: int, counted: seq<Message>)
    requires Accounted(current, fetched, pending, watermark, counted) && InLogOrder(fetched, current)
    requires x in fetched && !Usable(x)
    requires forall m :: m in pending ==> m.offset <= watermark || m.offset > x.offset
    ensures Accounted(current, fetched, pending, Max(watermark, x.offset), counted)
  {
    hide Usable;
  }

  lemma BatchAccounted(current: int, fetched: seq<Message>, batch: seq<Message>, left: seq<Message>, watermark: int,
                       counted: seq<Message>, p: int)
    requires Accounted(current, fetched, batch + left, watermark, counted) && Gapless(batch, p) && batch != []
    requires forall m :: m in left && watermark < m.offset <= batch[|batch| - 1].offset ==> m in batch
    ensures Accounted(current, fetched, left, Max(watermark, batch[|batch| - 1].offset), counted + Fresh(batch, watermark))
  {
    hide Usable, Gapless, Fresh;
    FreshMembers(batch, watermark, p);
    var last := batch[|batch| - 1];
    assert last in batch + left;
    forall m | m in fetched && Usable(m) && current < m.offset <= Max(watermark, last.offset)
      ensures m in counted + Fresh(batch, watermark)
    {
      if m.offset > watermark {
        assert m in batch + left;
      }
    }
    forall m | m in fetched && Usable(m) && m.offset > Max(watermark, last.offset) ensures m in left {
      assert m in batch + left;
    }
    assert forall m :: m in left ==> m in batch + left;
  }

  /** One turn of the loop keeps every fetched message accounted for, unless its skip passes a pending one. */
  lemma TurnAccounted(current: int, fetched: seq<Message>, x: Input, pending: seq<Message>, t: Turn, watermark: int,
                      counted: seq<Message>, p: int)
    requires Accounted(current, fetched, pending, watermark, counted)
    requires TurnOk(x, p, pending, t) && Gapless(pending, p) && Gapless(t.batch, p) && PassesNothing(t, pending, watermark)
    requires InLogOrder(Fetched(x, p, fetched), current)
    ensures Accounted(current, Fetched(x, p, fetched), Left(x, p, pending, t), ReachedBy(watermark, t),
                      counted + Fresh(t.batch, SkippedTo(watermark, t)))
  {
    hide Usable, Accounted, InLogOrder, Gapless, Fresh, Left;
    var now, all := Fetched(x, p, fetched), Arrived(x, p, pending);
    if x.Fetch? && x.m.partition == p {
      ArrivalAccounted(current, fetched, x.m, pending, watermark, counted);
    }
    var mid := SkippedTo(watermark, t);
    if t.skip.Some? {
      SkippedIsUnusable(x.m, pending);
      SkipAccounted(current, now, x.m, pending, watermark, counted);
    }
    TurnLosesNothing(x, p, pending, t);
    var left := Left(x, p, pending, t);
    if t.batch == [] {
      assert counted + [] == counted && [] + left == left;
      NothingFresh(mid);
    } else {
      LeftIsAhead(current, fetched, x, pending, t, watermark, counted, p);
      BatchAccounted(current, now, t.batch, left, mid, counted, p);
    }
  }

  lemma SkippedIsUnusable(m: Message, pending: seq<Message>)
    requires Skips(m, pending)
    ensures !Usable(m)
  {
  }

  function Fetched(x: Input, p: int, fetched: seq<Message>): seq<Message> {
    if x.Fetch? && x.m.partition == p then fetched + [x.m] else fetched
  }

  lemma NothingFresh(watermark: int)
    ensures Fresh([], watermark) == []
  {
  }

  /** A message that opens a new batch lies behind the batch handed on, or was in it. */
  lemma LeftIsAhead(current: int, fetched: seq<Message>, x: Input, pending: seq<Message>, t: Turn, watermark: int,
                    counted: seq<Message>, p: int)
    requires Accounted(current, fetched, pending, watermark, counted) && TurnOk(x, p, pending, t) && t.batch != []
    requires InLogOrder(Fetched(x, p, fetched), current)
    ensures forall m :: m in Left(x, p, pending, t) && SkippedTo(watermark, t) < m.offset <= t.batch[|t.batch| - 1].offset ==>
              m in t.batch
  {
    hide Usable, InLogOrder;
    var left := Left(x, p, pending, t);
    forall m | m in left && SkippedTo(watermark, t) < m.offset <= t.batch[|t.batch| - 1].offset ensures m in t.batch {
      if t.batch == pending && x.Fetch? && x.m.partition == p && Usable(x.m) {
        assert left == [x.m];
        FetchedEarlier(fetched, x.m, pending[|pending| - 1], current);
      }
    }
  }

  lemma FetchedGrows(inputs: seq<Input>, p: int)
    requires inputs != []
    ensures FetchedFrom(inputs, p) == Fetched(inputs[|inputs| - 1], p, FetchedFrom(inputs[..|inputs| - 1], p))
  {
    assert FetchedFrom(inputs[..|inputs| - 1], p) + [] == FetchedFrom(inputs[..|inputs| - 1], p);
  }

  lemma OrderOfPrefix(x: Input, p: int, fetched: seq<Message>, current: int)
    requires InLogOrder(Fetched(x, p, fetched), current)
    ensures InLogOrder(fetched, current)
  {
    var ms := Fetched(x, p, fetched);
    if ms != fetched {
      assert ms == fetched + [x.m];
      assert forall m :: m in fetched ==> m in ms;
      assert forall j :: 0 <= j < |fetched| ==> ms[j] == fetched[j] && ms[..j] == fetched[..j];
    }
  }

  lemma {:induction false} SafeRunAccounts(current: int, inputs: seq<Input>, turns: seq<Turn>, p: int)
    requires Traced(inputs, turns, p) && GoodTurns(turns, p) && InLogOrder(FetchedFrom(inputs, p), current)
    requires SkipsPassNothing(current, inputs, turns, p)
    ensures Accounted(current, FetchedFrom(inputs, p), Held(inputs, turns, p), Reached(current, turns, p),
                      Counted(current, turns, p))
  {
    hide Accounted, InLogOrder, FetchedFrom, TurnOk, Left, PassesNothing, GoodTurns, GoodTurn, Gapless, ReachedBy, Fresh, SkippedTo, Fetched;
    if inputs == [] {
      StartAccounted(current, p);
    } else {
      var n := |inputs| - 1;
      FetchedGrows(inputs, p);
      OrderOfPrefix(inputs[n], p, FetchedFrom(inputs[..n], p), current);
      GoodPrefix(turns, p);
      SafeRunAccounts(current, inputs[..n], turns[..n], p);
      HeldIsGapless(inputs[..n], turns[..n], p);
      HeldIsGapless(inputs, turns, p);
      TurnAccounted(current, FetchedFrom(inputs[..n], p), inputs[n], Held(inputs[..n], turns[..n], p), View(turns[n], p),
                    Reached(current, turns[..n], p), Counted(current, turns[..n], p), p);
    }
  }

  lemma StartAccounted(current: int, p: int)
    ensures Accounted(current, FetchedFrom([], p), [], current, [])
  {
  }

  lemma {:induction false} UsableMembers(ms: seq<Message>)
    ensures forall m :: m in UsableOf(ms) <==> m in ms && Usable(m)
  {
    hide Usable;
    if ms != [] {
      UsableMembers(ms[..|ms| - 1]);
      assert ms == ms[..|ms| - 1] + [ms[|ms| - 1]];
    }
  }

  lemma {:induction false} CountedLosesNothingBefore(current: int, inputs: seq<Input>, turns: seq<Turn>, p: int)
    requires Traced(inputs, turns, p) && GoodTurns(turns, p) && AllCounted(current, turns, p)
    ensures SkipsPassNothing(current, inputs, turns, p)
  {
    hide GoodTurns, GoodTurn, Usable;
    if inputs != [] {
      var n := |inputs| - 1;
      GoodPrefix(turns, p);
      CountedRises(current, turns[..n], p);
      HeldIsGapless(inputs, turns, p);
      LastCounted(current, turns, p);
      CountedLosesNothingBefore(current, inputs[..n], turns[..n], p);
    }
  }

  /** If everything is counted at the end, it was so before the last turn, and that turn's batch is fresh or counted. */
  lemma LastCounted(current: int, turns: seq<Turn>, p: int)
    requires turns != [] && GoodTurns(turns, p) && AllCounted(current, turns, p)
    ensures AllCounted(current, turns[..|turns| - 1], p)
    ensures var t, w := View(turns[|turns| - 1], p), Reached(current, turns[..|turns| - 1], p);
            forall m :: m in t.batch && m.offset > current ==> m.offset <= w || m.offset > SkippedTo(w, t)
  {
    hide GoodTurns, GoodTurn, Fresh;
    var n := |turns| - 1;
    GoodPrefix(turns, p);
    CountedRises(current, turns[..n], p);
    var t, w := View(turns[n], p), Reached(current, turns[..n], p);
    GoodIsGapless(t, p);
    FreshMembers(t.batch, SkippedTo(w, t), p);
    assert forall m :: m in Flushed(turns[..n], p) || m in t.batch ==> m in Flushed(turns, p);
  }

  /** No entity type of a usable message begins with a colon. */
  ghost predicate GoodTypes(ms: seq<Message>) {
    forall m :: m in ms && Usable(m) ==> m.body.entityType[0] != ':'
  }

  lemma {:induction false} TurnsAreGood(inputs: seq<Input>, turns: seq<Turn>, p: int)
    requires Traced(inputs, turns, p) && GoodTypes(FetchedFrom(inputs, p))
    ensures GoodTurns(turns, p) && forall m :: m in Held(inputs, turns, p) ==> m in FetchedFrom(inputs, p)
  {
    hide Usable, Gapless, FetchedFrom, TurnOk, GoodTypes, GoodTurns, GoodTurn, Left, Fetched;
    if inputs == [] {
      NoTurns(p);
    } else {
      var n := |inputs| - 1;
      FetchedGrows(inputs, p);
      var fetched := FetchedFrom(inputs[..n], p);
      TypesOfPrefix(inputs[n], p, fetched);
      TurnsAreGood(inputs[..n], turns[..n], p);
      HeldIsGapless(inputs, turns, p);
      var pending, t := Held(inputs[..n], turns[..n], p), View(turns[n], p);
      BatchAndLeft(inputs[n], p, pending, t, fetched);
      GoodBatch(t, Fetched(inputs[n], p, fetched), p, Left(inputs[n], p, pending, t));
      OneMoreGood(turns, p);
    }
  }

  lemma NoTurns(p: int)
    ensures GoodTurns([], p)
  {
  }

  lemma OneMoreGood(turns: seq<Turn>, p: int)
    requires turns != [] && GoodTurns(turns[..|turns| - 1], p) && GoodTurn(View(turns[|turns| - 1], p), p)
    ensures GoodTurns(turns, p)
  {
    hide GoodTurn;
    assert turns == turns[..|turns| - 1] + [turns[|turns| - 1]];
  }

  lemma BatchAndLeft(x: Input, p: int, pending: seq<Message>, t: Turn, fetched: seq<Message>)
    requires TurnOk(x, p, pending, t) && forall m :: m in pending ==> m in fetched
    ensures forall m :: m in t.batch + Left(x, p, pending, t) ==> m in Fetched(x, p, fetched)
  {
    hide Usable, TurnOk, Left;
    TurnLosesNothing(x, p, pending, t);
  }

  lemma TypesOfPrefix(x: Input, p: int, fetched: seq<Message>)
    requires GoodTypes(Fetched(x, p, fetched))
    ensures GoodTypes(fetched) && forall m :: m in fetched ==> m in Fetched(x, p, fetched)
  {
    hide Usable;
    assert forall m :: m in fetched ==> m in Fetched(x, p, fetched);
  }

  lemma GoodBatch(t: Turn, fetched: seq<Message>, p: int, left: seq<Message>)
    requires Gapless(t.batch, p) && GoodTypes(fetched) && forall m :: m in t.batch + left ==> m in fetched
    ensures GoodTurn(t, p) && forall m :: m in left ==> m in fetched
  {
    hide Usable;
    assert forall m :: m in t.batch || m in left ==> m in t.batch + left;
    forall m | m in t.batch ensures Usable(m) {
      var i :| 0 <= i < |t.batch| && t.batch[i] == m;
    }
    TypedIsUsable(t.batch, fetched);
  }

  lemma TypedIsUsable(batch: seq<Message>, fetched: seq<Message>)
    requires GoodTypes(fetched) && forall m :: m in batch ==> m in fetched && Usable(m)
    ensures AllUsable(batch)
  {
  }

  lemma GoodIsGapless(t: Turn, p: int)
    requires GoodTurn(t, p)
    ensures Gapless(t.batch, p)
  {
  }

  /**
   From fetching to counting, for any fetches in log order, with any stretches fetched again:
   executing the turns counts each message found fresh once, for its own entity; and everything
   handed on behind the first watermark is counted if and only if no skip moved the watermark over
   a pending message behind it.
   */
  lemma CountedIffNoSkipPassesPending(inputs: seq<Input>, turns: seq<Turn>, p: int, db: S.Db, appliedKey: string)
    requires Traced(inputs, turns, p) && GoodTypes(FetchedFrom(inputs, p)) && S.Current(db, appliedKey) >= -1
    requires InLogOrder(FetchedFrom(inputs, p), S.Current(db, appliedKey))
    ensures GoodTurns(turns, p) && AllUsable(Counted(S.Current(db, appliedKey), turns, p))
    ensures var current := S.Current(db, appliedKey);
            var counted, after := Counted(current, turns, p), Executed(db, appliedKey, turns, p);
            && after.counts == S.ApplyAll(db.counts, db.markers, Scripted(EventsOf(counted)))
            && (forall i, j :: 0 <= i < j < |counted| ==> counted[i].offset < counted[j].offset)
            && ((forall m :: m in Flushed(turns, p) && m.offset > current ==> m in counted)
                <==> SkipsPassNothing(current, inputs, turns, p))
  {
    hide S.ApplyAll, S.Current, Executed, Counted, UsableOf, FetchedFrom, Flushed, GoodTurns, InLogOrder, Held, Reached,
         Scripted, EventsOf, AllUsable, SkipsPassNothing, Usable;
    var current := S.Current(db, appliedKey);
    TurnsAreGood(inputs, turns, p);
    ExecutionCounts(db, appliedKey, turns, p);
    CountedRises(current, turns, p);
    if SkipsPassNothing(current, inputs, turns, p) {
      SafeRunAccounts(current, inputs, turns, p);
      NothingLost(inputs, turns, p);
      UsableMembers(FetchedFrom(inputs, p));
      assert forall m :: m in Flushed(turns, p) ==> m in Flushed(turns, p) + Held(inputs, turns, p);
    }
    if AllCounted(current, turns, p) {
      CountedLosesNothingBefore(current, inputs, turns, p);
    }
  }

  // ---- Nothing fetched twice ----

  /** Offsets rise along the fetches, and all lie behind the watermark. */
  ghost predicate Rising(ms: seq<Message>, current: int) {
    && (forall i, j :: 0 <= i < j < |ms| ==> ms[i].offset < ms[j].offset)
    && forall m :: m in ms ==> m.offset > current
  }

  /** No message is skipped while its partition has a pending batch. */
  ghost predicate NoSkipWhilePending(inputs: seq<Input>, turns: seq<Turn>, p: int)
    requires |turns| == |inputs|
  {
    inputs != [] ==>
      var n := |inputs| - 1;
      NoSkipWhilePending(inputs[..n], turns[..n], p) && (View(turns[n], p).skip.Some? ==> Held(inputs[..n], turns[..n], p) == [])
  }

  lemma RisingIsLogOrder(ms: seq<Message>, current: int)
    requires Rising(ms, current)
    ensures InLogOrder(ms, current)
  {
    forall m, j | 0 <= j < |ms| && m in ms && current < m.offset < ms[j].offset ensures m in ms[..j] {
      var i :| 0 <= i < |ms| && ms[i] == m;
      assert ms[..j][i] == m;
    }
  }

  /** Everything pending lies behind the watermark. */
  ghost predicate Ahead(current: int, fetched: seq<Message>, pending: seq<Message>, watermark: int) {
    && (watermark == current || exists f :: f in fetched && f.offset == watermark)
    && forall m :: m in pending ==> m in fetched && m.offset > watermark
  }

  /** What a turn skips, hands on and leaves, told apart. */
  lemma PartsOfTurn(x: Input, p: int, pending: seq<Message>, t: Turn)
    requires TurnOk(x, p, pending, t)
    ensures var left := Left(x, p, pending, t);
            && (t.skip.Some? ==> x.Fetch? && x.m.partition == p && t.skip.value == x.m.offset && left == [])
            && (forall m :: m in t.batch + left ==> m in pending || (x.Fetch? && x.m.partition == p && m == x.m))
            && (t.batch != [] && left != [] ==> x.Fetch? && x.m.partition == p && left == [x.m] && t.batch == pending)
  {
    hide Usable;
    if t.skip.Some? {
      SkippedIsUnusable(x.m, pending);
    }
  }

  lemma TurnStaysAhead(current: int, fetched: seq<Message>, x: Input, pending: seq<Message>, t: Turn, watermark: int, p: int)
    requires Ahead(current, fetched, pending, watermark) && Rising(Fetched(x, p, fetched), current)
    requires TurnOk(x, p, pending, t)
    ensures Ahead(current, Fetched(x, p, fetched), Left(x, p, pending, t), ReachedBy(watermark, t))
  {
    hide Rising, TurnOk, Left, Fetched;
    var ms := Fetched(x, p, fetched);
    LaterIsHigher(fetched, x, p, current);
    PartsOfTurn(x, p, pending, t);
    var left, reached := Left(x, p, pending, t), ReachedBy(watermark, t);
    assert forall m :: m in t.batch ==> m in t.batch + left;
    assert forall m :: m in left ==> m in t.batch + left;
    if t.batch != [] {
      var last := t.batch[|t.batch| - 1];
      assert last in t.batch && last in ms;
    }
  }

  lemma LaterIsHigher(fetched: seq<Message>, x: Input, p: int, current: int)
    requires Rising(Fetched(x, p, fetched), current)
    ensures Rising(fetched, current)
    ensures x.Fetch? && x.m.partition == p ==>
              x.m.offset > current && x.m in Fetched(x, p, fetched) && forall f :: f in fetched ==> f.offset < x.m.offset
    ensures forall f :: f in fetched ==> f in Fetched(x, p, fetched)
  {
    var ms := Fetched(x, p, fetched);
    if x.Fetch? && x.m.partition == p {
      assert ms[|fetched|] == x.m;
      assert forall i :: 0 <= i < |fetched| ==> ms[i] == fetched[i];
    }
  }

  lemma {:induction false} PendingIsAhead(current: int, inputs: seq<Input>, turns: seq<Turn>, p: int)
    requires Traced(inputs, turns, p) && Rising(FetchedFrom(inputs, p), current)
    ensures Ahead(current, FetchedFrom(inputs, p), Held(inputs, turns, p), Reached(current, turns, p))
  {
    hide FetchedFrom, Rising, Ahead, TurnOk, Left, ReachedBy, Fetched, Gapless;
    if inputs == [] {
      StartAhead(current, p);
    } else {
      var n := |inputs| - 1;
      FetchedGrows(inputs, p);
      LaterIsHigher(FetchedFrom(inputs[..n], p), inputs[n], p, current);
      PendingIsAhead(current, inputs[..n], turns[..n], p);
      HeldIsGapless(inputs[..n], turns[..n], p);
      TurnStaysAhead(current, FetchedFrom(inputs[..n], p), inputs[n], Held(inputs[..n], turns[..n], p), View(turns[n], p),
                     Reached(current, turns[..n], p), p);
    }
  }

  lemma StartAhead(current: int, p: int)
    ensures Ahead(current, FetchedFrom([], p), [], current)
  {
  }

  /** Without refetches a skip passes nothing exactly when nothing is pending. */
  lemma {:induction false} PassingIsPending(current: int, inputs: seq<Input>, turns: seq<Turn>, p: int)
    requires Traced(inputs, turns, p) && Rising(FetchedFrom(inputs, p), current)
    ensures SkipsPassNothing(current, inputs, turns, p) <==> NoSkipWhilePending(inputs, turns, p)
  {
    hide FetchedFrom, Rising, Left, Reached, Usable, Fetched;
    if inputs != [] {
      var n := |inputs| - 1;
      FetchedGrows(inputs, p);
      LaterIsHigher(FetchedFrom(inputs[..n], p), inputs[n], p, current);
      PassingIsPending(current, inputs[..n], turns[..n], p);
      PendingIsAhead(current, inputs[..n], turns[..n], p);
      var pending, t := Held(inputs[..n], turns[..n], p), View(turns[n], p);
      if t.skip.Some? && pending != [] {
        assert pending[0] in pending && pending[0] in FetchedFrom(inputs[..n], p);
      }
    }
  }

  /**
   Fetching each message once: the messages counted are those handed on, in order, if and only if
   no unusable message was skipped while its partition had a pending batch.
   */
  lemma EveryUsableMessageIsCountedIff(inputs: seq<Input>, turns: seq<Turn>, p: int, db: S.Db, appliedKey: string)
    requires Traced(inputs, turns, p) && GoodTypes(FetchedFrom(inputs, p)) && S.Current(db, appliedKey) >= -1
    requires Rising(FetchedFrom(inputs, p), S.Current(db, appliedKey))
    ensures GoodTurns(turns, p) && AllUsable(Counted(S.Current(db, appliedKey), turns, p))
    ensures var counted := Counted(S.Current(db, appliedKey), turns, p);
            && Executed(db, appliedKey, turns, p).counts == S.ApplyAll(db.counts, db.markers, Scripted(EventsOf(counted)))
            && Flushed(turns, p) + Held(inputs, turns, p) == UsableOf(FetchedFrom(inputs, p))
            && ((forall m :: m in Flushed(turns, p) ==> m in counted) <==> NoSkipWhilePending(inputs, turns, p))
  {
    hide S.ApplyAll, S.Current, Executed, Counted, UsableOf, FetchedFrom, Flushed, GoodTurns, InLogOrder, Held, Reached,
         Scripted, EventsOf, AllUsable, SkipsPassNothing, NoSkipWhilePending, Usable;
    var current := S.Current(db, appliedKey);
    RisingIsLogOrder(FetchedFrom(inputs, p), current);
    CountedIffNoSkipPassesPending(inputs, turns, p, db, appliedKey);
    PassingIsPending(current, inputs, turns, p);
    NothingLost(inputs, turns, p);
    UsableMembers(FetchedFrom(inputs, p));
    assert forall m :: m in Flushed(turns, p) ==> m in Flushed(turns, p) + Held(inputs, turns, p);
  }
}
