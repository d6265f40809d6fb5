/**
 The script that applies one partition batch to the counters behind an offset watermark, and
 the one that moves the watermark past a message to be dropped.
 */
module ApplyScript {
  import opened Prelude

  /** One script argument, already converted by tonumber where the script does so. */
  datatype Arg = Num(n: int) | Text(s: string)

  /** What a script call answers: the new watermark, the gap error, or a failed redis.call. */
  datatype Reply = Watermark(offset: int) | OffsetGap | CallError

  type Counts = map<string, map<string, int>>

  /** The Redis keys the scripts touch: counter hashes, rebuild markers, and watermarks. */
  datatype Db = Db(counts: Counts, markers: set<string>, applied: map<string, int>)

  /** One event as the script sees it; a key index past the end names no key. */
  datatype Event = Event(offset: int, key: Option<string>, marker: Option<string>, field: string, delta: int)

  function Current(db: Db, appliedKey: string): int {
    if appliedKey in db.applied then db.applied[appliedKey] else -1
  }

  function Count(counts: Counts, key: string, field: string): int {
    if key in counts && field in counts[key] then counts[key][field] else 0
  }

  /** HSET of one field. */
  function Put(counts: Counts, key: string, field: string, value: int): Counts {
    counts[key := (if key in counts then counts[key] else map[])[field := value]]
  }

  /** HINCRBY followed by the reset to zero of a negative result. */
  function Bump(counts: Counts, key: string, field: string, delta: int): Counts {
    Put(counts, key, field, Max(0, Count(counts, key, field) + delta))
  }

  // ---- The batch script, event by event ----

  datatype Run = Running(db: Db, last: int) | Failed(db: Db, reply: Reply)

  function Step(r: Run, e: Event, current: int): Run {
    match r
    case Failed(_, _) => r
    case Running(db, last) =>
      if e.offset <= current then r
      else if last >= 0 && e.offset <= last then Failed(db, OffsetGap)
      else if e.marker.None? || e.key.None? then Failed(db, CallError)
      else if e.marker.value in db.markers then Running(db, e.offset)
      else Running(db.(counts := Bump(db.counts, e.key.value, e.field, e.delta)), e.offset)
  }

  function RunEvents(db: Db, es: seq<Event>, current: int): Run {
    if es == [] then Running(db, current)
    else Step(RunEvents(db, es[..|es| - 1], current), es[|es| - 1], current)
  }

  /** The watermark is written only at the end; a failed run keeps the increments made before. */
  function Finish(r: Run, appliedKey: string, current: int): (Db, Reply) {
    match r
    case Failed(db, reply) => (db, reply)
    case Running(db, last) =>
      (if last > current then db.(applied := db.applied[appliedKey := last]) else db, Watermark(last))
  }

  function Apply(db: Db, appliedKey: string, es: seq<Event>): (Db, Reply) {
    Finish(RunEvents(db, es, Current(db, appliedKey)), appliedKey, Current(db, appliedKey))
  }

  function Advance(db: Db, appliedKey: string, target: int): (Db, Reply) {
    if target <= Current(db, appliedKey) then (db, Watermark(Current(db, appliedKey)))
    else (db.(applied := db.applied[appliedKey := target]), Watermark(target))
  }

  // ---- The flattened arguments ----

  /** ARGV is the event count, the entity count, then offset, key index, field, delta per event. */
  predicate Shaped(argv: seq<Arg>) {
    && |argv| >= 2 && argv[0].Num? && argv[1].Num? && argv[1].n >= 0
    && argv[0].n >= 0 && |argv| == 2 + 4 * argv[0].n
    && forall i :: 0 <= i < argv[0].n ==> ShapedEvent(argv, i)
  }

  predicate ShapedEvent(argv: seq<Arg>, i: nat)
    requires |argv| >= 6 + 4 * i
  {
    argv[2 + 4 * i].Num? && argv[3 + 4 * i].Num? && argv[3 + 4 * i].n >= 0 && argv[4 + 4 * i].Text? && argv[5 + 4 * i].Num?
  }

  function KeyAt(keys: seq<string>, i: nat): Option<string> {
    if i < |keys| then Some(keys[i]) else None
  }

  /** KEYS holds the watermark key, the counter keys, then their markers in the same order. */
  function EventAt(keys: seq<string>, argv: seq<Arg>, i: nat): Event
    requires Shaped(argv) && i < argv[0].n
  {
    assert ShapedEvent(argv, i);
    var index := argv[3 + 4 * i].n;
    Event(argv[2 + 4 * i].n, KeyAt(keys, index + 1), KeyAt(keys, index + 1 + argv[1].n), argv[4 + 4 * i].s, argv[5 + 4 * i].n)
  }

  function Events(keys: seq<string>, argv: seq<Arg>): seq<Event>
    requires Shaped(argv)
  {
    seq(argv[0].n, i requires 0 <= i < argv[0].n => EventAt(keys, argv, i))
  }

  /** The Redis instance the scripts run in. Each method is one atomic script call. */
  class CounterRedis {
    var db: Db

    constructor (db: Db)
      ensures this.db == db
    {
      this.db := db;
    }

    /** applyPartitionBatchLua. */
    method ApplyPartitionBatch(keys: seq<string>, argv: seq<Arg>) returns (reply: Reply)
      requires |keys| > 0 && Shaped(argv)
      modifies this
      ensures (db, reply) == Apply(old(db), keys[0], Events(keys, argv))
    {
      ShapeOf(argv);
      var eventCount, entityCount := argv[0].n, argv[1].n;
      var current := Current(db, keys[0]);
      var lastApplied := current;
      hide Put, Count, Bump, RunEvents, Finish, EventAt, Shaped, ShapedEvent;
      ghost var es := Events(keys, argv);
      NothingRun(db, es, current);
      var pos := 2;
      var i := 0;
      while i < eventCount
        invariant 0 <= i <= eventCount && pos == 2 + 4 * i
        invariant RunEvents(old(db), es[..i], current) == Running(db, lastApplied)
      {
        ArgsOfEvent(keys, argv, i);
        OneMoreEvent(old(db), es, i, current);
        var offset, keyIndex, field, delta := argv[pos].n, argv[pos + 1].n, argv[pos + 2].s, argv[pos + 3].n;
        pos := pos + 4;
        if offset > current {
          if lastApplied >= 0 && offset <= lastApplied {
            FailurePersists(old(db), es, i + 1, current);
            FinishIs(db, lastApplied, keys[0], current);
            return OffsetGap;
          }
          var cntKey, rebuildKey := KeyAt(keys, keyIndex + 1), KeyAt(keys, keyIndex + 1 + entityCount);
          if rebuildKey.None? || cntKey.None? {
            FailurePersists(old(db), es, i + 1, current);
            FinishIs(db, lastApplied, keys[0], current);
            return CallError;
          }
          if rebuildKey.value !in db.markers {
            var val := Count(db.counts, cntKey.value, field) + delta;
            BumpIs(db.counts, cntKey.value, field, delta);
            db := db.(counts := Put(db.counts, cntKey.value, field, if val < 0 then 0 else val));
          }
          lastApplied := offset;
        }
        i := i + 1;
      }
      assert es[..eventCount] == es;
      FinishIs(db, lastApplied, keys[0], current);
      if lastApplied > current {
        db := db.(applied := db.applied[keys[0] := lastApplied]);
      }
      reply := Watermark(lastApplied);
    }

    /** advanceAppliedOffsetLua. */
    method AdvanceAppliedOffset(appliedKey: string, target: int) returns (reply: Reply)
      modifies this
      ensures (db, reply) == Advance(old(db), appliedKey, target)
    {
      var current := Current(db, appliedKey);
      if target <= current {
        return Watermark(current);
      }
      db := db.(applied := db.applied[appliedKey := target]);
      reply := Watermark(target);
    }
  }

  lemma ShapeOf(argv: seq<Arg>)
    requires Shaped(argv)
    ensures |argv| >= 2 && argv[0].Num? && argv[1].Num? && argv[0].n >= 0 && argv[1].n >= 0 && |argv| == 2 + 4 * argv[0].n
  {
    hide ShapedEvent;
  }

  lemma ArgsOfEvent(keys: seq<string>, argv: seq<Arg>, i: nat)
    requires Shaped(argv) && i < argv[0].n
    ensures 6 + 4 * i <= |argv| && argv[2 + 4 * i].Num? && argv[3 + 4 * i].Num? && argv[3 + 4 * i].n >= 0
    ensures argv[4 + 4 * i].Text? && argv[5 + 4 * i].Num?
    ensures Events(keys, argv)[i]
            == Event(argv[2 + 4 * i].n, KeyAt(keys, argv[3 + 4 * i].n + 1), KeyAt(keys, argv[3 + 4 * i].n + 1 + argv[1].n),
                     argv[4 + 4 * i].s, argv[5 + 4 * i].n)
  {
    assert ShapedEvent(argv, i) && Events(keys, argv)[i] == EventAt(keys, argv, i);
  }

  lemma BumpIs(counts: Counts, key: string, field: string, delta: int)
    ensures var val := Count(counts, key, field) + delta;
            Bump(counts, key, field, delta) == Put(counts, key, field, if val < 0 then 0 else val)
  {
  }

  lemma NothingRun(db: Db, es: seq<Event>, current: int)
    ensures RunEvents(db, es[..0], current) == Running(db, current)
  {
  }

  lemma OneMoreEvent(db: Db, es: seq<Event>, i: nat, current: int)
    requires i < |es|
    ensures RunEvents(db, es[..i + 1], current) == Step(RunEvents(db, es[..i], current), es[i], current)
  {
    assert es[..i + 1][..i] == es[..i];
  }

  lemma FinishIs(db: Db, last: int, appliedKey: string, current: int)
    ensures Finish(Running(db, last), appliedKey, current)
            == (if last > current then db.(applied := db.applied[appliedKey := last]) else db, Watermark(last))
    ensures forall reply :: Finish(Failed(db, reply), appliedKey, current) == (db, reply)
  {
  }

  lemma {:induction false} FailurePersists(db: Db, es: seq<Event>, i: nat, current: int)
    requires i <= |es| && RunEvents(db, es[..i], current).Failed?
    ensures RunEvents(db, es, current) == RunEvents(db, es[..i], current)
    decreases |es|
  {
    if i < |es| {
      assert es[..|es| - 1][..i] == es[..i];
      FailurePersists(db, es[..|es| - 1], i, current);
    } else {
      assert es[..i] == es;
    }
  }

  // ---- What a run amounts to ----

  function ApplyOne(counts: Counts, markers: set<string>, e: Event): Counts
    requires e.key.Some? && e.marker.Some?
  {
    if e.marker.value in markers then counts else Bump(counts, e.key.value, e.field, e.delta)
  }

  /** Applying events one after the other, leaving out entities under rebuild. */
  function ApplyAll(counts: Counts, markers: set<string>, es: seq<Event>): Counts
    requires forall e :: e in es ==> e.key.Some? && e.marker.Some?
  {
    if es == [] then counts else ApplyOne(ApplyAll(counts, markers, es[..|es| - 1]), markers, es[|es| - 1])
  }

  /** Events of one batch: offsets without a gap, and every key present. */
  ghost predicate Consecutive(es: seq<Event>, start: nat) {
    && (forall i :: 0 <= i < |es| ==> es[i].offset == start + i)
    && forall e :: e in es ==> e.key.Some? && e.marker.Some?
  }

  /** The events of a batch that lie behind the watermark. */
  function Fresh(es: seq<Event>, start: nat, current: int): seq<Event> {
    es[Min(|es|, Max(0, current + 1 - start))..]
  }

  /**
   A batch with consecutive offsets never fails: it applies exactly its events behind the
   watermark, in order, and lifts the watermark to its end when that is higher.
   */
  lemma {:induction false} RunConsecutive(db: Db, es: seq<Event>, start: nat, current: int)
    requires Consecutive(es, start) && current >= -1
    ensures (forall e :: e in Fresh(es, start, current) ==> e.key.Some? && e.marker.Some?)
    ensures RunEvents(db, es, current) ==
            Running(db.(counts := ApplyAll(db.counts, db.markers, Fresh(es, start, current))),
                    if es == [] then current else Max(current, start + |es| - 1))
  {
    hide Bump, Fresh;
    FreshGrows(es, start, current);
    if es != [] {
      var init := es[..|es| - 1];
      RunConsecutive(db, init, start, current);
      var f := Fresh(es, start, current);
      if start + |es| - 1 > current {
        assert f[..|f| - 1] == Fresh(init, start, current);
        assert ApplyAll(db.counts, db.markers, f)
            == ApplyOne(ApplyAll(db.counts, db.markers, Fresh(init, start, current)), db.markers, es[|es| - 1]);
      }
    }
  }

  lemma FreshGrows(es: seq<Event>, start: nat, current: int)
    requires current >= -1
    ensures forall e :: e in Fresh(es, start, current) ==> e in es
    ensures es == [] ==> Fresh(es, start, current) == []
    ensures es != [] && start + |es| - 1 > current ==>
              Fresh(es, start, current) == Fresh(es[..|es| - 1], start, current) + [es[|es| - 1]]
    ensures es != [] && start + |es| - 1 <= current ==>
              Fresh(es, start, current) == [] && Fresh(es[..|es| - 1], start, current) == []
  {
  }

  lemma ApplyConsecutive(db: Db, appliedKey: string, es: seq<Event>, start: nat)
    requires Consecutive(es, start) && Current(db, appliedKey) >= -1
    ensures var current := Current(db, appliedKey);
            var after := Apply(db, appliedKey, es).0;
            && (forall e :: e in Fresh(es, start, current) ==> e.key.Some? && e.marker.Some?)
            && after.counts == ApplyAll(db.counts, db.markers, Fresh(es, start, current))
            && after.markers == db.markers
            && Current(after, appliedKey) == (if es == [] then current else Max(current, start + |es| - 1))
            && (forall k :: k != appliedKey ==> Current(after, k) == Current(db, k))
            && Apply(db, appliedKey, es).1 == Watermark(Current(after, appliedKey))
  {
    RunConsecutive(db, es, start, Current(db, appliedKey));
  }

  /** Whatever the events, no run lowers the watermark. */
  lemma WatermarkNeverFalls(db: Db, appliedKey: string, es: seq<Event>)
    ensures Current(Apply(db, appliedKey, es).0, appliedKey) >= Current(db, appliedKey)
    ensures Apply(db, appliedKey, es).1.Watermark? ==>
              Apply(db, appliedKey, es).1.offset == Current(Apply(db, appliedKey, es).0, appliedKey)
  {
    RunKeepsApplied(db, es, Current(db, appliedKey));
  }

  lemma {:induction false} RunKeepsApplied(db: Db, es: seq<Event>, current: int)
    ensures RunEvents(db, es, current).db.applied == db.applied && RunEvents(db, es, current).db.markers == db.markers
    ensures RunEvents(db, es, current).Running? ==> RunEvents(db, es, current).last >= current
    ensures RunEvents(db, es, current).Failed? ==> !RunEvents(db, es, current).reply.Watermark?
  {
    if es != [] {
      RunKeepsApplied(db, es[..|es| - 1], current);
    }
  }

  // ---- Any events at all ----

  /** The event lies behind the watermark, but not behind an earlier one that does. */
  predicate Gapped(es: seq<Event>, i: nat, current: int)
    requires i < |es|
  {
    es[i].offset > current && exists j :: 0 <= j < i && current < es[j].offset && es[i].offset <= es[j].offset
  }

  /** The event lies behind the watermark and names no counter or no marker. */
  predicate Keyless(es: seq<Event>, i: nat, current: int)
    requires i < |es|
  {
    es[i].offset > current && (es[i].key.None? || es[i].marker.None?)
  }

  predicate Offends(es: seq<Event>, i: nat, current: int)
    requires i < |es|
  {
    Gapped(es, i, current) || Keyless(es, i, current)
  }

  ghost predicate NoneOffends(es: seq<Event>, n: nat, current: int)
    requires n <= |es|
  {
    forall i :: 0 <= i < n ==> !Offends(es, i, current)
  }

  /** The events behind the watermark. */
  function Behind(es: seq<Event>, current: int): seq<Event> {
    if es == [] then []
    else Behind(es[..|es| - 1], current) + if es[|es| - 1].offset > current then [es[|es| - 1]] else []
  }

  /** The offset of the last event behind the watermark, or the watermark. */
  function LastBehind(es: seq<Event>, current: int): int {
    if es == [] then current
    else if es[|es| - 1].offset > current then es[|es| - 1].offset
    else LastBehind(es[..|es| - 1], current)
  }

  lemma PrefixOffends(es: seq<Event>, n: nat, i: nat, current: int)
    requires i < n <= |es|
    ensures Offends(es[..n], i, current) <==> Offends(es, i, current)
  {
    assert forall j :: 0 <= j <= i ==> es[..n][j] == es[j];
    if Gapped(es, i, current) {
      var j :| 0 <= j < i && current < es[j].offset && es[i].offset <= es[j].offset;
      assert es[..n][j] == es[j];
    }
  }

  lemma PrefixClean(es: seq<Event>, n: nat, current: int)
    requires n <= |es|
    ensures NoneOffends(es[..n], n, current) <==> NoneOffends(es, n, current)
  {
    forall i | 0 <= i < n ensures Offends(es[..n], i, current) <==> Offends(es, i, current) {
      PrefixOffends(es, n, i, current);
    }
  }

  /** Without an offending event the last one behind the watermark is the highest. */
  lemma {:induction false} LastIsHighest(es: seq<Event>, current: int)
    requires NoneOffends(es, |es|, current)
    ensures LastBehind(es, current) >= current
    ensures forall j :: 0 <= j < |es| ==> es[j].offset <= current || es[j].offset <= LastBehind(es, current)
    ensures LastBehind(es, current) > current ==> exists j :: 0 <= j < |es| && es[j].offset == LastBehind(es, current)
  {
    if es != [] {
      var n := |es| - 1;
      PrefixClean(es, n, current);
      LastIsHighest(es[..n], current);
      assert forall j :: 0 <= j < n ==> es[..n][j] == es[j];
      assert !Offends(es, n, current);
    }
  }

  lemma {:induction false} KeysOfBehind(es: seq<Event>, current: int)
    requires NoneOffends(es, |es|, current)
    ensures forall e :: e in Behind(es, current) ==> e.key.Some? && e.marker.Some?
  {
    if es != [] {
      var n := |es| - 1;
      PrefixClean(es, n, current);
      KeysOfBehind(es[..n], current);
      assert !Offends(es, n, current);
    }
  }

  lemma {:induction false} CleanRun(db: Db, es: seq<Event>, current: int)
    requires current >= -1 && NoneOffends(es, |es|, current)
    ensures forall e :: e in Behind(es, current) ==> e.key.Some? && e.marker.Some?
    ensures RunEvents(db, es, current)
            == Running(db.(counts := ApplyAll(db.counts, db.markers, Behind(es, current))), LastBehind(es, current))
  {
    hide Bump, NoneOffends, Offends, RunEvents, Step, ApplyAll, Behind, LastBehind;
    KeysOfBehind(es, current);
    if es == [] {
      NothingBehind(db, current);
    } else {
      var n := |es| - 1;
      PrefixClean(es, n, current);
      WholeClean(es, current);
      CleanRun(db, es[..n], current);
      assert es[..n + 1] == es;
      OneMoreEvent(db, es, n, current);
      OneMoreBehind(es, current);
      CleanStep(db, es, Behind(es[..n], current), LastBehind(es[..n], current), current);
    }
  }

  lemma NothingBehind(db: Db, current: int)
    ensures Behind([], current) == [] && LastBehind([], current) == current && RunEvents(db, [], current) == Running(db, current)
    ensures ApplyAll(db.counts, db.markers, []) == db.counts
  {
  }

  lemma OneMoreBehind(es: seq<Event>, current: int)
    requires es != []
    ensures var n := |es| - 1;
            && Behind(es, current) == (if es[n].offset > current then Behind(es[..n], current) + [es[n]] else Behind(es[..n], current))
            && LastBehind(es, current) == (if es[n].offset > current then es[n].offset else LastBehind(es[..n], current))
  {
    assert Behind(es[..|es| - 1], current) + [] == Behind(es[..|es| - 1], current);
  }

  lemma CleanStep(db: Db, es: seq<Event>, before: seq<Event>, last: int, current: int)
    requires es != [] && current >= -1 && NoneOffends(es, |es| - 1, current) && !Offends(es, |es| - 1, current)
    requires last == LastBehind(es[..|es| - 1], current) && forall e :: e in before ==> e.key.Some? && e.marker.Some?
    ensures var e := es[|es| - 1];
            var run := Running(db.(counts := ApplyAll(db.counts, db.markers, before)), last);
            if e.offset <= current then Step(run, e, current) == run
            else e.key.Some? && e.marker.Some?
                 && Step(run, e, current) == Running(db.(counts := ApplyAll(db.counts, db.markers, before + [e])), e.offset)
  {
    hide Bump, NoneOffends, LastBehind;
    var e := es[|es| - 1];
    if e.offset > current {
      NotBelow(es, current);
      assert (before + [e])[..|before|] == before;
    }
  }

  lemma WholeClean(es: seq<Event>, current: int)
    requires es != [] && NoneOffends(es, |es|, current)
    ensures NoneOffends(es, |es| - 1, current) && !Offends(es, |es| - 1, current)
  {
  }

  /** An event that does not offend lies behind all before it that lie behind the watermark. */
  lemma NotBelow(es: seq<Event>, current: int)
    requires es != [] && current >= -1 && NoneOffends(es, |es| - 1, current) && es[|es| - 1].offset > current
    ensures !Gapped(es, |es| - 1, current) <==> es[|es| - 1].offset > LastBehind(es[..|es| - 1], current)
  {
    var n := |es| - 1;
    PrefixClean(es, n, current);
    LastIsHighest(es[..n], current);
    assert forall j :: 0 <= j < n ==> es[..n][j] == es[j];
  }

  /**
   What an execution does with any events. Without an offending one it counts the events behind the
   watermark and moves the watermark to the last of them; otherwise the first offending event decides
   the error reply, everything counted before it stays, and the watermark does not move.
   */
  lemma ApplyExactly(db: Db, appliedKey: string, es: seq<Event>)
    requires Current(db, appliedKey) >= -1
    ensures var current, (after, reply) := Current(db, appliedKey), Apply(db, appliedKey, es);
            && (reply.Watermark? <==> NoneOffends(es, |es|, current))
            && (NoneOffends(es, |es|, current) ==>
                  && (forall e :: e in Behind(es, current) ==> e.key.Some? && e.marker.Some?)
                  && after.counts == ApplyAll(db.counts, db.markers, Behind(es, current))
                  && Current(after, appliedKey) == LastBehind(es, current))
    ensures var current, (after, reply) := Current(db, appliedKey), Apply(db, appliedKey, es);
            forall i :: 0 <= i < |es| && NoneOffends(es, i, current) && Offends(es, i, current) ==>
              && reply == (if Gapped(es, i, current) then OffsetGap else CallError)
              && (forall e :: e in Behind(es[..i], current) ==> e.key.Some? && e.marker.Some?)
              && after == db.(counts := ApplyAll(db.counts, db.markers, Behind(es[..i], current)))
  {
    hide NoneOffends, Offends, ApplyAll, Behind;
    var current := Current(db, appliedKey);
    if NoneOffends(es, |es|, current) {
      CleanRun(db, es, current);
      LastIsHighest(es, current);
    } else {
      var k := FirstOffence(es, |es|, current);
      FirstOffenceFails(db, es, k, current);
    }
    forall i | 0 <= i < |es| && NoneOffends(es, i, current) && Offends(es, i, current)
      ensures RunEvents(db, es, current).Failed?
      ensures RunEvents(db, es, current).reply == if Gapped(es, i, current) then OffsetGap else CallError
      ensures forall e :: e in Behind(es[..i], current) ==> e.key.Some? && e.marker.Some?
      ensures RunEvents(db, es, current).db == db.(counts := ApplyAll(db.counts, db.markers, Behind(es[..i], current)))
    {
      FirstOffenceFails(db, es, i, current);
    }
  }

  lemma {:induction false} FirstOffence(es: seq<Event>, n: nat, current: int) returns (k: nat)
    requires n <= |es| && !NoneOffends(es, n, current)
    ensures k < n && NoneOffends(es, k, current) && Offends(es, k, current)
    decreases n
  {
    if NoneOffends(es, n - 1, current) {
      k := n - 1;
    } else {
      k := FirstOffence(es, n - 1, current);
    }
  }

  lemma FirstOffenceFails(db: Db, es: seq<Event>, i: nat, current: int)
    requires current >= -1 && i < |es| && NoneOffends(es, i, current) && Offends(es, i, current)
    ensures forall e :: e in Behind(es[..i], current) ==> e.key.Some? && e.marker.Some?
    ensures RunEvents(db, es, current)
            == Failed(db.(counts := ApplyAll(db.counts, db.markers, Behind(es[..i], current))),
                      if Gapped(es, i, current) then OffsetGap else CallError)
    ensures !NoneOffends(es, |es|, current)
  {
    hide ApplyAll, Behind, NoneOffends, Gapped, LastBehind;
    var upTo := es[..i + 1];
    assert upTo[..i] == es[..i] && upTo[i] == es[i];
    CleanBefore(es, i, current);
    CleanRun(db, es[..i], current);
    LastIsHighest(es[..i], current);
    NotBelow(upTo, current);
    FailurePersists(db, es, i + 1, current);
  }

  lemma CleanBefore(es: seq<Event>, i: nat, current: int)
    requires i < |es| && NoneOffends(es, i, current) && Offends(es, i, current)
    ensures NoneOffends(es[..i], i, current) && NoneOffends(es[..i + 1], i, current) && !NoneOffends(es, |es|, current)
    ensures (Gapped(es[..i + 1], i, current) <==> Gapped(es, i, current)) && es[i].offset > current
  {
    PrefixClean(es, i, current);
    var upTo := es[..i + 1];
    assert upTo[..i] == es[..i];
    PrefixClean(upTo, i, current);
    assert forall j :: 0 <= j <= i ==> upTo[j] == es[j];
  }

  /**
   A retried batch after a gap error counts its prefix twice: the error is raised after the
   increments before it, and the watermark stays. Batches never contain such a gap.
   */
  lemma GapErrorKeepsIncrements(db: Db, appliedKey: string, e: Event, again: Event)
    requires e.key.Some? && e.marker.Some? && e.marker.value !in db.markers
    requires Current(db, appliedKey) < e.offset && 0 <= e.offset && again.offset == e.offset
    ensures var r := Apply(db, appliedKey, [e, again]);
            && r.1 == OffsetGap && Current(r.0, appliedKey) == Current(db, appliedKey)
            && r.0.counts == Bump(db.counts, e.key.value, e.field, e.delta)
  {
    assert [e, again][..1] == [e] && [e][..0] == [];
    assert RunEvents(db, [], Current(db, appliedKey)) == Running(db, Current(db, appliedKey));
    assert RunEvents(db, [e], Current(db, appliedKey)) == Step(Running(db, Current(db, appliedKey)), e, Current(db, appliedKey));
  }
}
