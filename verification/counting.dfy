/**
 The counting pipeline of one partition as a machine: bits are toggled, the changes travel
 through a log, batches of it are applied behind a watermark, and repairs overwrite counters.
 Any interleaving of any number of consumers, crashes, retries and redeliveries is a run.
 */
module Counting {
  import opened Prelude
  import S = ApplyScript

  /** One real change of one user's bit: delta is +1 or -1. */
  datatype Change = Change(entity: string, metric: string, user: nat, delta: int)

  /** A log record: a change, or a message the consumer cannot use. */
  datatype Record = Valid(change: Change) | Malformed

  datatype Target = Target(entity: string, metric: string)

  const METRICS: set<string> := {"like", "fav", "follower", "following", "posts"}

  datatype Sys = Sys(
    bits: map<Target, set<nat>>,
    log: seq<Record>,
    unpublished: seq<Change>,
    db: S.Db,
    snapshots: map<string, map<string, int>>)

  datatype Action =
    | Toggle(t: Target, user: nat, add: bool)
    | Publish(i: nat)
    | PublishFails(i: nat)
    | Garbage
    | ApplyBatch(from: nat, to: nat)
    | SkipMalformed(offset: nat)
    | Mark(entity: string)
    | Unmark(entity: string)
    | TakeSnapshot(entity: string)
    | WriteSnapshot(entity: string)

  // ---- Keys ----

  const APPLIED: string := "counter:applied-offset"

  function CntKey(entity: string): string {
    "cnt:" + entity
  }

  function MarkerKey(entity: string): string {
    "rebuilding:" + entity
  }

  lemma KeysAreInjective(a: string, b: string)
    ensures CntKey(a) == CntKey(b) ==> a == b
    ensures MarkerKey(a) == MarkerKey(b) ==> a == b
  {
    if CntKey(a) == CntKey(b) { assert a == CntKey(a)[4..] && b == CntKey(b)[4..]; }
    if MarkerKey(a) == MarkerKey(b) { assert a == MarkerKey(a)[11..] && b == MarkerKey(b)[11..]; }
  }

  // ---- Readings ----

  function Bits(s: Sys, t: Target): set<nat> {
    if t in s.bits then s.bits[t] else {}
  }

  function Counter(s: Sys, t: Target): int {
    S.Count(s.db.counts, CntKey(t.entity), t.metric)
  }

  function Watermark(s: Sys): int {
    S.Current(s.db, APPLIED)
  }

  function Fits(c: Change, t: Target): bool {
    c.entity == t.entity && c.metric == t.metric
  }

  function DeltaOf(c: Change, t: Target): int {
    if Fits(c, t) then c.delta else 0
  }

  function RecordDelta(r: Record, t: Target): int {
    if r.Valid? then DeltaOf(r.change, t) else 0
  }

  function LogDelta(log: seq<Record>, t: Target): int {
    if log == [] then 0 else LogDelta(log[..|log| - 1], t) + RecordDelta(log[|log| - 1], t)
  }

  function QueueDelta(q: seq<Change>, t: Target): int {
    if q == [] then 0 else QueueDelta(q[..|q| - 1], t) + DeltaOf(q[|q| - 1], t)
  }

  /** Changes that are not in the counter yet: published behind the watermark, or still to publish. */
  function InFlight(s: Sys, t: Target): int
    requires -1 <= Watermark(s) < |s.log|
  {
    LogDelta(s.log[Watermark(s) + 1..], t) + QueueDelta(s.unpublished, t)
  }

  /** How far the counter, once everything in flight has arrived, will be from the truth. */
  function Drift(s: Sys, t: Target): int
    requires -1 <= Watermark(s) < |s.log|
  {
    Counter(s, t) + InFlight(s, t) - |Bits(s, t)|
  }

  // ---- Steps ----

  function ScriptEvent(r: Record, offset: int): S.Event {
    if r.Valid?
    then S.Event(offset, Some(CntKey(r.change.entity)), Some(MarkerKey(r.change.entity)), r.change.metric, r.change.delta)
    else S.Event(offset, None, None, "", 0)
  }

  function BatchEvents(log: seq<Record>, from: nat, to: nat): seq<S.Event>
    requires from <= to <= |log|
  {
    seq(to - from, i requires 0 <= i < to - from => ScriptEvent(log[from + i], from + i))
  }

  function Enabled(s: Sys, a: Action): bool {
    match a
    case Publish(i) => i < |s.unpublished|
    case PublishFails(i) => i < |s.unpublished|
    case ApplyBatch(from, to) => from < to <= |s.log| && forall i :: from <= i < to ==> s.log[i].Valid?
    case SkipMalformed(offset) => offset < |s.log| && s.log[offset].Malformed?
    case TakeSnapshot(entity) => true
    case WriteSnapshot(entity) => entity in s.snapshots
    case _ => true
  }

  function BitCounts(s: Sys, entity: string): map<string, int> {
    map m | m in METRICS :: |Bits(s, Target(entity, m))|
  }

  /** HSET of every field of a snapshot. */
  function Overwrite(counts: S.Counts, key: string, fields: map<string, int>): S.Counts {
    counts[key := (if key in counts then counts[key] else map[]) + fields]
  }

  function Next(s: Sys, a: Action): Sys
    requires Enabled(s, a)
  {
    match a
    case Toggle(t, user, add) =>
      if (user in Bits(s, t)) == add then s
      else s.(bits := s.bits[t := if add then Bits(s, t) + {user} else Bits(s, t) - {user}],
              unpublished := s.unpublished + [Change(t.entity, t.metric, user, if add then 1 else -1)])
    case Publish(i) =>
      s.(log := s.log + [Valid(s.unpublished[i])], unpublished := s.unpublished[..i] + s.unpublished[i + 1..])
    case PublishFails(i) => s.(unpublished := s.unpublished[..i] + s.unpublished[i + 1..])
    case Garbage => s.(log := s.log + [Malformed])
    case ApplyBatch(from, to) => s.(db := S.Apply(s.db, APPLIED, BatchEvents(s.log, from, to)).0)
    case SkipMalformed(offset) => s.(db := S.Advance(s.db, APPLIED, offset).0)
    case Mark(entity) => s.(db := s.db.(markers := s.db.markers + {MarkerKey(entity)}))
    case Unmark(entity) => s.(db := s.db.(markers := s.db.markers - {MarkerKey(entity)}))
    case TakeSnapshot(entity) => s.(snapshots := s.snapshots[entity := BitCounts(s, entity)])
    case WriteSnapshot(entity) =>
      s.(db := s.db.(counts := Overwrite(s.db.counts, CntKey(entity), s.snapshots[entity])))
  }

  function Initial(): Sys {
    Sys(map[], [], [], S.Db(map[], {}, map[]), map[])
  }

  /** The watermark lies inside the log. */
  ghost predicate Sane(s: Sys) {
    -1 <= Watermark(s) < |s.log|
  }

  // ---- Applying a stretch of the log to one counter ----

  /** One counter after a stretch, counting in what the clamp added. */
  function FoldCount(c: int, log: seq<Record>, t: Target): int {
    if log == [] then c
    else
      var before := FoldCount(c, log[..|log| - 1], t);
      var r := log[|log| - 1];
      if r.Valid? && Fits(r.change, t) then Max(0, before + r.change.delta) else before
  }

  /** What the clamp to zero added over a stretch. */
  function Clamped(c: int, log: seq<Record>, t: Target): int {
    FoldCount(c, log, t) - c - LogDelta(log, t)
  }

  lemma PutThenCount(counts: S.Counts, key: string, field: string, value: int, k: string, f: string)
    ensures S.Count(S.Put(counts, key, field, value), k, f) == if k == key && f == field then value else S.Count(counts, k, f)
  {
  }

  lemma BatchIsConsecutive(log: seq<Record>, from: nat, to: nat)
    requires from <= to <= |log| && forall i :: from <= i < to ==> log[i].Valid?
    ensures S.Consecutive(BatchEvents(log, from, to), from)
  {
    var es := BatchEvents(log, from, to);
    forall i | 0 <= i < |es| ensures es[i].offset == from + i && es[i].key.Some? && es[i].marker.Some? {
      assert es[i] == ScriptEvent(log[from + i], from + i);
    }
  }

  lemma BatchSuffix(log: seq<Record>, from: nat, to: nat, k: nat)
    requires from <= k <= to <= |log|
    ensures BatchEvents(log, from, to)[k - from..] == BatchEvents(log, k, to)
  {
  }

  /** A batch leaves every counter as the fold of its own changes, or alone under a marker. */
  lemma {:induction false} ApplyAllFolds(counts: S.Counts, markers: set<string>, log: seq<Record>, from: nat, to: nat, t: Target)
    requires from <= to <= |log| && forall i :: from <= i < to ==> log[i].Valid?
    ensures forall e :: e in BatchEvents(log, from, to) ==> e.key.Some? && e.marker.Some?
    ensures S.Count(S.ApplyAll(counts, markers, BatchEvents(log, from, to)), CntKey(t.entity), t.metric)
            == var c := S.Count(counts, CntKey(t.entity), t.metric);
               if MarkerKey(t.entity) in markers then c else FoldCount(c, log[from..to], t)
    decreases (to)
  {
    hide S.Put, S.Count, CntKey, MarkerKey;
    var es := BatchEvents(log, from, to);
    BatchIsConsecutive(log, from, to);
    if from < to {
      var init := BatchEvents(log, from, to - 1);
      ApplyAllFolds(counts, markers, log, from, to - 1, t);
      assert es[..|es| - 1] == init;
      assert log[from..to][..to - 1 - from] == log[from..to - 1];
      var before := S.ApplyAll(counts, markers, init);
      var stretch := log[from..to];
      assert stretch[|stretch| - 1] == log[to - 1] && stretch[..|stretch| - 1] == log[from..to - 1];
      var c := log[to - 1].change;
      assert es[|es| - 1] == ScriptEvent(Valid(c), to - 1);
      assert S.ApplyAll(counts, markers, es) == S.ApplyOne(before, markers, es[|es| - 1]);
      KeysAreInjective(c.entity, t.entity);
      var value := Max(0, S.Count(before, CntKey(c.entity), c.metric) + c.delta);
      PutThenCount(before, CntKey(c.entity), c.metric, value, CntKey(t.entity), t.metric);
    } else {
      assert log[from..to] == [];
    }
  }

  /** The part of a batch behind the watermark. */
  function FreshFrom(s: Sys, from: nat, to: nat): nat
    requires Watermark(s) >= -1
  {
    Min(to, Max(from, Watermark(s) + 1))
  }

  /** What one batch execution does, whatever its place: applies its fresh part and moves the watermark up. */
  lemma ApplyBatchEffect(s: Sys, from: nat, to: nat, t: Target)
    requires Sane(s) && Enabled(s, ApplyBatch(from, to))
    ensures var s' := Next(s, ApplyBatch(from, to));
            && Watermark(s') == Max(Watermark(s), to - 1)
            && s'.db.markers == s.db.markers
            && Counter(s', t) == if MarkerKey(t.entity) in s.db.markers then Counter(s, t)
                                 else FoldCount(Counter(s, t), s.log[FreshFrom(s, from, to)..to], t)
  {
    hide S.Apply, S.ApplyAll, S.Count, S.Current, CntKey, MarkerKey, FoldCount;
    var es := BatchEvents(s.log, from, to);
    BatchIsConsecutive(s.log, from, to);
    S.ApplyConsecutive(s.db, APPLIED, es, from);
    var k := FreshFrom(s, from, to);
    BatchSuffix(s.log, from, to, k);
    assert S.Fresh(es, from, Watermark(s)) == BatchEvents(s.log, k, to);
    ApplyAllFolds(s.db.counts, s.db.markers, s.log, k, to, t);
  }
}
