/**
 Drift accounting: exactly which steps of the counting pipeline move a counter away from the
 bitmap, and why a repair brings it back.
 */
module CountingDrift {
  import opened Prelude
  import S = ApplyScript
  import opened Counting

  // ---- Sums ----

  lemma {:induction false} LogDeltaConcat(a: seq<Record>, b: seq<Record>, t: Target)
    ensures LogDelta(a + b, t) == LogDelta(a, t) + LogDelta(b, t)
  {
    if b == [] {
      assert a + b == a;
    } else {
      LogDeltaConcat(a, b[..|b| - 1], t);
      assert (a + b)[..|a + b| - 1] == a + b[..|b| - 1];
    }
  }

  lemma {:induction false} QueueDeltaConcat(a: seq<Change>, b: seq<Change>, t: Target)
    ensures QueueDelta(a + b, t) == QueueDelta(a, t) + QueueDelta(b, t)
  {
    if b == [] {
      assert a + b == a;
    } else {
      QueueDeltaConcat(a, b[..|b| - 1], t);
      assert (a + b)[..|a + b| - 1] == a + b[..|b| - 1];
    }
  }

  lemma QueueDeltaOne(c: Change, t: Target)
    ensures QueueDelta([c], t) == DeltaOf(c, t)
  {
    assert [c][..0] == [];
  }

  lemma LogDeltaOne(r: Record, t: Target)
    ensures LogDelta([r], t) == RecordDelta(r, t)
  {
    assert [r][..0] == [];
  }

  lemma QueueWithout(q: seq<Change>, i: nat, t: Target)
    requires i < |q|
    ensures QueueDelta(q[..i] + q[i + 1..], t) == QueueDelta(q, t) - DeltaOf(q[i], t)
  {
    assert q == q[..i] + [q[i]] + q[i + 1..];
    QueueDeltaConcat(q[..i] + [q[i]], q[i + 1..], t);
    QueueDeltaConcat(q[..i], [q[i]], t);
    QueueDeltaConcat(q[..i], q[i + 1..], t);
    QueueDeltaOne(q[i], t);
  }

  /** Splitting what lies behind a watermark at a later offset. */
  lemma LogDeltaSplit(log: seq<Record>, i: nat, j: nat, t: Target)
    requires i <= j <= |log|
    ensures LogDelta(log[i..], t) == LogDelta(log[i..j], t) + LogDelta(log[j..], t)
  {
    assert log[i..] == log[i..j] + log[j..];
    LogDeltaConcat(log[i..j], log[j..], t);
  }

  // ---- The account ----

  /** What a step changes in the drift of one counter. */
  function DriftEffect(s: Sys, a: Action, t: Target): int
    requires Sane(s) && Enabled(s, a)
  {
    var next := Watermark(s) + 1;
    match a
    case PublishFails(i) => -DeltaOf(s.unpublished[i], t)
    case ApplyBatch(from, to) =>
      if to <= next then 0
      else
        var k := Max(from, next);
        -LogDelta(s.log[next..k], t)
        + if MarkerKey(t.entity) in s.db.markers then -LogDelta(s.log[k..to], t) else Clamped(Counter(s, t), s.log[k..to], t)
    case SkipMalformed(offset) => if offset < next then 0 else -LogDelta(s.log[next..offset], t)
    case WriteSnapshot(entity) =>
      if entity == t.entity && t.metric in s.snapshots[entity] then s.snapshots[entity][t.metric] - Counter(s, t) else 0
    case _ => 0
  }

  /**
   Drift changes only by a failed publish, a skipped hole, an apply under a rebuild marker, a
   clamp, or a repair, and by exactly the amount of each.
   */
  lemma DriftAccount(s: Sys, a: Action, t: Target)
    requires Sane(s) && Enabled(s, a)
    ensures Sane(Next(s, a))
    ensures Drift(Next(s, a), t) == Drift(s, t) + DriftEffect(s, a, t)
  {
    hide LogDelta, QueueDelta, FoldCount, S.Apply, S.Count, CntKey, MarkerKey, BatchEvents;
    match a
    case Toggle(_, _, _) => ToggleAccount(s, a, t);
    case Publish(i) => PublishAccount(s, i, t);
    case PublishFails(i) => QueueWithout(s.unpublished, i, t);
    case Garbage => GarbageAccount(s, t);
    case ApplyBatch(from, to) => ApplyAccount(s, from, to, t);
    case SkipMalformed(offset) => SkipAccount(s, offset, t);
    case Mark(_) =>
    case Unmark(_) =>
    case TakeSnapshot(_) =>
    case WriteSnapshot(entity) => OverwriteCount(s, entity, t);
  }

  lemma ToggleAccount(s: Sys, a: Action, t: Target)
    requires Sane(s) && a.Toggle?
    ensures Sane(Next(s, a)) && Drift(Next(s, a), t) == Drift(s, t)
  {
    hide LogDelta, QueueDelta, S.Count, CntKey, MarkerKey;
    if (a.user in Bits(s, a.t)) != a.add {
      var c := Change(a.t.entity, a.t.metric, a.user, if a.add then 1 else -1);
      QueueDeltaConcat(s.unpublished, [c], t);
      QueueDeltaOne(c, t);
      var before := Bits(s, a.t);
      if a.add {
        assert |before + {a.user}| == |before| + 1;
      } else {
        assert |before - {a.user}| == |before| - 1;
      }
      assert Fits(c, t) <==> a.t == t;
    }
  }

  lemma PublishAccount(s: Sys, i: nat, t: Target)
    requires Sane(s) && i < |s.unpublished|
    ensures Sane(Next(s, Publish(i))) && Drift(Next(s, Publish(i)), t) == Drift(s, t)
  {
    hide LogDelta, QueueDelta, S.Count, CntKey, MarkerKey;
    var r := Valid(s.unpublished[i]);
    var next := Watermark(s) + 1;
    QueueWithout(s.unpublished, i, t);
    assert (s.log + [r])[next..] == s.log[next..] + [r];
    LogDeltaConcat(s.log[next..], [r], t);
    LogDeltaOne(r, t);
  }

  lemma GarbageAccount(s: Sys, t: Target)
    requires Sane(s)
    ensures Sane(Next(s, Garbage)) && Drift(Next(s, Garbage), t) == Drift(s, t)
  {
    hide LogDelta, QueueDelta, S.Count, CntKey, MarkerKey;
    var next := Watermark(s) + 1;
    assert (s.log + [Malformed])[next..] == s.log[next..] + [Malformed];
    LogDeltaConcat(s.log[next..], [Malformed], t);
    LogDeltaOne(Malformed, t);
  }

  lemma ApplyAccount(s: Sys, from: nat, to: nat, t: Target)
    requires Sane(s) && Enabled(s, ApplyBatch(from, to))
    ensures Sane(Next(s, ApplyBatch(from, to)))
    ensures Drift(Next(s, ApplyBatch(from, to)), t) == Drift(s, t) + DriftEffect(s, ApplyBatch(from, to), t)
  {
    hide LogDelta, QueueDelta, S.Count, CntKey, MarkerKey, S.Apply, BatchEvents, FoldCount;
    ApplyBatchEffect(s, from, to, t);
    var next := Watermark(s) + 1;
    var k := FreshFrom(s, from, to);
    if to <= next {
      assert s.log[k..to] == [];
      FoldNothing(Counter(s, t), t);
    } else {
      LogDeltaSplit(s.log, next, k, t);
      LogDeltaSplit(s.log, k, to, t);
    }
  }

  lemma FoldNothing(c: int, t: Target)
    ensures FoldCount(c, [], t) == c && LogDelta([], t) == 0
  {
  }

  lemma SkipAccount(s: Sys, offset: nat, t: Target)
    requires Sane(s) && Enabled(s, SkipMalformed(offset))
    ensures Sane(Next(s, SkipMalformed(offset)))
    ensures Drift(Next(s, SkipMalformed(offset)), t) == Drift(s, t) + DriftEffect(s, SkipMalformed(offset), t)
  {
    hide LogDelta, QueueDelta, S.Count, CntKey, MarkerKey;
    var next := Watermark(s) + 1;
    if offset >= next {
      LogDeltaSplit(s.log, next, offset, t);
      LogDeltaSplit(s.log, offset, offset + 1, t);
      assert s.log[offset..offset + 1] == [Malformed];
      LogDeltaOne(Malformed, t);
    }
  }

  lemma OverwriteCount(s: Sys, entity: string, t: Target)
    requires Enabled(s, WriteSnapshot(entity))
    ensures Counter(Next(s, WriteSnapshot(entity)), t)
            == if entity == t.entity && t.metric in s.snapshots[entity] then s.snapshots[entity][t.metric] else Counter(s, t)
  {
    hide CntKey;
    KeysAreInjective(entity, t.entity);
  }

  // ---- Runs ----

  ghost predicate Runs(s: Sys, acts: seq<Action>)
    decreases |acts|
  {
    acts == [] || (Enabled(s, acts[0]) && Runs(Next(s, acts[0]), acts[1..]))
  }

  function Final(s: Sys, acts: seq<Action>): Sys
    requires Runs(s, acts)
    decreases |acts|
  {
    if acts == [] then s else Final(Next(s, acts[0]), acts[1..])
  }

  function TotalEffect(s: Sys, acts: seq<Action>, t: Target): int
    requires Runs(s, acts) && Sane(s)
    decreases |acts|
  {
    if acts == [] then 0
    else
      DriftAccount(s, acts[0], t);
      DriftEffect(s, acts[0], t) + TotalEffect(Next(s, acts[0]), acts[1..], t)
  }

  /** Over any run the drift is the sum of the effects of its steps. */
  lemma {:induction false} DriftOfRun(s: Sys, acts: seq<Action>, t: Target)
    requires Sane(s) && Runs(s, acts)
    ensures Sane(Final(s, acts)) && Drift(Final(s, acts), t) == Drift(s, t) + TotalEffect(s, acts, t)
    decreases |acts|
  {
    hide Drift, DriftEffect, Next, Enabled, Sane;
    if acts != [] {
      DriftAccount(s, acts[0], t);
      DriftOfRun(Next(s, acts[0]), acts[1..], t);
    }
  }

  // ---- Repair ----

  /** No step toggles a bit of the entity, and no other repair snapshots it. */
  predicate LeavesEntity(a: Action, entity: string) {
    !(a.Toggle? && a.t.entity == entity) && !(a.TakeSnapshot? && a.entity == entity)
  }

  lemma {:induction false} SnapshotStays(s: Sys, acts: seq<Action>, entity: string)
    requires Runs(s, acts) && entity in s.snapshots && forall a :: a in acts ==> LeavesEntity(a, entity)
    ensures var s' := Final(s, acts);
            && entity in s'.snapshots && s'.snapshots[entity] == s.snapshots[entity]
            && forall m :: Bits(s', Target(entity, m)) == Bits(s, Target(entity, m))
    decreases |acts|
  {
    hide S.Apply, S.Advance, BatchEvents, Overwrite;
    if acts != [] {
      assert LeavesEntity(acts[0], entity);
      SnapshotStays(Next(s, acts[0]), acts[1..], entity);
    }
  }

  /**
   A repair, whatever happens between its count and its write except toggles of the entity,
   makes the drift exactly what is in flight: it restores counter == BITCOUNT, from any earlier
   drift, if and only if nothing nets out in flight.
   */
  lemma RepairRestores(s: Sys, acts: seq<Action>, t: Target)
    requires Sane(s) && t.metric in {"like", "fav", "follower", "following", "posts"}
    requires Runs(Next(s, TakeSnapshot(t.entity)), acts) && forall a :: a in acts ==> LeavesEntity(a, t.entity)
    ensures var before := Final(Next(s, TakeSnapshot(t.entity)), acts);
            && Sane(before) && Enabled(before, WriteSnapshot(t.entity))
            && var after := Next(before, WriteSnapshot(t.entity));
            && Sane(after) && Counter(after, t) == |Bits(after, t)|
            && Drift(after, t) == InFlight(after, t)
            && (Drift(after, t) == 0 <==> InFlight(before, t) == 0)
  {
    hide Drift, InFlight, Counter, Bits, Final, Sane, Next, Runs;
    var s1 := Next(s, TakeSnapshot(t.entity));
    DriftAccount(s, TakeSnapshot(t.entity), t);
    SnapshotTaken(s, t);
    SnapshotStays(s1, acts, t.entity);
    DriftOfRun(s1, acts, t);
    assert Target(t.entity, t.metric) == t;
    WriteRestores(Final(s1, acts), t);
  }

  lemma SnapshotTaken(s: Sys, t: Target)
    requires t.metric in METRICS
    ensures var s1 := Next(s, TakeSnapshot(t.entity));
            && t.entity in s1.snapshots && t.metric in s1.snapshots[t.entity]
            && s1.snapshots[t.entity][t.metric] == |Bits(s1, t)|
  {
    assert Target(t.entity, t.metric) == t;
  }

  lemma WriteRestores(before: Sys, t: Target)
    requires Sane(before) && t.entity in before.snapshots && t.metric in before.snapshots[t.entity]
    requires before.snapshots[t.entity][t.metric] == |Bits(before, t)|
    ensures Enabled(before, WriteSnapshot(t.entity))
    ensures var after := Next(before, WriteSnapshot(t.entity));
            && Sane(after) && Counter(after, t) == |Bits(after, t)|
            && Drift(after, t) == InFlight(after, t) == InFlight(before, t)
  {
    hide LogDelta, QueueDelta, S.Count, CntKey;
    OverwriteCount(before, t.entity, t);
  }
}
