/**
 What the watermark guarantees over any sequence of batch executions and skips of one log, in
 any order and with any repetition: nothing is counted twice, and nothing is missed exactly
 when no step jumps over a usable record.
 */
module CountingWatermark {
  import opened Prelude
  import S = ApplyScript
  import opened Counting
  import opened CountingDrift

  predicate Delivery(a: Action) {
    a.ApplyBatch? || a.SkipMalformed?
  }

  function Range(i: nat, j: nat): seq<nat> {
    if i >= j then [] else seq(j - i, k requires 0 <= k < j - i => i + k)
  }

  /** The offsets one step counts. */
  function AppliedBy(s: Sys, a: Action): seq<nat>
    requires Sane(s) && Enabled(s, a)
  {
    if a.ApplyBatch? then Range(FreshFrom(s, a.from, a.to), a.to) else []
  }

  /** The offsets a run counts, in order. */
  function Applied(s: Sys, acts: seq<Action>): seq<nat>
    requires Sane(s) && Runs(s, acts)
    decreases |acts|
  {
    if acts == [] then []
    else
      DriftAccount(s, acts[0], Target("", ""));
      AppliedBy(s, acts[0]) + Applied(Next(s, acts[0]), acts[1..])
  }

  ghost predicate Deliveries(acts: seq<Action>) {
    forall a :: a in acts ==> Delivery(a)
  }

  /** One counter after counting the records at some offsets. */
  function FoldAt(c: int, log: seq<Record>, offsets: seq<nat>, t: Target): int {
    if offsets == [] then c
    else
      var before := FoldAt(c, log, offsets[..|offsets| - 1], t);
      var o := offsets[|offsets| - 1];
      if o < |log| && log[o].Valid? && Fits(log[o].change, t) then Max(0, before + log[o].change.delta) else before
  }

  ghost predicate StrictlyRising(offsets: seq<nat>, above: int, upTo: int) {
    && (forall i, j :: 0 <= i < j < |offsets| ==> offsets[i] < offsets[j])
    && forall o :: o in offsets ==> above < o <= upTo
  }

  // ---- One step ----

  lemma DeliveryStep(s: Sys, a: Action)
    requires Sane(s) && Enabled(s, a) && Delivery(a)
    ensures var s' := Next(s, a);
            && Sane(s') && s'.log == s.log && s'.db.markers == s.db.markers
            && Watermark(s') == Max(Watermark(s), if a.ApplyBatch? then a.to - 1 else a.offset)
            && StrictlyRising(AppliedBy(s, a), Watermark(s), Watermark(s'))
            && (forall o :: o in AppliedBy(s, a) ==> o < |s.log| && s.log[o].Valid?)
  {
    hide S.Apply, S.Count, CntKey, MarkerKey, BatchEvents, Drift, DriftEffect, FoldCount, FreshFrom;
    DriftAccount(s, a, Target("", ""));
    if a.ApplyBatch? {
      ApplyBatchEffect(s, a.from, a.to, Target("", ""));
      FreshRange(s, a.from, a.to);
    }
  }

  lemma FreshRange(s: Sys, from: nat, to: nat)
    requires Sane(s) && Enabled(s, ApplyBatch(from, to))
    ensures StrictlyRising(Range(FreshFrom(s, from, to), to), Watermark(s), Max(Watermark(s), to - 1))
    ensures forall o :: o in Range(FreshFrom(s, from, to), to) ==> o < |s.log| && s.log[o].Valid?
  {
    hide S.Apply, S.Current, BatchEvents;
  }

  lemma {:induction false} FoldRange(c: int, log: seq<Record>, i: nat, j: nat, t: Target)
    requires i <= j <= |log|
    ensures FoldAt(c, log, Range(i, j), t) == FoldCount(c, log[i..j], t)
    decreases j
  {
    if i < j {
      FoldRange(c, log, i, j - 1, t);
      var offsets, stretch := Range(i, j), log[i..j];
      assert offsets[..|offsets| - 1] == Range(i, j - 1) && offsets[|offsets| - 1] == j - 1;
      assert stretch[..|stretch| - 1] == log[i..j - 1] && stretch[|stretch| - 1] == log[j - 1];
    } else {
      assert log[i..j] == [];
    }
  }

  lemma StepCounts(s: Sys, a: Action, t: Target)
    requires Sane(s) && Enabled(s, a) && Delivery(a) && MarkerKey(t.entity) !in s.db.markers
    ensures Counter(Next(s, a), t) == FoldAt(Counter(s, t), s.log, AppliedBy(s, a), t)
  {
    hide S.Apply, S.Count, CntKey, BatchEvents, FoldCount, FoldAt, MarkerKey;
    DeliveryStep(s, a);
    if a.ApplyBatch? {
      ApplyBatchEffect(s, a.from, a.to, t);
      FoldRange(Counter(s, t), s.log, FreshFrom(s, a.from, a.to), a.to, t);
    } else {
      FoldAtNothing(Counter(s, t), s.log, t);
    }
  }

  lemma FoldAtNothing(c: int, log: seq<Record>, t: Target)
    ensures FoldAt(c, log, [], t) == c
  {
  }

  lemma {:induction false} FoldAtConcat(c: int, log: seq<Record>, a: seq<nat>, b: seq<nat>, t: Target)
    ensures FoldAt(c, log, a + b, t) == FoldAt(FoldAt(c, log, a, t), log, b, t)
  {
    if b == [] {
      assert a + b == a;
    } else {
      assert (a + b)[..|a + b| - 1] == a + b[..|b| - 1];
      FoldAtConcat(c, log, a, b[..|b| - 1], t);
    }
  }

  // ---- Runs ----

  /**
   Over any run of deliveries the watermark never falls, every offset is counted at most once
   and in rising order, and a counter is the fold of exactly the counted records.
   */
  lemma {:induction false} CountedAtMostOnce(s: Sys, acts: seq<Action>, t: Target)
    requires Sane(s) && Runs(s, acts) && Deliveries(acts)
    ensures var s' := Final(s, acts);
            && Sane(s') && Watermark(s') >= Watermark(s) && s'.log == s.log && s'.db.markers == s.db.markers
            && StrictlyRising(Applied(s, acts), Watermark(s), Watermark(s'))
            && (forall o :: o in Applied(s, acts) ==> o < |s.log| && s.log[o].Valid?)
            && (MarkerKey(t.entity) !in s.db.markers ==>
                  Counter(s', t) == FoldAt(Counter(s, t), s.log, Applied(s, acts), t))
    decreases |acts|
  {
    hide Next, Enabled, Counter, Watermark, FoldAt, AppliedBy, MarkerKey, Sane;
    if acts == [] {
      FoldAtNothing(Counter(s, t), s.log, t);
    } else {
      assert acts[0] in acts && forall a :: a in acts[1..] ==> a in acts;
      var s1 := Next(s, acts[0]);
      DeliveryStep(s, acts[0]);
      CountedAtMostOnce(s1, acts[1..], t);
      var first, rest := AppliedBy(s, acts[0]), Applied(s1, acts[1..]);
      RisingJoins(first, rest, Watermark(s), Watermark(s1), Watermark(Final(s, acts)));
      if MarkerKey(t.entity) !in s.db.markers {
        StepCounts(s, acts[0], t);
        FoldAtConcat(Counter(s, t), s.log, first, rest, t);
      }
    }
  }

  lemma RisingJoins(a: seq<nat>, b: seq<nat>, low: int, mid: int, high: int)
    requires StrictlyRising(a, low, mid) && StrictlyRising(b, mid, high) && low <= mid <= high
    ensures StrictlyRising(a + b, low, high)
  {
    var all := a + b;
    forall i, j | 0 <= i < j < |all| ensures all[i] < all[j] {
      if i < |a| <= j {
        assert all[i] in a && all[j] in b;
      }
    }
  }

  // ---- Holes ----

  /** No usable record lies strictly between the watermark and an offset. */
  ghost predicate NothingBetween(s: Sys, offset: int) {
    forall o: nat :: Watermark(s) < o < offset && o < |s.log| ==> s.log[o].Malformed?
  }

  /** A step that moves the watermark jumps over no usable record. */
  ghost predicate NoHole(s: Sys, a: Action)
    requires Delivery(a)
  {
    match a
    case ApplyBatch(from, to) => to - 1 > Watermark(s) ==> NothingBetween(s, from)
    case SkipMalformed(offset) => NothingBetween(s, offset)
  }

  ghost predicate NoHoles(s: Sys, acts: seq<Action>)
    requires Runs(s, acts) && Deliveries(acts)
    decreases |acts|
  {
    acts == [] || (
      assert acts[0] in acts;
      assert forall a :: a in acts[1..] ==> a in acts;
      NoHole(s, acts[0]) && NoHoles(Next(s, acts[0]), acts[1..]))
  }

  /** Every usable record a run moved the watermark over was counted. */
  ghost predicate Complete(s: Sys, acts: seq<Action>)
    requires Sane(s) && Runs(s, acts)
  {
    forall o: nat :: Watermark(s) < o <= Watermark(Final(s, acts)) && o < |s.log| && s.log[o].Valid? ==> o in Applied(s, acts)
  }

  lemma StepCompleteIff(s: Sys, a: Action)
    requires Sane(s) && Enabled(s, a) && Delivery(a)
    ensures NoHole(s, a) <==>
            forall o: nat :: Watermark(s) < o <= Watermark(Next(s, a)) && o < |s.log| && s.log[o].Valid? ==> o in AppliedBy(s, a)
  {
    hide S.Apply, S.Count, CntKey, BatchEvents;
    DeliveryStep(s, a);
    if a.ApplyBatch? {
      var k := FreshFrom(s, a.from, a.to);
      forall o: nat ensures o in AppliedBy(s, a) <==> k <= o < a.to {
        if k <= o < a.to {
          assert Range(k, a.to)[o - k] == o;
        }
      }
    } else if a.offset > Watermark(s) {
      assert s.log[a.offset].Malformed?;
    }
  }

  /** A run misses no usable record if and only if none of its steps jumps over one. */
  lemma {:induction false} CompleteIffNoHoles(s: Sys, acts: seq<Action>)
    requires Sane(s) && Runs(s, acts) && Deliveries(acts)
    ensures Complete(s, acts) <==> NoHoles(s, acts)
    decreases |acts|
  {
    hide Next, Enabled, Watermark, AppliedBy, NoHole, Sane;
    if acts != [] {
      assert acts[0] in acts && forall a :: a in acts[1..] ==> a in acts;
      var s1 := Next(s, acts[0]);
      DeliveryStep(s, acts[0]);
      StepCompleteIff(s, acts[0]);
      CompleteIffNoHoles(s1, acts[1..]);
      CountedAtMostOnce(s1, acts[1..], Target("", ""));
      JoinComplete(s, acts, s1, AppliedBy(s, acts[0]), Applied(s1, acts[1..]),
                   Watermark(s), Watermark(s1), Watermark(Final(s, acts)));
    }
  }

  lemma JoinComplete(s: Sys, acts: seq<Action>, s1: Sys, first: seq<nat>, rest: seq<nat>, low: int, mid: int, high: int)
    requires low <= mid <= high && StrictlyRising(first, low, mid) && StrictlyRising(rest, mid, high)
    ensures (forall o: nat :: low < o <= high && o < |s.log| && s.log[o].Valid? ==> o in first + rest) <==>
            (forall o: nat :: low < o <= mid && o < |s.log| && s.log[o].Valid? ==> o in first) &&
            (forall o: nat :: mid < o <= high && o < |s.log| && s.log[o].Valid? ==> o in rest)
  {
    if forall o: nat :: low < o <= high && o < |s.log| && s.log[o].Valid? ==> o in first + rest {
      forall o: nat | low < o <= mid && o < |s.log| && s.log[o].Valid? ensures o in first {
        assert o in first + rest;
      }
      forall o: nat | mid < o <= high && o < |s.log| && s.log[o].Valid? ensures o in rest {
        assert o in first + rest;
      }
    }
  }

  // ---- One fold from left to right ----

  lemma {:induction false} FoldConcat(c: int, a: seq<Record>, b: seq<Record>, t: Target)
    ensures FoldCount(c, a + b, t) == FoldCount(FoldCount(c, a, t), b, t)
  {
    if b == [] {
      assert a + b == a;
    } else {
      assert (a + b)[..|a + b| - 1] == a + b[..|b| - 1];
      FoldConcat(c, a, b[..|b| - 1], t);
    }
  }

  lemma {:induction false} FoldGarbage(c: int, log: seq<Record>, t: Target)
    requires forall r :: r in log ==> r.Malformed?
    ensures FoldCount(c, log, t) == c
  {
    if log != [] {
      assert log[|log| - 1] in log;
      FoldGarbage(c, log[..|log| - 1], t);
    }
  }

  lemma NoHoleStepFolds(s: Sys, a: Action, t: Target)
    requires Sane(s) && Enabled(s, a) && Delivery(a) && NoHole(s, a) && MarkerKey(t.entity) !in s.db.markers
    ensures Sane(Next(s, a)) && Watermark(s) <= Watermark(Next(s, a))
    ensures Counter(Next(s, a), t) == FoldCount(Counter(s, t), s.log[Watermark(s) + 1..Watermark(Next(s, a)) + 1], t)
  {
    hide S.Apply, S.Count, CntKey, BatchEvents, FoldCount, MarkerKey;
    DeliveryStep(s, a);
    var next, end := Watermark(s) + 1, Watermark(Next(s, a)) + 1;
    var c := Counter(s, t);
    if end == next {
      assert s.log[next..end] == [];
      FoldNothing(c, t);
      if a.ApplyBatch? {
        ApplyBatchEffect(s, a.from, a.to, t);
        assert s.log[FreshFrom(s, a.from, a.to)..a.to] == [];
      }
    } else if a.ApplyBatch? {
      ApplyBatchEffect(s, a.from, a.to, t);
      var k := FreshFrom(s, a.from, a.to);
      assert s.log[next..end] == s.log[next..k] + s.log[k..end];
      FoldGarbage(c, s.log[next..k], t);
      FoldConcat(c, s.log[next..k], s.log[k..end], t);
    } else {
      FoldGarbage(c, s.log[next..end], t);
    }
  }

  /**
   Any overlapping, repeated or partial cover of the log without a hole leaves every counter as
   one left-to-right fold of the log up to the watermark.
   */
  lemma {:induction false} HolelessRunIsOneFold(s: Sys, acts: seq<Action>, t: Target)
    requires Sane(s) && Runs(s, acts) && Deliveries(acts) && NoHoles(s, acts)
    requires MarkerKey(t.entity) !in s.db.markers
    ensures var s' := Final(s, acts);
            && Sane(s') && Watermark(s) <= Watermark(s') && s'.log == s.log
            && Counter(s', t) == FoldCount(Counter(s, t), s.log[Watermark(s) + 1..Watermark(s') + 1], t)
    decreases |acts|
  {
    hide Next, Enabled, Counter, FoldCount, MarkerKey, NoHole, S.Current;
    if acts == [] {
      assert s.log[Watermark(s) + 1..Watermark(s) + 1] == [];
      FoldNothing(Counter(s, t), t);
    } else {
      assert acts[0] in acts && forall a :: a in acts[1..] ==> a in acts;
      var s1 := Next(s, acts[0]);
      DeliveryStep(s, acts[0]);
      NoHoleStepFolds(s, acts[0], t);
      HolelessRunIsOneFold(s1, acts[1..], t);
      var i, j, k := Watermark(s) + 1, Watermark(s1) + 1, Watermark(Final(s, acts)) + 1;
      assert s.log[i..k] == s.log[i..j] + s.log[j..k];
      FoldConcat(Counter(s, t), s.log[i..j], s.log[j..k], t);
    }
  }

  /**
   A malformed message moves the watermark before the older pending batch is flushed: when that
   flush comes, it counts nothing. In the other order it would have counted all that was new in it.
   */
  lemma SkipBeforeFlushLosesTheBatch(s: Sys, offset: nat, from: nat, to: nat, t: Target)
    requires Sane(s) && Enabled(s, SkipMalformed(offset)) && Enabled(s, ApplyBatch(from, to)) && to <= offset
    requires MarkerKey(t.entity) !in s.db.markers
    ensures var skipped, flushed := Next(s, SkipMalformed(offset)), Next(s, ApplyBatch(from, to));
            && Counter(Next(skipped, ApplyBatch(from, to)), t) == Counter(s, t)
            && Counter(Next(flushed, SkipMalformed(offset)), t)
               == FoldCount(Counter(s, t), s.log[FreshFrom(s, from, to)..to], t)
  {
    hide S.Apply, S.Advance, S.Count, CntKey, BatchEvents, FoldCount, MarkerKey;
    var skip, batch := SkipMalformed(offset), ApplyBatch(from, to);
    DeliveryStep(s, skip);
    SkipCountsNothing(s, offset, t);
    var skipped := Next(s, skip);
    ApplyBatchEffect(skipped, from, to, t);
    assert skipped.log[FreshFrom(skipped, from, to)..to] == [];
    FoldNothing(Counter(s, t), t);
    DeliveryStep(s, batch);
    ApplyBatchEffect(s, from, to, t);
    SkipCountsNothing(Next(s, batch), offset, t);
  }

  lemma SkipCountsNothing(s: Sys, offset: nat, t: Target)
    requires Sane(s) && Enabled(s, SkipMalformed(offset))
    ensures Counter(Next(s, SkipMalformed(offset)), t) == Counter(s, t)
  {
    hide S.Count, CntKey;
  }
}
