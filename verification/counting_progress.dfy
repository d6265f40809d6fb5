/**
 Progress of counting: a bit says what its last toggle asked for, whatever is in flight can always
 still arrive, and when everything has, each counter is the number of users who want to be counted.
 */
module CountingProgress {
  import opened Prelude
  import S = ApplyScript
  import opened Counting
  import opened CountingDrift
  import opened CountingRefinement

  // ---- Bits ----

  /** What the last toggle of a bit in a run asked for, or how it stood before. */
  function LastToggle(acts: seq<Action>, t: Target, user: nat, before: bool): bool
    decreases |acts|
  {
    if acts == [] then before
    else LastToggle(acts[1..], t, user, if acts[0].Toggle? && acts[0].t == t && acts[0].user == user then acts[0].add else before)
  }

  lemma StepOnBit(s: Sys, a: Action, t: Target, user: nat)
    requires Enabled(s, a)
    ensures user in Bits(Next(s, a), t)
            <==> if a.Toggle? && a.t == t && a.user == user then a.add else user in Bits(s, t)
  {
    hide S.Apply, S.Advance, BatchEvents, Overwrite, BitCounts;
  }

  /** In any run whatever, a bit stands as its last toggle left it. */
  lemma {:induction false} LastToggleDecides(s: Sys, acts: seq<Action>, t: Target, user: nat)
    requires Runs(s, acts)
    ensures user in Bits(Final(s, acts), t) <==> LastToggle(acts, t, user, user in Bits(s, t))
    decreases |acts|
  {
    hide Next, Enabled, Bits;
    if acts != [] {
      StepOnBit(s, acts[0], t, user);
      LastToggleDecides(Next(s, acts[0]), acts[1..], t, user);
    }
  }

  // ---- Everything can arrive ----

  ghost predicate Quiet(s: Sys) {
    s.unpublished == [] && Watermark(s) == |s.log| - 1
  }

  /** A step of the pipeline alone: nobody toggles and nobody repairs. */
  predicate Forwards(a: Action) {
    a.Publish? || a.ApplyBatch? || a.SkipMalformed?
  }

  lemma PublishNext(s: Sys)
    requires Inv(s) && s.unpublished != []
    ensures Enabled(s, Publish(0)) && InOrder(s, Publish(0)) && Inv(Next(s, Publish(0)))
    ensures Next(s, Publish(0)).unpublished == s.unpublished[1..]
  {
    hide Inv;
    PublishStep(s, 0);
    assert s.unpublished[..0] + s.unpublished[1..] == s.unpublished[1..];
  }

  /** The step that takes in the record right behind the watermark. */
  function NextRecord(s: Sys): Action
    requires -1 <= Watermark(s) < |s.log| - 1
  {
    if s.log[Watermark(s) + 1].Valid? then ApplyBatch(Watermark(s) + 1, Watermark(s) + 2) else SkipMalformed(Watermark(s) + 1)
  }

  lemma TakeNext(s: Sys)
    requires Inv(s) && -1 <= Watermark(s) < |s.log| - 1
    ensures var a := NextRecord(s);
            && Enabled(s, a) && InOrder(s, a) && Inv(Next(s, a))
            && Watermark(Next(s, a)) == Watermark(s) + 1
            && Next(s, a).log == s.log && Next(s, a).unpublished == s.unpublished
  {
    hide Inv, S.Apply, BatchEvents, CntKey, MarkerKey, FoldCount;
    var a := NextRecord(s);
    if a.ApplyBatch? {
      InvAtWatermark(s, Target("", ""));
      ApplyBatchEffect(s, a.from, a.to, Target("", ""));
    }
    InvStep(s, a);
  }

  lemma StepsJoin(s: Sys, a: Action, rest: seq<Action>)
    requires Enabled(s, a) && InOrder(s, a) && InOrderRun(Next(s, a), rest) && Runs(Next(s, a), rest)
    ensures InOrderRun(s, [a] + rest) && Runs(s, [a] + rest) && Final(s, [a] + rest) == Final(Next(s, a), rest)
  {
    hide Next, Enabled, InOrder;
    assert ([a] + rest)[1..] == rest;
  }

  /**
   From every state of every in-order run, steps of the pipeline alone lead to a quiet state, where
   nothing is left to publish or to apply.
   */
  lemma {:induction false} CanAlwaysDrain(s: Sys) returns (acts: seq<Action>)
    requires Inv(s)
    ensures InOrderRun(s, acts) && Runs(s, acts) && (forall a :: a in acts ==> Forwards(a))
    ensures Inv(Final(s, acts)) && Quiet(Final(s, acts))
    decreases |s.unpublished|, |s.log| - Watermark(s)
  {
    hide Inv, Next, Enabled, InOrder;
    InvAtWatermark(s, Target("", ""));
    if s.unpublished != [] {
      PublishNext(s);
      var rest := CanAlwaysDrain(Next(s, Publish(0)));
      StepsJoin(s, Publish(0), rest);
      acts := [Publish(0)] + rest;
    } else if Watermark(s) < |s.log| - 1 {
      TakeNext(s);
      var rest := CanAlwaysDrain(Next(s, NextRecord(s)));
      StepsJoin(s, NextRecord(s), rest);
      acts := [NextRecord(s)] + rest;
    } else {
      acts := [];
    }
  }

  /**
   In a quiet state of an in-order run, a counter is the number of users whose last toggle was an
   add: what the users asked for is what is counted.
   */
  lemma QuietCountsAreRight(acts: seq<Action>, t: Target, users: set<nat>)
    requires InOrderRun(Initial(), acts) && Runs(Initial(), acts) && Quiet(Final(Initial(), acts))
    requires forall u :: u in users <==> LastToggle(acts, t, u, false)
    ensures Counter(Final(Initial(), acts), t) == |users|
  {
    hide Final, Runs, InOrderRun, Inv, Replay, Counter, LastToggle;
    InitiallyTrue();
    InvHolds(Initial(), acts);
    var s := Final(Initial(), acts);
    BitsAreCounterPlusInFlight(s, t);
    InvAtWatermark(s, t);
    NothingInFlight(s, t);
    forall u ensures u in Bits(s, t) <==> u in users {
      LastToggleDecides(Initial(), acts, t, u);
    }
    assert Bits(s, t) == users;
  }

  lemma NothingInFlight(s: Sys, t: Target)
    requires Quiet(s) && Sane(s)
    ensures InFlight(s, t) == 0
  {
    assert s.log[Watermark(s) + 1..] == [];
  }

  // ---- Rebuild markers ----

  /** No step lifts the entity's marker or overwrites its counters. */
  predicate LeavesMarked(a: Action, entity: string) {
    !(a.Unmark? && a.entity == entity) && !(a.WriteSnapshot? && a.entity == entity)
  }

  lemma MarkedStep(s: Sys, a: Action, t: Target)
    requires Sane(s) && Enabled(s, a) && LeavesMarked(a, t.entity) && MarkerKey(t.entity) in s.db.markers
    ensures MarkerKey(t.entity) in Next(s, a).db.markers && Counter(Next(s, a), t) == Counter(s, t)
  {
    hide S.Apply, S.Count, CntKey, MarkerKey, BatchEvents, FoldCount, Overwrite;
    match a
    case ApplyBatch(from, to) => ApplyBatchEffect(s, from, to, t);
    case WriteSnapshot(entity) => OverwriteCount(s, entity, t);
    case Unmark(entity) => KeysAreInjective(entity, t.entity);
    case _ =>
  }

  /** From the marking of an entity on, until the marker is lifted or a repair writes, no batch moves its counters. */
  lemma {:induction false} MarkHoldsBack(s: Sys, acts: seq<Action>, t: Target)
    requires Sane(s) && Runs(Next(s, Mark(t.entity)), acts) && forall a :: a in acts ==> LeavesMarked(a, t.entity)
    ensures Counter(Final(Next(s, Mark(t.entity)), acts), t) == Counter(s, t)
  {
    hide S.Count, CntKey, MarkerKey;
    var marked := Next(s, Mark(t.entity));
    assert Counter(marked, t) == Counter(s, t) && Sane(marked);
    MarkedStays(marked, acts, t);
  }

  lemma {:induction false} MarkedStays(s: Sys, acts: seq<Action>, t: Target)
    requires Sane(s) && Runs(s, acts) && MarkerKey(t.entity) in s.db.markers
    requires forall a :: a in acts ==> LeavesMarked(a, t.entity)
    ensures Counter(Final(s, acts), t) == Counter(s, t)
    decreases |acts|
  {
    hide Next, Enabled, Sane, Counter, MarkerKey, LeavesMarked;
    if acts != [] {
      assert acts[0] in acts;
      DriftAccount(s, acts[0], t);
      MarkedStep(s, acts[0], t);
      MarkedStays(Next(s, acts[0]), acts[1..], t);
    }
  }

  /** Once the marker is lifted, the next batch counts for the entity what is new in it. */
  lemma UnmarkedIsCounted(s: Sys, from: nat, to: nat, t: Target)
    requires Sane(s) && Enabled(s, ApplyBatch(from, to))
    ensures var lifted := Next(s, Unmark(t.entity));
            && Enabled(lifted, ApplyBatch(from, to))
            && Counter(Next(lifted, ApplyBatch(from, to)), t) == FoldCount(Counter(s, t), s.log[FreshFrom(s, from, to)..to], t)
  {
    hide S.Apply, S.Count, CntKey, MarkerKey, BatchEvents, FoldCount;
    var lifted := Next(s, Unmark(t.entity));
    assert Counter(lifted, t) == Counter(s, t) && Watermark(lifted) == Watermark(s) && lifted.log == s.log;
    ApplyBatchEffect(lifted, from, to, t);
  }
}
