/**
 From a toggle to the machine of counters: what a toggle publishes is counted by the consumer as
 the change the machine speaks of, and every turn of the fetch loop is steps of the machine.
 */
module CounterBridge {
  import opened Prelude
  import opened CounterKeys
  import opened Batching
  import opened CounterFlush
  import S = ApplyScript
  import C = Counting
  import opened CountingDrift
  import R = CountingRefinement

  /** The slot of a metric. An unknown name is looked up as the first slot. */
  function NameToIdx(metric: string): int {
    var slots := map["like" := 0, "fav" := 1, "follower" := 2, "following" := 3, "posts" := 4];
    if metric in slots then slots[metric] else 0
  }

  /** The body of the message that a real change of a bit publishes. */
  function PublishedBody(entityType: string, entityID: string, metric: string, add: bool): Body {
    Fields(entityType, entityID, NameToIdx(metric), if add then 1 else -1)
  }

  /** The consumer counts a toggle in the metric toggled, exactly when that is one of the five. */
  lemma ToggleIsCountedAsItself(m: Message, entityType: string, entityID: string, metric: string, user: nat, add: bool)
    requires entityType != "" && entityID != "" && m.body == PublishedBody(entityType, entityID, metric, add)
    ensures Usable(m)
    ensures var change := C.Change(entityType + ":" + entityID, metric, user, if add then 1 else -1);
            Intended(EventOf(m)) == C.ScriptEvent(C.Valid(change), m.offset)
            <==> metric in {"like", "fav", "follower", "following", "posts"}
  {
    KeyOfMember(entityType, entityID);
  }

  /**
   The message a log record is sent as: a toggle of one of the five metrics, of an entity whose type
   does not begin with a colon, or something no batch takes in.
   */
  ghost predicate SentAs(r: C.Record, m: Message) {
    if r.Malformed? then !Usable(m)
    else exists entityType, entityID, add :: IsToggle(r.change, m, entityType, entityID, add)
  }

  predicate IsToggle(c: C.Change, m: Message, entityType: string, entityID: string, add: bool) {
    && entityType != "" && entityID != "" && entityType[0] != ':' && c.entity == entityType + ":" + entityID
    && c.metric in {"like", "fav", "follower", "following", "posts"} && c.delta == (if add then 1 else -1)
    && m.body == PublishedBody(entityType, entityID, c.metric, add)
  }

  /** Every message is a record of the log at its offset. */
  ghost predicate FromLog(ms: seq<Message>, log: seq<C.Record>) {
    forall m :: m in ms ==> m.offset < |log| && SentAs(log[m.offset], m)
  }

  /** What a turn is to the machine: a skip, then a batch. */
  function StepsOf(t: Turn): seq<C.Action> {
    (if t.skip.Some? then [C.SkipMalformed(t.skip.value)] else [])
    + (if t.batch == [] then [] else [C.ApplyBatch(t.batch[0].offset, t.batch[|t.batch| - 1].offset + 1)])
  }

  /** The message is counted as the record. */
  ghost predicate CountedAs(m: Message, r: C.Record) {
    && Usable(m) && r.Valid? && m.body.entityType[0] != ':' && Intended(EventOf(m)) == C.ScriptEvent(r, m.offset)
  }

  lemma SentIsCounted(r: C.Record, m: Message)
    requires SentAs(r, m) && Usable(m)
    ensures CountedAs(m, r)
  {
    hide Usable, EventOf, Intended, NameToIdx, C.ScriptEvent;
    var entityType, entityID, add :| IsToggle(r.change, m, entityType, entityID, add);
    ToggleIsCountedAsItself(m, entityType, entityID, r.change.metric, r.change.user, add);
    assert r == C.Valid(C.Change(entityType + ":" + entityID, r.change.metric, r.change.user, if add then 1 else -1));
  }

  /** A batch of the consumer is laid out as the machine's batch of the same records. */
  lemma SameBatch(log: seq<C.Record>, ms: seq<Message>, p: int)
    requires ms != [] && Gapless(ms, p) && FromLog(ms, log)
    ensures var from, to := ms[0].offset, ms[|ms| - 1].offset + 1;
            && AllUsable(ms) && from < to <= |log| && (forall i :: from <= i < to ==> log[i].Valid?)
            && Scripted(EventsOf(ms)) == C.BatchEvents(log, from, to)
  {
    hide Usable, EventOf, Intended, SentAs, CountedAs;
    var from, to := ms[0].offset, ms[|ms| - 1].offset + 1;
    assert to - from == |ms|;
    forall i | 0 <= i < |ms| ensures CountedAs(ms[i], log[from + i]) {
      assert ms[i] in ms && ms[i].offset == from + i;
      SentIsCounted(log[from + i], ms[i]);
    }
    CountedTogether(log, ms, from);
  }

  lemma CountedTogether(log: seq<C.Record>, ms: seq<Message>, from: nat)
    requires from + |ms| <= |log| && forall i :: 0 <= i < |ms| ==> ms[i].offset == from + i && CountedAs(ms[i], log[from + i])
    ensures AllUsable(ms) && (forall i :: from <= i < from + |ms| ==> log[i].Valid?)
    ensures Scripted(EventsOf(ms)) == C.BatchEvents(log, from, from + |ms|)
  {
    hide Intended, C.ScriptEvent;
    forall i | from <= i < from + |ms| ensures log[i].Valid? {
      assert CountedAs(ms[i - from], log[from + (i - from)]);
    }
  }

  /** Whenever a turn is executed, it is enabled steps of the machine and leaves the machine's database. */
  lemma TurnIsSteps(s: C.Sys, t: Turn, p: int)
    requires Gapless(t.batch, p) && FromLog(t.batch, s.log)
    requires t.skip.Some? ==> t.skip.value < |s.log| && s.log[t.skip.value].Malformed?
    ensures GoodTurn(t, p) && Runs(s, StepsOf(t))
    ensures Final(s, StepsOf(t)) == s.(db := ExecutedTurn(s.db, C.APPLIED, t, p))
  {
    hide S.Apply, S.Advance, Scripted, EventsOf, FromLog, Gapless, Usable, C.BatchEvents, AllUsable;
    if t.batch != [] {
      SameBatch(s.log, t.batch, p);
    } else {
      NothingIsUsable();
    }
    if t.skip.Some? {
      var skip := C.SkipMalformed(t.skip.value);
      assert StepsOf(t)[0] == skip && C.Enabled(s, skip);
      BatchIsStep(C.Next(s, skip), t, p);
      assert StepsOf(t)[1..] == StepsOf(t.(skip := None));
    } else {
      BatchIsStep(s, t, p);
      assert t.(skip := None) == t;
    }
  }

  lemma NothingIsUsable()
    ensures AllUsable([])
  {
  }

  lemma BatchIsStep(s: C.Sys, t: Turn, p: int)
    requires Gapless(t.batch, p) && FromLog(t.batch, s.log) && AllUsable(t.batch)
    ensures var step := StepsOf(t.(skip := None));
            && Runs(s, step)
            && Final(s, step) == s.(db := if t.batch == [] then s.db else S.Apply(s.db, C.APPLIED, Scripted(EventsOf(t.batch))).0)
  {
    hide S.Apply, Scripted, EventsOf, FromLog, Gapless, Usable, C.BatchEvents, AllUsable;
    if t.batch != [] {
      SameBatch(s.log, t.batch, p);
      var step := C.ApplyBatch(t.batch[0].offset, t.batch[|t.batch| - 1].offset + 1);
      assert C.Enabled(s, step);
      assert StepsOf(t.(skip := None)) == [step] && [step][1..] == [];
      assert Runs(C.Next(s, step), []) && Final(C.Next(s, step), []) == C.Next(s, step);
    }
  }

  // ---- A loop that reads the whole log keeps the counters exact ----

  /** An offset names one message, and every offset behind `current` before a fetched one has been fetched before it. */
  ghost predicate ReadInOrder(ms: seq<Message>, current: int) {
    && (forall a, b :: a in ms && b in ms && a.offset == b.offset ==> a == b)
    && forall j :: 0 <= j < |ms| ==> ReadBefore(ms[..j], ms[j].offset, current)
  }

  ghost predicate ReadBefore(ms: seq<Message>, offset: nat, current: int) {
    forall i :: current < i < offset ==> IsRead(ms, i)
  }

  ghost predicate IsRead(ms: seq<Message>, offset: int) {
    exists m :: m in ms && m.offset == offset
  }

  /** A message that is not taken in was sent as a malformed record. */
  lemma UnusableIsMalformed(r: C.Record, m: Message)
    requires SentAs(r, m) && !Usable(m)
    ensures r.Malformed?
  {
    hide Usable, NameToIdx, EventOf, Intended;
    if r.Valid? {
      var entityType, entityID, add :| IsToggle(r.change, m, entityType, entityID, add);
      ToggleIsCountedAsItself(m, entityType, entityID, r.change.metric, r.change.user, add);
      assert false;
    }
  }

  /** Below everything pending, the records behind the watermark are malformed. */
  lemma NothingPassed(s: C.Sys, inputs: seq<Input>, turns: seq<Turn>, p: int, current: int, from: nat)
    requires Traced(inputs, turns, p) && GoodTurns(turns, p) && FromLog(FetchedFrom(inputs, p), s.log)
    requires C.Watermark(s) == Reached(current, turns, p)
    requires ReadBefore(FetchedFrom(inputs, p), from, current)
    requires forall m :: m in Held(inputs, turns, p) ==> from <= m.offset
    ensures R.NoHoleBefore(s, from)
  {
    hide FetchedFrom, Held, TurnOk, GoodTurns, SentAs, Usable, C.Watermark, Reached, Flushed, Counted, UsableOf;
    CountedRises(current, turns, p);
    NothingLost(inputs, turns, p);
    UsableMembers(FetchedFrom(inputs, p));
    forall i | C.Watermark(s) < i < from && 0 <= i < |s.log| ensures s.log[i].Malformed? {
      assert IsRead(FetchedFrom(inputs, p), i);
      var m :| m in FetchedFrom(inputs, p) && m.offset == i;
      assert m !in Held(inputs, turns, p) && m !in Flushed(turns, p);
      assert m !in Flushed(turns, p) + Held(inputs, turns, p);
      UnusableIsMalformed(s.log[i], m);
    }
  }

  /** The turn does not skip a message while its partition has a pending batch. */
  predicate SkipsNoPending(t: Turn, pending: seq<Message>) {
    t.skip.Some? ==> pending == []
  }

  /** Where a turn's step starts: at the first pending message, or at the one fetched. */
  lemma StepStarts(x: Input, p: int, fetched: seq<Message>, pending: seq<Message>, t: Turn, current: int, from: nat)
    requires TurnOk(x, p, pending, t) && Gapless(pending, p) && SkipsNoPending(t, pending)
    requires (forall m :: m in pending ==> m in fetched) && ReadInOrder(Fetched(x, p, fetched), current)
    requires t.skip == Some(from) || (t.batch != [] && from == t.batch[0].offset)
    ensures t.skip.Some? ==> t.batch == []
    ensures ReadBefore(fetched, from, current) && forall m :: m in pending ==> from <= m.offset
  {
    hide Usable, ReadBefore, Gapless;
    var ms := Fetched(x, p, fetched);
    if pending != [] {
      assert pending[0] in fetched && from == pending[0].offset;
      var j :| 0 <= j < |fetched| && fetched[j] == pending[0];
      assert ms[j] == pending[0] && ms[..j] == fetched[..j];
      ReadBeforeGrows(fetched, j, from, current);
      GaplessRises(pending, p);
    } else {
      assert ms == fetched + [x.m] && ms[..|fetched|] == fetched && ms[|fetched|] == x.m;
    }
  }

  lemma ReadBeforeGrows(ms: seq<Message>, j: nat, from: nat, current: int)
    requires j <= |ms| && ReadBefore(ms[..j], from, current)
    ensures ReadBefore(ms, from, current)
  {
    forall i | current < i < from ensures IsRead(ms, i) {
      assert IsRead(ms[..j], i);
    }
  }

  lemma GaplessRises(ms: seq<Message>, p: int)
    requires Gapless(ms, p) && ms != []
    ensures forall m :: m in ms ==> ms[0].offset <= m.offset
  {
    hide Usable;
  }

  /** What the whole trace says about its last turn. */
  lemma LastTurn(s: C.Sys, inputs: seq<Input>, turns: seq<Turn>, p: int)
    requires inputs != [] && Traced(inputs, turns, p) && FromLog(FetchedFrom(inputs, p), s.log)
    ensures var n := |inputs| - 1; var t := View(turns[n], p);
            && Gapless(t.batch, p) && FromLog(t.batch, s.log) && FromLog(FetchedFrom(inputs[..n], p), s.log)
            && (t.skip.Some? ==> t.skip.value < |s.log| && s.log[t.skip.value].Malformed?)
            && (forall m :: m in Held(inputs[..n], turns[..n], p) ==> m in FetchedFrom(inputs[..n], p))
  {
    hide FetchedFrom, Held, SentAs, Usable, UsableOf, TurnOk, Left;
    var n := |inputs| - 1;
    var t, pending := View(turns[n], p), Held(inputs[..n], turns[..n], p);
    HeldIsGapless(inputs, turns, p);
    FetchedGrows(inputs, p);
    NothingLost(inputs[..n], turns[..n], p);
    UsableMembers(FetchedFrom(inputs[..n], p));
    assert forall m :: m in pending ==> m in Flushed(turns[..n], p) + pending;
    BatchAndLeft(inputs[n], p, pending, t, FetchedFrom(inputs[..n], p));
    assert forall m :: m in t.batch ==> m in t.batch + Left(inputs[n], p, pending, t);
    if t.skip.Some? {
      SkippedMessage(inputs[n], p, pending, t, FetchedFrom(inputs[..n], p));
      UnusableIsMalformed(s.log[inputs[n].m.offset], inputs[n].m);
    }
    assert forall m :: m in FetchedFrom(inputs[..n], p) ==> m in FetchedFrom(inputs, p);
  }

  lemma SkippedMessage(x: Input, p: int, pending: seq<Message>, t: Turn, fetched: seq<Message>)
    requires TurnOk(x, p, pending, t) && t.skip.Some?
    ensures x.Fetch? && t.skip.value == x.m.offset && !Usable(x.m) && x.m in Fetched(x, p, fetched)
  {
  }

  /** Every turn of a loop that reads the log in order and skips nothing over a pending batch is in-order steps. */
  lemma TurnIsInOrder(s: C.Sys, inputs: seq<Input>, turns: seq<Turn>, p: int, current: int)
    requires inputs != [] && Traced(inputs, turns, p) && FromLog(FetchedFrom(inputs, p), s.log)
    requires GoodTurns(turns[..|turns| - 1], p) && ReadInOrder(FetchedFrom(inputs, p), current)
    requires C.Watermark(s) == Reached(current, turns[..|turns| - 1], p) >= -1
    requires SkipsNoPending(View(turns[|turns| - 1], p), Held(inputs[..|inputs| - 1], turns[..|turns| - 1], p))
    ensures var t := View(turns[|turns| - 1], p);
            && GoodTurn(t, p) && R.InOrderRun(s, StepsOf(t)) && Runs(s, StepsOf(t))
            && Final(s, StepsOf(t)) == s.(db := ExecutedTurn(s.db, C.APPLIED, t, p))
            && C.Watermark(Final(s, StepsOf(t))) == Reached(current, turns, p) >= -1
  {
    hide FetchedFrom, Held, FromLog, ReadInOrder, TurnOk, GoodTurns, Gapless, ExecutedTurn, C.Enabled, C.Next, ReachedBy;
    var n := |inputs| - 1;
    var t := View(turns[n], p);
    LastTurn(s, inputs, turns, p);
    TurnIsSteps(s, t, p);
    TurnCounts(s.db, C.APPLIED, t, p);
    HeldIsGapless(inputs[..n], turns[..n], p);
    FetchedGrows(inputs, p);
    if t.skip.Some? || t.batch != [] {
      var from := if t.skip.Some? then t.skip.value else t.batch[0].offset;
      StepStarts(inputs[n], p, FetchedFrom(inputs[..n], p), Held(inputs[..n], turns[..n], p), t, current, from);
      NothingPassed(s, inputs[..n], turns[..n], p, current, from);
      OneStep(s, StepsOf(t), from);
    }
  }

  lemma OneStep(s: C.Sys, acts: seq<C.Action>, from: nat)
    requires |acts| == 1 && Runs(s, acts) && R.NoHoleBefore(s, from)
    requires acts[0] == C.SkipMalformed(from) || (acts[0].ApplyBatch? && acts[0].from == from)
    ensures R.InOrderRun(s, acts)
  {
    hide R.NoHoleBefore, C.Enabled, C.Next;
  }

  /** Steps that are not the consumer's: toggles, publishing, other producers' garbage, repairs' reads. */
  predicate Outside(a: C.Action) {
    !a.ApplyBatch? && !a.SkipMalformed?
  }

  lemma {:induction false} OutsideKeepsWatermark(s: C.Sys, acts: seq<C.Action>)
    requires Runs(s, acts) && forall a :: a in acts ==> Outside(a)
    ensures C.Watermark(Final(s, acts)) == C.Watermark(s)
    decreases |acts|
  {
    hide C.Overwrite, C.Enabled, C.BitCounts;
    if acts != [] {
      assert Outside(acts[0]);
      OutsideKeepsWatermark(C.Next(s, acts[0]), acts[1..]);
    }
  }

  /** In-order steps of others, and then one turn of the loop. */
  ghost predicate LoopStep(s: C.Sys, others: seq<C.Action>, fetched: seq<Message>, t: Turn, p: int, s': C.Sys) {
    && R.InOrderRun(s, others) && Runs(s, others) && (forall a :: a in others ==> Outside(a))
    && FromLog(fetched, Final(s, others).log)
    && (GoodTurn(t, p) ==> s' == Final(s, others).(db := ExecutedTurn(Final(s, others).db, C.APPLIED, t, p)))
  }

  /** A run of the loop among in-order steps of others, fetching messages of the log. */
  ghost predicate LoopRun(states: seq<C.Sys>, others: seq<seq<C.Action>>, inputs: seq<Input>, turns: seq<Turn>, p: int) {
    && |states| == |inputs| + 1 && |turns| == |others| == |inputs|
    && forall i :: 0 <= i < |inputs| ==>
         LoopStep(states[i], others[i], FetchedFrom(inputs[..i + 1], p), View(turns[i], p), p, states[i + 1])
  }

  lemma {:induction false} LoopKeepsInv(states: seq<C.Sys>, others: seq<seq<C.Action>>, inputs: seq<Input>, turns: seq<Turn>, p: int)
    requires LoopRun(states, others, inputs, turns, p) && Traced(inputs, turns, p) && R.Inv(states[0])
    requires ReadInOrder(FetchedFrom(inputs, p), C.Watermark(states[0])) && NoSkipWhilePending(inputs, turns, p)
    ensures R.Inv(states[|inputs|]) && GoodTurns(turns, p)
    ensures C.Watermark(states[|inputs|]) == Reached(C.Watermark(states[0]), turns, p)
  {
    hide FetchedFrom, ReadInOrder, FromLog, R.Inv, R.InOrderRun, Runs, Final, TurnOk, GoodTurn, GoodTurns, ReachedBy, C.Watermark;
    var n := |inputs| - 1;
    if inputs == [] {
      NoTurns(p);
    } else {
      var current := C.Watermark(states[0]);
      RunPrefix(states, others, inputs, turns, p);
      FetchedGrows(inputs, p);
      ReadPrefix(inputs[n], p, FetchedFrom(inputs[..n], p), current);
      LoopKeepsInv(states[..n + 1], others[..n], inputs[..n], turns[..n], p);
      assert inputs[..n + 1] == inputs;
      assert LoopStep(states[n], others[n], FetchedFrom(inputs, p), View(turns[n], p), p, states[n + 1]);
      R.InvHolds(states[n], others[n]);
      OutsideKeepsWatermark(states[n], others[n]);
      InvIsSane(Final(states[n], others[n]));
      TurnIsInOrder(Final(states[n], others[n]), inputs, turns, p, current);
      R.InvHolds(Final(states[n], others[n]), StepsOf(View(turns[n], p)));
      OneMoreGood(turns, p);
    }
  }

  lemma InvIsSane(s: C.Sys)
    requires R.Inv(s)
    ensures C.Watermark(s) >= -1
  {
  }

  lemma RunPrefix(states: seq<C.Sys>, others: seq<seq<C.Action>>, inputs: seq<Input>, turns: seq<Turn>, p: int)
    requires LoopRun(states, others, inputs, turns, p) && inputs != []
    ensures var n := |inputs| - 1; LoopRun(states[..n + 1], others[..n], inputs[..n], turns[..n], p)
  {
    hide FetchedFrom, LoopStep;
    var n := |inputs| - 1;
    forall i | 0 <= i < n
      ensures LoopStep(states[i], others[i], FetchedFrom(inputs[..n][..i + 1], p), View(turns[i], p), p, states[i + 1])
    {
      assert inputs[..n][..i + 1] == inputs[..i + 1];
    }
  }

  lemma ReadPrefix(x: Input, p: int, fetched: seq<Message>, current: int)
    requires ReadInOrder(Fetched(x, p, fetched), current)
    ensures ReadInOrder(fetched, current)
  {
    hide ReadBefore;
    var ms := Fetched(x, p, fetched);
    assert forall m :: m in fetched ==> m in ms;
    forall j | 0 <= j < |fetched| ensures ReadBefore(fetched[..j], fetched[j].offset, current) {
      assert ms[j] == fetched[j] && ms[..j] == fetched[..j];
    }
  }

  /**
   From toggles to counters through the real loop: as long as it reads the log in order and no
   message is skipped over a pending batch, every counter is, after every turn, the number of users
   as of the watermark, whatever is toggled and published in order meanwhile.
   */
  lemma LoopCountsUsers(states: seq<C.Sys>, others: seq<seq<C.Action>>, inputs: seq<Input>, turns: seq<Turn>, p: int, t: C.Target)
    requires LoopRun(states, others, inputs, turns, p) && Traced(inputs, turns, p) && states[0] == C.Initial()
    requires ReadInOrder(FetchedFrom(inputs, p), -1) && NoSkipWhilePending(inputs, turns, p)
    ensures var s := states[|inputs|];
            && -1 <= C.Watermark(s) < |s.log| && C.Watermark(s) == Reached(-1, turns, p)
            && C.Counter(s, t) == |R.Replay(s.log[..C.Watermark(s) + 1], t)|
            && |C.Bits(s, t)| == C.Counter(s, t) + C.InFlight(s, t)
  {
    hide FetchedFrom, ReadInOrder, R.Inv, LoopStep, C.Initial, C.Counter, C.Bits, R.Replay, C.LogDelta, C.QueueDelta, Reached, Traced,
         NoSkipWhilePending;
    R.InitiallyTrue();
    StartsAtNone();
    LoopKeepsInv(states, others, inputs, turns, p);
    R.InvAtWatermark(states[|inputs|], t);
    R.BitsAreCounterPlusInFlight(states[|inputs|], t);
  }

  lemma StartsAtNone()
    ensures C.Watermark(C.Initial()) == -1
  {
  }
}
