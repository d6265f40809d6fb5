/**
 The counting refinement: with each user's changes of a counter published in toggle order and
 batches applied without a hole, the counter is the number of set bits as of the watermark, in every reachable state.
 */
module CountingRefinement {
  import opened Prelude
  import S = ApplyScript
  import opened Counting
  import opened CountingDrift

  // ---- Replaying the history ----

  function After(users: set<nat>, r: Record, t: Target): set<nat> {
    if r.Valid? && Fits(r.change, t)
    then if r.change.delta > 0 then users + {r.change.user} else users - {r.change.user}
    else users
  }

  /** The users whose bit is set after a stretch of the history, starting from an empty bitmap. */
  function Replay(log: seq<Record>, t: Target): set<nat> {
    if log == [] then {} else After(Replay(log[..|log| - 1], t), log[|log| - 1], t)
  }

  /** A record of a real change: the bit had the other value before it. */
  predicate RealChange(users: set<nat>, r: Record, t: Target) {
    r.Valid? && Fits(r.change, t) ==>
      if r.change.delta == 1 then r.change.user !in users else r.change.delta == -1 && r.change.user in users
  }

  ghost predicate RealHistory(log: seq<Record>) {
    forall i, t: Target :: 0 <= i < |log| ==> RealChange(Replay(log[..i], t), log[i], t)
  }

  function Wrap(q: seq<Change>): seq<Record> {
    seq(|q|, i requires 0 <= i < |q| => Valid(q[i]))
  }

  /** Everything toggled so far, in order: the log and what is still to be published. */
  function History(s: Sys): seq<Record> {
    s.log + Wrap(s.unpublished)
  }

  lemma SizeOfChange(users: set<nat>, r: Record, t: Target)
    requires RealChange(users, r, t)
    ensures |After(users, r, t)| == |users| + RecordDelta(r, t)
  {
    if r.Valid? && Fits(r.change, t) {
      if r.change.delta == 1 {
        assert |users + {r.change.user}| == |users| + 1;
      } else {
        assert |users - {r.change.user}| == |users| - 1;
      }
    }
  }

  /** Over a real history the deltas add up to the number of users. */
  lemma {:induction false} DeltasCountUsers(log: seq<Record>, t: Target)
    requires RealHistory(log)
    ensures LogDelta(log, t) == |Replay(log, t)|
  {
    hide After, RealChange, RecordDelta;
    if log != [] {
      var init := log[..|log| - 1];
      assert RealHistory(init) by {
        forall i, u: Target | 0 <= i < |init| ensures RealChange(Replay(init[..i], u), init[i], u) {
          assert init[..i] == log[..i];
        }
      }
      DeltasCountUsers(init, t);
      SizeOfChange(Replay(init, t), log[|log| - 1], t);
    }
  }

  lemma PrefixIsReal(log: seq<Record>, n: nat)
    requires RealHistory(log) && n <= |log|
    ensures RealHistory(log[..n])
  {
    forall i, u: Target | 0 <= i < n ensures RealChange(Replay(log[..n][..i], u), log[..n][i], u) {
      assert log[..n][..i] == log[..i];
    }
  }

  /** A counter that equals the users before a stretch equals the users after it, and never clamps. */
  lemma {:induction false} FoldTracksUsers(log: seq<Record>, from: nat, to: nat, t: Target)
    requires RealHistory(log) && from <= to <= |log|
    ensures FoldCount(|Replay(log[..from], t)|, log[from..to], t) == |Replay(log[..to], t)|
    ensures Clamped(|Replay(log[..from], t)|, log[from..to], t) == 0
    decreases (to)
  {
    hide After, RealChange;
    var stretch := log[from..to];
    if from < to {
      FoldTracksUsers(log, from, to - 1, t);
      assert stretch[..|stretch| - 1] == log[from..to - 1] && stretch[|stretch| - 1] == log[to - 1];
      assert log[..to][..to - 1] == log[..to - 1];
      SizeOfChange(Replay(log[..to - 1], t), log[to - 1], t);
    } else {
      assert stretch == [];
    }
  }

  // ---- The invariant ----

  ghost predicate Inv(s: Sys) {
    && Sane(s) && s.db.markers == {}
    && RealHistory(History(s))
    && (forall t :: Bits(s, t) == Replay(History(s), t))
    && (forall t :: Counter(s, t) == |Replay(s.log[..Watermark(s) + 1], t)|)
  }

  /** Two changes of one user's bit of one counter. */
  predicate SameBit(a: Change, b: Change) {
    a.entity == b.entity && a.metric == b.metric && a.user == b.user
  }

  /** No change of the same bit waits before the one at i. */
  predicate FirstOfItsBit(q: seq<Change>, i: nat) {
    i < |q| && forall j :: 0 <= j < i ==> !SameBit(q[j], q[i])
  }

  /** Only malformed records lie between the watermark and an offset. */
  predicate NoHoleBefore(s: Sys, offset: nat) {
    forall i :: Watermark(s) < i < offset && 0 <= i < |s.log| ==> s.log[i].Malformed?
  }

  /**
   Steps of a run in which changes of one bit are published in toggle order, whatever the order of
   the others, and no batch or skip jumps over a usable record.
   */
  predicate InOrder(s: Sys, a: Action)
    requires Enabled(s, a)
  {
    match a
    case Publish(i) => FirstOfItsBit(s.unpublished, i)
    case PublishFails(_) => false
    case ApplyBatch(from, _) => NoHoleBefore(s, from)
    case SkipMalformed(offset) => NoHoleBefore(s, offset)
    case Mark(_) => false
    case WriteSnapshot(_) => false
    case _ => true
  }

  lemma InitiallyTrue()
    ensures Inv(Initial())
  {
    hide After, RealChange, S.Apply, CntKey, MarkerKey;
    var s := Initial();
    assert Watermark(s) == -1 && History(s) == [] && s.log[..0] == [];
    assert forall t: Target :: Bits(s, t) == {} && Counter(s, t) == 0 && Replay([], t) == {};
  }

  lemma InvStep(s: Sys, a: Action)
    requires Inv(s) && Enabled(s, a) && InOrder(s, a)
    ensures Inv(Next(s, a))
  {
    hide Replay, RealHistory, S.Apply, S.Count, CntKey, BatchEvents;
    match a
    case Toggle(t, user, add) => ToggleStep(s, t, user, add);
    case Publish(i) => PublishStep(s, i);
    case Garbage => GarbageStep(s);
    case ApplyBatch(from, to) => ApplyStep(s, from, to);
    case SkipMalformed(offset) => SkipStep(s, offset);
    case Unmark(_) =>
      assert Next(s, a) == s;
    case TakeSnapshot(_) =>
      var s' := Next(s, a);
      assert History(s') == History(s);
      assert forall t: Target :: Bits(s', t) == Bits(s, t) && Counter(s', t) == Counter(s, t);
  }

  lemma ReplaySnoc(log: seq<Record>, r: Record, t: Target)
    ensures Replay(log + [r], t) == After(Replay(log, t), r, t)
  {
    assert (log + [r])[..|log|] == log;
  }

  lemma RealSnoc(log: seq<Record>, r: Record)
    requires RealHistory(log) && forall t: Target :: RealChange(Replay(log, t), r, t)
    ensures RealHistory(log + [r])
  {
    var all := log + [r];
    forall i, t: Target | 0 <= i < |all| ensures RealChange(Replay(all[..i], t), all[i], t) {
      assert all[..i] == if i < |log| then log[..i] else log;
    }
  }

  lemma ToggleStep(s: Sys, t: Target, user: nat, add: bool)
    requires Inv(s)
    ensures Inv(Next(s, Toggle(t, user, add)))
  {
    hide Replay, RealHistory, S.Count, CntKey;
    if (user in Bits(s, t)) != add {
      var s' := Next(s, Toggle(t, user, add));
      var r := Valid(Change(t.entity, t.metric, user, if add then 1 else -1));
      assert History(s') == History(s) + [r];
      forall u: Target ensures RealChange(Replay(History(s), u), r, u) {
        assert Fits(r.change, u) <==> u == t;
        assert Bits(s, u) == Replay(History(s), u);
      }
      RealSnoc(History(s), r);
      forall u: Target ensures Bits(s', u) == Replay(History(s'), u) {
        ReplaySnoc(History(s), r, u);
        assert Fits(r.change, u) <==> u == t;
        assert Bits(s, u) == Replay(History(s), u);
      }
      assert s'.db == s.db;
      assert forall u: Target :: Counter(s', u) == Counter(s, u);
    }
  }

  predicate Independent(a: Record, b: Record) {
    a.Valid? && b.Valid? ==> !SameBit(a.change, b.change)
  }

  lemma {:induction false} SwapReplay(a: seq<Record>, x: Record, r: Record, b: seq<Record>, t: Target)
    requires Independent(x, r)
    ensures Replay(a + [r, x] + b, t) == Replay(a + [x, r] + b, t)
  {
    hide Replay;
    if b == [] {
      assert a + [r, x] + b == (a + [r]) + [x] && a + [x, r] + b == (a + [x]) + [r];
      ReplaySnoc(a + [r], x, t);
      ReplaySnoc(a, r, t);
      ReplaySnoc(a + [x], r, t);
      ReplaySnoc(a, x, t);
      AfterCommutes(Replay(a, t), x, r, t);
    } else {
      var init, y := b[..|b| - 1], b[|b| - 1];
      SwapReplay(a, x, r, init, t);
      assert a + [r, x] + b == (a + [r, x] + init) + [y] && a + [x, r] + b == (a + [x, r] + init) + [y];
      ReplaySnoc(a + [r, x] + init, y, t);
      ReplaySnoc(a + [x, r] + init, y, t);
    }
  }

  /** Changes of different bits do not see each other. */
  lemma AfterCommutes(users: set<nat>, x: Record, r: Record, t: Target)
    requires Independent(x, r)
    ensures After(After(users, r, t), x, t) == After(After(users, x, t), r, t)
    ensures RealChange(After(users, x, t), r, t) <==> RealChange(users, r, t)
    ensures RealChange(After(users, r, t), x, t) <==> RealChange(users, x, t)
  {
  }

  lemma SwapReal(a: seq<Record>, x: Record, r: Record, b: seq<Record>)
    requires Independent(x, r) && RealHistory(a + [x, r] + b)
    ensures RealHistory(a + [r, x] + b)
  {
    hide Replay, RealChange, After;
    var was, now := a + [x, r] + b, a + [r, x] + b;
    var k := |a|;
    forall i, t: Target | 0 <= i < |now| ensures RealChange(Replay(now[..i], t), now[i], t) {
      if i < k {
        assert now[..i] == was[..i] && now[i] == was[i];
      } else if i < k + 2 {
        assert was[..k] == a && was[..k + 1] == a + [x] && now[..k] == a && now[..k + 1] == a + [r];
        assert RealChange(Replay(was[..k], t), was[k], t) && RealChange(Replay(was[..k + 1], t), was[k + 1], t);
        ReplaySnoc(a, x, t);
        ReplaySnoc(a, r, t);
        AfterCommutes(Replay(a, t), x, r, t);
      } else {
        var head := b[..i - k - 2];
        assert now[..i] == a + [r, x] + head && was[..i] == a + [x, r] + head && now[i] == was[i];
        SwapReplay(a, x, r, head, t);
      }
    }
  }

  /** A change may be published past changes of other bits. */
  lemma {:induction false} MoveForward(a: seq<Record>, m: seq<Record>, r: Record, b: seq<Record>)
    requires RealHistory(a + m + [r] + b) && forall x :: x in m ==> Independent(x, r)
    ensures RealHistory(a + [r] + m + b)
    ensures forall t: Target :: Replay(a + [r] + m + b, t) == Replay(a + m + [r] + b, t)
  {
    hide Replay, RealHistory, Independent;
    if m == [] {
      assert a + m + [r] + b == a + [r] + m + b;
    } else {
      var init, x := m[..|m| - 1], m[|m| - 1];
      assert m == init + [x];
      assert a + m + [r] + b == (a + init) + [x, r] + b;
      assert (a + init) + [r, x] + b == a + init + [r] + ([x] + b);
      assert a + [r] + init + ([x] + b) == a + [r] + m + b;
      SwapReal(a + init, x, r, b);
      forall t: Target ensures Replay((a + init) + [r, x] + b, t) == Replay(a + m + [r] + b, t) {
        SwapReplay(a + init, x, r, b, t);
      }
      MoveForward(a, init, r, [x] + b);
    }
  }

  lemma PublishStep(s: Sys, i: nat)
    requires Inv(s) && FirstOfItsBit(s.unpublished, i)
    ensures Inv(Next(s, Publish(i)))
  {
    hide Replay, RealHistory, S.Count, CntKey;
    var s' := Next(s, Publish(i));
    var q := s.unpublished;
    var m, r, b := Wrap(q[..i]), Valid(q[i]), Wrap(q[i + 1..]);
    assert History(s) == s.log + m + [r] + b && History(s') == s.log + [r] + m + b;
    MoveForward(s.log, m, r, b);
    forall t: Target ensures Bits(s', t) == Replay(History(s'), t) {
      assert Bits(s, t) == Replay(History(s), t);
    }
    SameCounters(s, s');
  }

  lemma SameCounters(s: Sys, s': Sys)
    requires Inv(s) && s'.db == s.db && s.log <= s'.log
    ensures forall t :: Counter(s', t) == |Replay(s'.log[..Watermark(s') + 1], t)|
  {
    hide Replay, RealHistory, S.Count, CntKey;
    assert s'.log[..Watermark(s') + 1] == s.log[..Watermark(s) + 1];
    assert forall t: Target :: Counter(s', t) == Counter(s, t);
  }

  lemma {:induction false} ReplayIgnores(a: seq<Record>, b: seq<Record>, t: Target)
    ensures Replay(a + [Malformed] + b, t) == Replay(a + b, t)
  {
    if b == [] {
      ReplaySnoc(a, Malformed, t);
      assert a + [Malformed] + b == a + [Malformed] && a + b == a;
    } else {
      var init, r := b[..|b| - 1], b[|b| - 1];
      ReplayIgnores(a, init, t);
      assert a + [Malformed] + b == (a + [Malformed] + init) + [r] && a + b == (a + init) + [r];
      ReplaySnoc(a + [Malformed] + init, r, t);
      ReplaySnoc(a + init, r, t);
    }
  }

  lemma RealIgnores(a: seq<Record>, b: seq<Record>)
    requires RealHistory(a + b)
    ensures RealHistory(a + [Malformed] + b)
  {
    var all := a + [Malformed] + b;
    forall i, t: Target | 0 <= i < |all| ensures RealChange(Replay(all[..i], t), all[i], t) {
      if i < |a| {
        assert all[..i] == (a + b)[..i] && all[i] == (a + b)[i];
      } else if i > |a| {
        var j := i - |a| - 1;
        assert all[..i] == a + [Malformed] + b[..j] && (a + b)[..|a| + j] == a + b[..j];
        ReplayIgnores(a, b[..j], t);
        assert all[i] == (a + b)[|a| + j];
      }
    }
  }

  lemma GarbageStep(s: Sys)
    requires Inv(s)
    ensures Inv(Next(s, Garbage))
  {
    hide Replay, RealHistory, S.Count, CntKey;
    var s' := Next(s, Garbage);
    var q := Wrap(s.unpublished);
    assert History(s') == s.log + [Malformed] + q;
    RealIgnores(s.log, q);
    forall t ensures Bits(s', t) == Replay(History(s'), t) {
      ReplayIgnores(s.log, q, t);
      assert Bits(s, t) == Replay(History(s), t);
    }
    SameCounters(s, s');
  }

  /** Malformed records change nothing. */
  lemma {:induction false} ReplayOfGarbage(log: seq<Record>, from: nat, to: nat, t: Target)
    requires from <= to <= |log| && forall i :: from <= i < to ==> log[i].Malformed?
    ensures Replay(log[..to], t) == Replay(log[..from], t)
    decreases (to)
  {
    hide Replay;
    if from < to {
      ReplayOfGarbage(log, from, to - 1, t);
      assert log[..to] == log[..to - 1] + [log[to - 1]];
      ReplaySnoc(log[..to - 1], log[to - 1], t);
    }
  }

  lemma ApplyStep(s: Sys, from: nat, to: nat)
    requires Inv(s) && Enabled(s, ApplyBatch(from, to)) && NoHoleBefore(s, from)
    ensures Inv(Next(s, ApplyBatch(from, to)))
    ensures forall t :: Clamped(Counter(s, t), s.log[FreshFrom(s, from, to)..to], t) == 0
  {
    hide Replay, RealHistory, S.Count, CntKey, S.Apply, BatchEvents, FoldCount, LogDelta;
    var s' := Next(s, ApplyBatch(from, to));
    var k := FreshFrom(s, from, to);
    assert History(s)[..|s.log|] == s.log;
    PrefixIsReal(History(s), |s.log|);
    ApplyBatchEffect(s, from, to, Target("", ""));
    forall t ensures Counter(s', t) == |Replay(s'.log[..Watermark(s') + 1], t)|
      ensures Clamped(Counter(s, t), s.log[k..to], t) == 0
    {
      ApplyBatchEffect(s, from, to, t);
      assert Counter(s, t) == |Replay(s.log[..Watermark(s) + 1], t)|;
      if to > Watermark(s) + 1 {
        ReplayOfGarbage(s.log, Watermark(s) + 1, k, t);
        FoldTracksUsers(s.log, k, to, t);
      } else {
        assert s.log[k..to] == [];
        FoldNothing(Counter(s, t), t);
      }
    }
  }

  lemma SkipStep(s: Sys, offset: nat)
    requires Inv(s) && Enabled(s, SkipMalformed(offset)) && NoHoleBefore(s, offset)
    ensures Inv(Next(s, SkipMalformed(offset)))
  {
    hide Replay, RealHistory, S.Count, CntKey;
    var s' := Next(s, SkipMalformed(offset));
    if offset > Watermark(s) {
      forall t ensures Counter(s', t) == |Replay(s'.log[..Watermark(s') + 1], t)| {
        ReplayOfGarbage(s.log, Watermark(s) + 1, offset + 1, t);
        assert Counter(s, t) == |Replay(s.log[..Watermark(s) + 1], t)|;
      }
    }
    assert forall t: Target :: Bits(s', t) == Bits(s, t);
  }

  // ---- Every reachable state ----

  ghost predicate InOrderRun(s: Sys, acts: seq<Action>)
    decreases |acts|
  {
    acts == [] || (Enabled(s, acts[0]) && InOrder(s, acts[0]) && InOrderRun(Next(s, acts[0]), acts[1..]))
  }

  lemma {:induction false} InvHolds(s: Sys, acts: seq<Action>)
    requires Inv(s) && InOrderRun(s, acts)
    ensures Runs(s, acts) && Inv(Final(s, acts))
    decreases |acts|
  {
    hide Inv, Next, Enabled, InOrder;
    if acts != [] {
      InvStep(s, acts[0]);
      InvHolds(Next(s, acts[0]), acts[1..]);
    }
  }

  /**
   In every state of every in-order run, under any crash, retry, overlap or redelivery, the
   counter is the number of users after exactly the records up to the watermark; so the set
   bits are the counter plus what is in flight, and the drift is zero.
   */
  lemma CounterIsUsersAtWatermark(acts: seq<Action>, t: Target)
    requires InOrderRun(Initial(), acts)
    ensures Runs(Initial(), acts)
    ensures var s := Final(Initial(), acts);
            && Sane(s)
            && Counter(s, t) == |Replay(s.log[..Watermark(s) + 1], t)|
            && |Bits(s, t)| == Counter(s, t) + InFlight(s, t)
            && Drift(s, t) == 0
  {
    hide Inv, Replay, Final, Counter, Bits, Initial, InOrderRun, LogDelta, QueueDelta;
    InitiallyTrue();
    InvHolds(Initial(), acts);
    var s := Final(Initial(), acts);
    InvAtWatermark(s, t);
    BitsAreCounterPlusInFlight(s, t);
  }

  lemma InvAtWatermark(s: Sys, t: Target)
    requires Inv(s)
    ensures Sane(s) && Counter(s, t) == |Replay(s.log[..Watermark(s) + 1], t)|
  {
  }

  lemma BitsAreCounterPlusInFlight(s: Sys, t: Target)
    requires Inv(s)
    ensures |Bits(s, t)| == Counter(s, t) + InFlight(s, t)
  {
    hide Replay, RealHistory, S.Count, CntKey, LogDelta, QueueDelta;
    var h := History(s);
    var next := Watermark(s) + 1;
    PrefixIsReal(h, next);
    assert h[..next] == s.log[..next];
    DeltasCountUsers(h, t);
    DeltasCountUsers(h[..next], t);
    assert h == s.log[..next] + s.log[next..] + Wrap(s.unpublished);
    LogDeltaConcat(s.log[..next] + s.log[next..], Wrap(s.unpublished), t);
    LogDeltaConcat(s.log[..next], s.log[next..], t);
    WrapDelta(s.unpublished, t);
    assert Bits(s, t) == Replay(h, t);
    assert Counter(s, t) == |Replay(s.log[..next], t)|;
  }

  lemma {:induction false} WrapDelta(q: seq<Change>, t: Target)
    ensures LogDelta(Wrap(q), t) == QueueDelta(q, t)
  {
    if q != [] {
      WrapDelta(q[..|q| - 1], t);
      assert Wrap(q)[..|q| - 1] == Wrap(q[..|q| - 1]);
    }
  }

  /** In an in-order run the clamp to zero never changes a counter. */
  lemma ClampNeverFires(acts: seq<Action>, from: nat, to: nat, t: Target)
    requires InOrderRun(Initial(), acts) && Runs(Initial(), acts)
    requires Sane(Final(Initial(), acts))
    requires Enabled(Final(Initial(), acts), ApplyBatch(from, to)) && NoHoleBefore(Final(Initial(), acts), from)
    ensures var s := Final(Initial(), acts);
            Clamped(Counter(s, t), s.log[FreshFrom(s, from, to)..to], t) == 0
  {
    InitiallyTrue();
    InvHolds(Initial(), acts);
    ApplyStep(Final(Initial(), acts), from, to);
  }
}
