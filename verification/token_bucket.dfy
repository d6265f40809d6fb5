/**
 The token bucket on follows: whole seconds, a refill computed on each call, and a key that
 expires 60 seconds after the last admitted call.
 */
module TokenBucket {
  import opened Prelude

  const EXPIRY_MS: nat := 60000

  datatype Bucket = Bucket(last: nat, tokens: int)

  function Second(ms: nat): nat {
    ms / 1000
  }

  /** The tokens added in so many seconds. */
  function Paid(seconds: int, rate: nat): int {
    seconds * rate
  }

  /** The stored hash, if any, and the time in milliseconds at which the key expires, if set. */
  datatype Store = Store(bucket: Option<Bucket>, expires: Option<nat>)

  function Live(s: Store, nowMs: nat): Option<Bucket> {
    if s.expires.Some? && nowMs >= s.expires.value then None else s.bucket
  }

  /** The tokens available at a call: a missing bucket is a full one. */
  function Level(s: Store, nowMs: nat, capacity: nat, rate: nat): int {
    match Live(s, nowMs)
    case None => capacity
    case Some(b) => Min(capacity, b.tokens + Paid(Second(nowMs) - b.last, rate))
  }

  function Next(s: Store, nowMs: nat, capacity: nat, rate: nat): Store {
    var level := Level(s, nowMs, capacity, rate);
    if level < 1 then
      Store(Some(Bucket(Second(nowMs), level)), if Live(s, nowMs).Some? then s.expires else None)
    else
      Store(Some(Bucket(Second(nowMs), level - 1)), Some(nowMs + EXPIRY_MS))
  }

  class TokenBucketKey {
    const capacity: nat
    const rate: nat
    var store: Store

    constructor (capacity: nat, rate: nat)
      ensures this.capacity == capacity && this.rate == rate && store == Store(None, None)
    {
      this.capacity, this.rate, store := capacity, rate, Store(None, None);
    }

    method Take(nowMs: nat) returns (allowed: bool)
      modifies this
      ensures allowed <==> Level(old(store), nowMs, capacity, rate) >= 1
      ensures store == Next(old(store), nowMs, capacity, rate)
    {
      var now := nowMs / 1000;
      var expires := store.expires;
      var last, tokens := now, capacity as int;
      if expires.Some? && nowMs >= expires.value {
        expires := None;
      } else if store.bucket.Some? {
        last, tokens := store.bucket.value.last, store.bucket.value.tokens;
      } else {
        expires := None;
      }
      var add := (now - last) * rate;
      tokens := Min(capacity, tokens + add);
      if tokens < 1 {
        store := Store(Some(Bucket(now, tokens)), expires);
        return false;
      }
      store := Store(Some(Bucket(now, tokens - 1)), Some(nowMs + EXPIRY_MS));
      allowed := true;
    }
  }

  // ---- Runs ----

  function After(s: Store, times: seq<nat>, capacity: nat, rate: nat): Store {
    if times == [] then s else Next(After(s, times[..|times| - 1], capacity, rate), times[|times| - 1], capacity, rate)
  }

  /** How many of the calls a run admits. */
  function Admitted(s: Store, times: seq<nat>, capacity: nat, rate: nat): nat {
    if times == [] then 0
    else
      var init := times[..|times| - 1];
      Admitted(s, init, capacity, rate)
      + (if Level(After(s, init, capacity, rate), times[|times| - 1], capacity, rate) >= 1 then 1 else 0)
  }

  /** Redis time does not go back. */
  predicate InOrder(times: seq<nat>) {
    forall i, j :: 0 <= i < j < |times| ==> times[i] <= times[j]
  }

  /**
   A reachable store at a time: the bucket is not in the future and never over capacity, and by
   the second in which the key expires the bucket would be full anyway.
   */
  ghost predicate Sound(s: Store, nowMs: nat, capacity: nat, rate: nat) {
    s.bucket.Some? ==>
      && s.bucket.value.last <= Second(nowMs)
      && 0 <= s.bucket.value.tokens <= capacity
      && (s.expires.Some? ==>
            && s.bucket.value.last <= Second(s.expires.value)
            && s.bucket.value.tokens + Paid(Second(s.expires.value) - s.bucket.value.last, rate) >= capacity)
  }

  lemma PaidAdds(a: int, b: int, rate: nat)
    ensures Paid(a + b, rate) == Paid(a, rate) + Paid(b, rate)
    ensures a >= 0 ==> Paid(a, rate) >= 0
    ensures Paid(0, rate) == 0
  {
  }

  lemma SecondsGrow(aMs: nat, bMs: nat)
    requires aMs <= bMs
    ensures Second(aMs) <= Second(bMs)
    ensures Second(aMs + EXPIRY_MS) == Second(aMs) + 60
  {
  }

  /** Between two calls the level grows by what the rate pays for, up to the capacity, expiry included. */
  lemma LevelGrowsByRate(s: Store, nowMs: nat, laterMs: nat, capacity: nat, rate: nat)
    requires nowMs <= laterMs && Sound(s, nowMs, capacity, rate)
    ensures 0 <= Level(s, nowMs, capacity, rate) <= capacity
    ensures Level(s, laterMs, capacity, rate)
            == Min(capacity, Level(s, nowMs, capacity, rate) + Paid(Second(laterMs) - Second(nowMs), rate))
  {
    hide Paid, Second;
    SecondsGrow(nowMs, laterMs);
    var now, later := Second(nowMs), Second(laterMs);
    PaidAdds(later - now, 0, rate);
    if s.bucket.Some? {
      var b := s.bucket.value;
      PaidAdds(now - b.last, later - now, rate);
      if s.expires.Some? && nowMs < s.expires.value {
        var e := Second(s.expires.value);
        SecondsGrow(nowMs, s.expires.value);
        PaidAdds(now - b.last, e - now, rate);
        if s.expires.value <= laterMs {
          SecondsGrow(s.expires.value, laterMs);
          PaidAdds(e - now, later - e, rate);
          PaidAdds(later - e, 0, rate);
        }
      }
    }
  }

  /**
   Waiting pays: after a refused call, the next one is admitted exactly when a bucket that can hold a
   token has been refilled by one, which takes one full second of any rate.
   */
  lemma RefusedUntilRefilled(s: Store, nowMs: nat, laterMs: nat, capacity: nat, rate: nat)
    requires 60 * rate >= capacity && Sound(s, nowMs, capacity, rate) && nowMs <= laterMs && Level(s, nowMs, capacity, rate) < 1
    ensures Level(Next(s, nowMs, capacity, rate), laterMs, capacity, rate) >= 1
            <==> capacity >= 1 && rate >= 1 && laterMs / 1000 > nowMs / 1000
  {
    hide Level, Next, Sound;
    assert Paid(60, rate) >= capacity;
    StepKeepsSound(s, nowMs, capacity, rate);
    LevelGrowsByRate(s, nowMs, nowMs, capacity, rate);
    LevelGrowsByRate(Next(s, nowMs, capacity, rate), nowMs, laterMs, capacity, rate);
    PaysFromOne(laterMs / 1000 - nowMs / 1000, rate);
  }

  lemma PaysFromOne(seconds: int, rate: nat)
    requires seconds >= 0
    ensures Paid(seconds, rate) >= 1 <==> seconds >= 1 && rate >= 1
  {
    if seconds >= 1 && rate >= 1 {
      assert seconds * rate >= 1 * rate;
    }
  }

  lemma StepKeepsSound(s: Store, nowMs: nat, capacity: nat, rate: nat)
    requires Paid(60, rate) >= capacity && Sound(s, nowMs, capacity, rate)
    ensures Sound(Next(s, nowMs, capacity, rate), nowMs, capacity, rate)
    ensures Level(Next(s, nowMs, capacity, rate), nowMs, capacity, rate)
            == Level(s, nowMs, capacity, rate) - (if Level(s, nowMs, capacity, rate) >= 1 then 1 else 0)
  {
    hide Paid, Second, Sound;
    LevelGrowsByRate(s, nowMs, nowMs, capacity, rate);
    SecondsGrow(nowMs, nowMs);
    PaidAdds(0, 0, rate);
    NextIsSound(s, nowMs, capacity, rate);
  }

  lemma NextIsSound(s: Store, nowMs: nat, capacity: nat, rate: nat)
    requires Paid(60, rate) >= capacity && Sound(s, nowMs, capacity, rate) && 0 <= Level(s, nowMs, capacity, rate) <= capacity
    ensures Sound(Next(s, nowMs, capacity, rate), nowMs, capacity, rate)
  {
    hide Paid, Second;
    SecondsGrow(nowMs, nowMs);
    if Live(s, nowMs).Some? && s.expires.Some? {
      var b, now, e := s.bucket.value, Second(nowMs), Second(s.expires.value);
      SecondsGrow(nowMs, s.expires.value);
      PaidAdds(now - b.last, e - now, rate);
      PaidAdds(e - now, 0, rate);
    }
  }

  lemma SoundLater(s: Store, nowMs: nat, laterMs: nat, capacity: nat, rate: nat)
    requires Sound(s, nowMs, capacity, rate) && nowMs <= laterMs
    ensures Sound(s, laterMs, capacity, rate)
  {
    hide Paid, Second;
    SecondsGrow(nowMs, laterMs);
  }

  function LastOr(times: seq<nat>, startMs: nat): nat {
    if times == [] then startMs else times[|times| - 1]
  }

  predicate NotBefore(times: seq<nat>, startMs: nat) {
    forall i :: 0 <= i < |times| ==> startMs <= times[i]
  }

  lemma OrderOfInit(times: seq<nat>, startMs: nat)
    requires InOrder(times) && NotBefore(times, startMs) && times != []
    ensures var init := times[..|times| - 1];
            InOrder(init) && NotBefore(init, startMs) && startMs <= LastOr(init, startMs) <= LastOr(times, startMs)
  {
  }

  /** From a reachable store on, the calls of a run spend at most the level and what the rate adds. */
  lemma {:induction false} SpentIsPaidFor(s: Store, startMs: nat, times: seq<nat>, capacity: nat, rate: nat)
    requires Paid(60, rate) >= capacity && Sound(s, startMs, capacity, rate)
    requires InOrder(times) && NotBefore(times, startMs)
    ensures var endMs, t := LastOr(times, startMs), After(s, times, capacity, rate);
            && Sound(t, endMs, capacity, rate)
            && Admitted(s, times, capacity, rate) + Level(t, endMs, capacity, rate)
               <= Level(s, startMs, capacity, rate) + Paid(Second(endMs) - Second(startMs), rate)
  {
    hide Level, Next, Sound, Paid, Second, InOrder, NotBefore;
    PaidAdds(0, 0, rate);
    if times != [] {
      var init, now := times[..|times| - 1], times[|times| - 1];
      OrderOfInit(times, startMs);
      SpentIsPaidFor(s, startMs, init, capacity, rate);
      var mid, t := LastOr(init, startMs), After(s, init, capacity, rate);
      LevelGrowsByRate(t, mid, now, capacity, rate);
      SoundLater(t, mid, now, capacity, rate);
      StepKeepsSound(t, now, capacity, rate);
      PaidAdds(Second(now) - Second(mid), Second(mid) - Second(startMs), rate);
    }
  }

  lemma SplitOrder(before: seq<nat>, span: seq<nat>)
    requires InOrder(before + span) && span != []
    ensures InOrder(before) && InOrder(span) && NotBefore(before, 0) && NotBefore(span, span[0])
    ensures LastOr(before, 0) <= span[0] <= LastOr(span, 0)
  {
    var all := before + span;
    assert forall i :: 0 <= i < |before| ==> before[i] == all[i];
    assert forall i :: 0 <= i < |span| ==> span[i] == all[|before| + i];
  }

  /**
   Over any stretch of any run, the calls admitted within the seconds from a to b are at most
   capacity + rate * (b - a), provided the bucket refills within the 60 seconds of the expiry.
   */
  lemma AdmissionsAreBounded(before: seq<nat>, span: seq<nat>, a: nat, b: nat, capacity: nat, rate: nat)
    requires 60 * rate >= capacity && InOrder(before + span) && a <= b
    requires forall t :: t in span ==> a <= Second(t) <= b
    ensures Admitted(After(Store(None, None), before, capacity, rate), span, capacity, rate) <= capacity + rate * (b - a)
  {
    hide Level, Next, Second, InOrder, NotBefore;
    assert Paid(60, rate) >= capacity && Paid(b - a, rate) == rate * (b - a);
    hide Paid;
    PaidAdds(b - a, 0, rate);
    if span != [] {
      var empty := Store(None, None);
      SplitOrder(before, span);
      SpentIsPaidFor(empty, 0, before, capacity, rate);
      var s, first, last := After(empty, before, capacity, rate), span[0], LastOr(span, 0);
      SoundLater(s, LastOr(before, 0), first, capacity, rate);
      SpentIsPaidFor(s, first, span, capacity, rate);
      LevelGrowsByRate(After(s, span, capacity, rate), last, last, capacity, rate);
      LevelGrowsByRate(s, first, first, capacity, rate);
      assert first in span && last in span;
      PaidAdds(Second(last) - Second(first), (b - a) - (Second(last) - Second(first)), rate);
      PaidAdds((b - a) - (Second(last) - Second(first)), 0, rate);
    }
  }

  // ---- A slower refill: the expiry hands out tokens ----

  function Copies(t: nat, n: nat): seq<nat> {
    seq(n, i => t)
  }

  /** Calls at one time empty a bucket whose level covers them. */
  lemma {:induction false} Burst(s: Store, t: nat, n: nat, capacity: nat, rate: nat)
    requires Level(s, t, capacity, rate) == capacity && n <= capacity
    ensures Admitted(s, Copies(t, n), capacity, rate) == n
    ensures n > 0 ==> After(s, Copies(t, n), capacity, rate) == Store(Some(Bucket(Second(t), capacity - n)), Some(t + EXPIRY_MS))
  {
    hide Level, Next, Second;
    if n > 0 {
      assert Copies(t, n)[..n - 1] == Copies(t, n - 1);
      Burst(s, t, n - 1, capacity, rate);
      OneOfBurst(After(s, Copies(t, n - 1), capacity, rate), t, if n == 1 then capacity else capacity - (n - 1), capacity, rate);
    }
  }

  lemma OneOfBurst(s: Store, t: nat, level: nat, capacity: nat, rate: nat)
    requires 1 <= level <= capacity
    requires Level(s, t, capacity, rate) == level || s == Store(Some(Bucket(Second(t), level)), Some(t + EXPIRY_MS))
    ensures Level(s, t, capacity, rate) == level
    ensures Next(s, t, capacity, rate) == Store(Some(Bucket(Second(t), level - 1)), Some(t + EXPIRY_MS))
  {
    hide Second;
  }

  lemma {:induction false} AdmittedConcat(s: Store, a: seq<nat>, b: seq<nat>, capacity: nat, rate: nat)
    ensures After(s, a + b, capacity, rate) == After(After(s, a, capacity, rate), b, capacity, rate)
    ensures Admitted(s, a + b, capacity, rate)
            == Admitted(s, a, capacity, rate) + Admitted(After(s, a, capacity, rate), b, capacity, rate)
  {
    hide Level, Next;
    if b == [] {
      assert a + b == a;
    } else {
      assert (a + b)[..|a + b| - 1] == a + b[..|b| - 1];
      AdmittedConcat(s, a, b[..|b| - 1], capacity, rate);
    }
  }

  /** The calls of a run up to second b keep the bound. */
  ghost predicate Bounded(times: seq<nat>, b: nat, capacity: nat, rate: nat) {
    InOrder(times) && (forall t :: t in times ==> Second(t) <= b) ==>
      Admitted(Store(None, None), times, capacity, rate) <= capacity + rate * b
  }

  /**
   Every run keeps the bound exactly when 60 * rate >= capacity: otherwise a full burst, a
   minute's wait for the key to expire and another full burst beat it.
   */
  lemma BoundIffRefillBeatsExpiry(capacity: nat, rate: nat)
    ensures 60 * rate >= capacity <==> forall times: seq<nat>, b: nat :: Bounded(times, b, capacity, rate)
  {
    hide Level, Next, Admitted;
    if 60 * rate >= capacity {
      forall times: seq<nat>, b: nat ensures Bounded(times, b, capacity, rate) {
        if InOrder(times) && forall t :: t in times ==> Second(t) <= b {
          assert [] + times == times;
          AdmissionsAreBounded([], times, 0, b, capacity, rate);
        }
      }
    } else {
      TwoBursts(capacity, rate);
      assert !Bounded(Copies(0, capacity) + Copies(EXPIRY_MS, capacity), 60, capacity, rate);
    }
  }

  lemma TwoBursts(capacity: nat, rate: nat)
    ensures var times := Copies(0, capacity) + Copies(EXPIRY_MS, capacity);
            Admitted(Store(None, None), times, capacity, rate) == 2 * capacity && InOrder(times)
            && forall t :: t in times ==> Second(t) <= 60
  {
    var s := Store(None, None);
    Burst(s, 0, capacity, capacity, rate);
    Burst(After(s, Copies(0, capacity), capacity, rate), EXPIRY_MS, capacity, capacity, rate);
    AdmittedConcat(s, Copies(0, capacity), Copies(EXPIRY_MS, capacity), capacity, rate);
  }
}
