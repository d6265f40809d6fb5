/**
 The sliding window rate limiter: one script call per request on a sorted set of the requests
 admitted lately, with a key that expires when nobody calls for a whole window.
 */
module SlidingWindow {
  import opened Prelude

  /** One request: the Redis time of its script call in milliseconds, and its member. */
  datatype Request = Request(time: nat, member: string)

  /** The sorted set, and the time its key expires. */
  datatype Window = Window(zset: set<Request>, expires: nat)

  /** What the key still holds at a time. */
  function Alive(w: Window, now: nat): set<Request> {
    if now < w.expires then w.zset else {}
  }

  /** ZREMRANGEBYSCORE key 0 (now - window). */
  function Pruned(zset: set<Request>, now: nat, window: nat): set<Request> {
    set r | r in zset && r.time > now - window
  }

  /** ZADD: a member already present only gets a new score. */
  function Added(zset: set<Request>, r: Request): set<Request> {
    (set x | x in zset && x.member != r.member) + {r}
  }

  function Allowed(w: Window, r: Request, window: nat, max: nat): bool {
    |Pruned(Alive(w, r.time), r.time, window)| < max
  }

  function Next(w: Window, r: Request, window: nat, max: nat): Window {
    var kept := Pruned(Alive(w, r.time), r.time, window);
    Window(if |kept| < max then Added(kept, r) else kept, r.time + window)
  }

  class RateLimiter {
    const window: nat
    const max: nat
    var state: Window

    constructor (window: nat, max: nat)
      ensures this.window == window && this.max == max && state == Window({}, 0)
    {
      this.window, this.max, state := window, max, Window({}, 0);
    }

    method Call(now: nat, member: string) returns (allowed: bool, remaining: nat)
      modifies this
      ensures state == Next(old(state), Request(now, member), window, max)
      ensures allowed <==> Allowed(old(state), Request(now, member), window, max)
      ensures remaining == if allowed then max - |Pruned(Alive(old(state), now), now, window)| - 1 else 0
    {
      var kept := Pruned(Alive(state, now), now, window);
      var count := |kept|;
      if count >= max {
        state := Window(kept, now + window);
        return false, 0;
      }
      state := Window(Added(kept, Request(now, member)), now + window);
      return true, max - count - 1;
    }
  }

  // ---- Runs ----

  function After(requests: seq<Request>, window: nat, max: nat): Window {
    if requests == [] then Window({}, 0)
    else Next(After(requests[..|requests| - 1], window, max), requests[|requests| - 1], window, max)
  }

  /** All requests a run admitted. */
  function Admitted(requests: seq<Request>, window: nat, max: nat): set<Request> {
    if requests == [] then {}
    else
      var init, r := requests[..|requests| - 1], requests[|requests| - 1];
      Admitted(init, window, max) + (if Allowed(After(init, window, max), r, window, max) then {r} else {})
  }

  /** The requests of a set that lie in the interval (t - window, t]. */
  function InWindow(admitted: set<Request>, t: int, window: nat): set<Request> {
    set r | r in admitted && t - window < r.time <= t
  }

  /** Redis time does not go back, and every request brings its own member. */
  ghost predicate ProperRun(requests: seq<Request>) {
    forall i, j :: 0 <= i < j < |requests| ==>
      requests[i].time <= requests[j].time && requests[i].member != requests[j].member
  }

  lemma {:induction false} AdmittedWereRequests(requests: seq<Request>, window: nat, max: nat)
    ensures forall r :: r in Admitted(requests, window, max) ==> r in requests
  {
    hide Allowed, After;
    if requests != [] {
      AdmittedWereRequests(requests[..|requests| - 1], window, max);
    }
  }

  lemma LastIsNewest(init: seq<Request>, r: Request)
    requires ProperRun(init + [r])
    ensures ProperRun(init)
    ensures forall x :: x in init ==> x.time <= r.time && x.member != r.member
  {
    var all := init + [r];
    forall x | x in init ensures x.time <= r.time && x.member != r.member {
      var i :| 0 <= i < |init| && init[i] == x;
      assert all[i] == x && all[|init|] == r;
    }
    forall i, j | 0 <= i < j < |init| ensures init[i].time <= init[j].time && init[i].member != init[j].member {
      assert all[i] == init[i] && all[j] == init[j];
    }
  }

  /** The script sees exactly the admitted requests of the window that ends now, whether the key expired or not. */
  lemma {:induction false} ScriptSeesTheWindow(requests: seq<Request>, r: Request, window: nat, max: nat)
    requires ProperRun(requests + [r])
    ensures Pruned(Alive(After(requests, window, max), r.time), r.time, window)
            == InWindow(Admitted(requests, window, max), r.time, window)
            == Pruned(After(requests, window, max).zset, r.time, window)
  {
    hide Allowed;
    LastIsNewest(requests, r);
    if requests != [] {
      var init, last := requests[..|requests| - 1], requests[|requests| - 1];
      assert requests == init + [last] && last in requests;
      ScriptSeesTheWindow(init, last, window, max);
      LastIsNewest(init, last);
      AdmittedWereRequests(init, window, max);
      OneMoreStep(After(init, window, max), Admitted(init, window, max), last, r.time, window, max);
    }
  }

  lemma OneMoreStep(w: Window, admitted: set<Request>, last: Request, now: nat, window: nat, max: nat)
    requires Pruned(Alive(w, last.time), last.time, window) == InWindow(admitted, last.time, window)
    requires last.time <= now && forall x :: x in admitted ==> x.time <= last.time && x.member != last.member
    ensures var t := Next(w, last, window, max);
            var all := admitted + (if Allowed(w, last, window, max) then {last} else {});
            Pruned(Alive(t, now), now, window) == InWindow(all, now, window) == Pruned(t.zset, now, window)
  {
    hide Alive, Allowed, Added, InWindow, Pruned;
    var all := admitted + (if Allowed(w, last, window, max) then {last} else {});
    ZsetIsTheWindow(w, admitted, last, window, max);
    WindowMoves(Next(w, last, window, max).zset, all, last.time, now, window);
    NothingLeft(all, last.time, now, window);
    AliveOrNot(Next(w, last, window, max), now);
  }

  lemma AliveOrNot(w: Window, now: nat)
    ensures now < w.expires ==> Alive(w, now) == w.zset
    ensures now >= w.expires ==> Alive(w, now) == {}
  {
  }

  /** What a script call leaves in the set. */
  lemma ZsetIsTheWindow(w: Window, admitted: set<Request>, last: Request, window: nat, max: nat)
    requires Pruned(Alive(w, last.time), last.time, window) == InWindow(admitted, last.time, window)
    requires forall x :: x in admitted ==> x.time <= last.time && x.member != last.member
    ensures var all := admitted + (if Allowed(w, last, window, max) then {last} else {});
            && Pruned(Next(w, last, window, max).zset, last.time, window) == InWindow(all, last.time, window)
            && forall x :: x in all ==> x.time <= last.time
  {
    hide Alive;
    var kept := InWindow(admitted, last.time, window);
    assert Added(kept, last) == kept + {last};
  }

  lemma WindowMoves(zset: set<Request>, all: set<Request>, last: nat, now: nat, window: nat)
    requires last <= now && forall x :: x in all ==> x.time <= last
    requires Pruned(zset, last, window) == InWindow(all, last, window)
    ensures Pruned(zset, now, window) == InWindow(all, now, window)
  {
    assert Pruned(zset, now, window) == Pruned(Pruned(zset, last, window), now, window);
    assert InWindow(all, now, window) == Pruned(InWindow(all, last, window), now, window);
  }

  lemma NothingLeft(all: set<Request>, last: nat, now: nat, window: nat)
    requires last <= now && forall x :: x in all ==> x.time <= last
    ensures now >= last + window ==> InWindow(all, now, window) == {}
    ensures Pruned({}, now, window) == {}
  {
  }

  /** A request is admitted exactly when fewer than max requests were admitted in the window that ends with it. */
  lemma AdmittedIffRoom(requests: seq<Request>, r: Request, window: nat, max: nat)
    requires ProperRun(requests + [r])
    ensures Allowed(After(requests, window, max), r, window, max)
            <==> |InWindow(Admitted(requests, window, max), r.time, window)| < max
  {
    hide After, Admitted;
    ScriptSeesTheWindow(requests, r, window, max);
  }

  /** No interval of the window's length, wherever it lies, ever contains more than max admissions. */
  lemma {:induction false} NeverTooMany(requests: seq<Request>, window: nat, max: nat, t: int)
    requires ProperRun(requests)
    ensures |InWindow(Admitted(requests, window, max), t, window)| <= max
  {
    hide After, Allowed;
    if requests == [] {
      assert InWindow({}, t, window) == {};
    } else {
      var init, r := requests[..|requests| - 1], requests[|requests| - 1];
      assert requests == init + [r];
      LastIsNewest(init, r);
      NeverTooMany(init, window, max, t);
      AdmittedIffRoom(init, r, window, max);
      AdmittedWereRequests(init, window, max);
      var before, all := Admitted(init, window, max), Admitted(requests, window, max);
      if Allowed(After(init, window, max), r, window, max) && t >= r.time {
        FitsWithOneMore(before, r, t, window, max);
      } else {
        assert InWindow(all, t, window) == InWindow(before, t, window);
      }
    }
  }

  lemma FitsWithOneMore(before: set<Request>, r: Request, t: int, window: nat, max: nat)
    requires t >= r.time && |InWindow(before, r.time, window)| < max && forall x :: x in before ==> x.time <= r.time
    ensures |InWindow(before + {r}, t, window)| <= max
  {
    var now := InWindow(before, r.time, window);
    assert InWindow(before + {r}, t, window) <= now + {r};
    Smaller(InWindow(before + {r}, t, window), now + {r});
  }

  lemma {:induction false} Smaller(a: set<Request>, b: set<Request>)
    requires a <= b
    ensures |a| <= |b|
  {
    if x :| x in a {
      Smaller(a - {x}, b - {x});
    }
  }

  /** A rejection means that exactly max admitted requests lie in the window that ends now. */
  lemma RejectedOnlyWhenFull(requests: seq<Request>, r: Request, window: nat, max: nat)
    requires ProperRun(requests + [r])
    ensures !Allowed(After(requests, window, max), r, window, max)
            <==> |InWindow(Admitted(requests, window, max), r.time, window)| == max
  {
    hide After, Admitted, Allowed;
    AdmittedIffRoom(requests, r, window, max);
    LastIsNewest(requests, r);
    NeverTooMany(requests, window, max, r.time);
  }

  /** The expiry of the key never changes a verdict: without it the script would count the same. */
  lemma ExpiryChangesNothing(requests: seq<Request>, r: Request, window: nat, max: nat)
    requires ProperRun(requests + [r])
    ensures Allowed(After(requests, window, max), r, window, max)
            <==> |Pruned(After(requests, window, max).zset, r.time, window)| < max
    ensures Next(After(requests, window, max), r, window, max)
            == Next(After(requests, window, max).(expires := r.time + 1), r, window, max)
  {
    hide After;
    ScriptSeesTheWindow(requests, r, window, max);
  }

  // ---- Shared members ----

  predicate InOrder(requests: seq<Request>) {
    forall i, j :: 0 <= i < j < |requests| ==> requests[i].time <= requests[j].time
  }

  function Members(requests: set<Request>): set<string> {
    set r | r in requests :: r.member
  }

  /** The set holds the latest admission of every member admitted in the window that ended at the last call. */
  ghost predicate HoldsLatest(zset: set<Request>, admitted: set<Request>, last: int, window: nat) {
    && (forall a :: a in admitted ==> a.time <= last)
    && (forall x :: x in zset ==> x in admitted)
    && (forall x, a :: x in zset && a in admitted && a.member == x.member ==> a.time <= x.time)
    && (forall x, y :: x in zset && y in zset && x.member == y.member ==> x == y)
    && (forall a :: a in admitted && a.time > last - window ==> a.member in Members(zset))
  }

  /** What is alive and kept at a later call is still the latest of each member. */
  lemma KeptIsLatest(w: Window, admitted: set<Request>, last: nat, now: nat, window: nat)
    requires HoldsLatest(w.zset, admitted, last, window) && w.expires == last + window && last <= now
    ensures HoldsLatest(Pruned(Alive(w, now), now, window), admitted, now, window)
  {
    var kept := Pruned(Alive(w, now), now, window);
    forall a | a in admitted && a.time > now - window ensures a.member in Members(kept) {
      assert a.member in Members(w.zset);
      var x :| x in w.zset && x.member == a.member;
      assert x in kept;
    }
  }

  lemma AddedIsLatest(kept: set<Request>, admitted: set<Request>, r: Request, window: nat)
    requires HoldsLatest(kept, admitted, r.time, window)
    ensures HoldsLatest(Added(kept, r), admitted + {r}, r.time, window)
  {
    var z := Added(kept, r);
    forall a | a in admitted + {r} && a.time > r.time - window ensures a.member in Members(z) {
      if a.member == r.member {
        assert r in z;
      } else {
        assert a.member in Members(kept);
        var x :| x in kept && x.member == a.member;
        assert x in z;
      }
    }
  }

  lemma {:induction false} SetHoldsLatest(requests: seq<Request>, window: nat, max: nat)
    requires requests != [] && InOrder(requests)
    ensures var last := requests[|requests| - 1].time;
            && HoldsLatest(After(requests, window, max).zset, Admitted(requests, window, max), last, window)
            && After(requests, window, max).expires == last + window
  {
    hide HoldsLatest, Pruned, Added, Alive;
    var init, r := requests[..|requests| - 1], requests[|requests| - 1];
    if init == [] {
      FirstIsLatest(r, window);
    } else {
      SetHoldsLatest(init, window, max);
      KeptIsLatest(After(init, window, max), Admitted(init, window, max), init[|init| - 1].time, r.time, window);
    }
    var kept := Pruned(Alive(After(init, window, max), r.time), r.time, window);
    AddedIsLatest(kept, Admitted(init, window, max), r, window);
    assert Admitted(init, window, max) + {} == Admitted(init, window, max);
  }

  lemma FirstIsLatest(r: Request, window: nat)
    ensures Pruned(Alive(Window({}, 0), r.time), r.time, window) == {}
    ensures HoldsLatest(Pruned(Alive(Window({}, 0), r.time), r.time, window), {}, r.time, window)
  {
  }

  /** A set with one request per member has as many requests as members. */
  lemma {:induction false} OnePerMember(s: set<Request>)
    requires forall x, y :: x in s && y in s && x.member == y.member ==> x == y
    ensures |s| == |Members(s)|
  {
    if x :| x in s {
      OnePerMember(s - {x});
      assert Members(s) == Members(s - {x}) + {x.member} && x.member !in Members(s - {x});
    } else {
      assert Members(s) == {};
    }
  }

  /**
   In every run whose time does not go back, whatever members the requests bring: a request is
   admitted if and only if fewer than max different members were admitted in the window that ends
   with it. So the limit counts members, and counts requests exactly where members differ.
   */
  lemma AdmittedIffFewMembers(requests: seq<Request>, r: Request, window: nat, max: nat)
    requires InOrder(requests + [r])
    ensures Allowed(After(requests, window, max), r, window, max)
            <==> |Members(InWindow(Admitted(requests, window, max), r.time, window))| < max
  {
    hide After, Admitted, InWindow, Pruned, Alive;
    var w, admitted := After(requests, window, max), Admitted(requests, window, max);
    if requests == [] {
      NothingAdmitted(window, max);
      FirstIsLatest(r, window);
    } else {
      OrderOfRequests(requests, r);
      SetHoldsLatest(requests, window, max);
      KeptIsLatest(w, admitted, requests[|requests| - 1].time, r.time, window);
    }
    var kept := Pruned(Alive(w, r.time), r.time, window);
    OnePerMember(kept);
    SameMembers(kept, w, admitted, r.time, window);
  }

  lemma NothingAdmitted(window: nat, max: nat)
    ensures After([], window, max) == Window({}, 0) && Admitted([], window, max) == {}
  {
  }

  lemma OrderOfRequests(requests: seq<Request>, r: Request)
    requires requests != [] && InOrder(requests + [r])
    ensures InOrder(requests) && requests[|requests| - 1].time <= r.time
  {
    var all := requests + [r];
    assert all[|requests|] == r && forall i :: 0 <= i < |requests| ==> all[i] == requests[i];
  }

  lemma SameMembers(kept: set<Request>, w: Window, admitted: set<Request>, now: nat, window: nat)
    requires kept == Pruned(Alive(w, now), now, window) && HoldsLatest(kept, admitted, now, window)
    ensures Members(kept) == Members(InWindow(admitted, now, window))
  {
    hide Alive;
    forall m ensures m in Members(kept) <==> m in Members(InWindow(admitted, now, window)) {
      if m in Members(kept) {
        var x :| x in kept && x.member == m;
        assert x in InWindow(admitted, now, window);
      }
      if m in Members(InWindow(admitted, now, window)) {
        var a :| a in InWindow(admitted, now, window) && a.member == m;
      }
    }
  }

  /** If requests shared a member they would overwrite each other, and any number would pass. */
  lemma SharedMembersSlipThrough(r: Request, window: nat)
    requires window > 0
    ensures |Next(Next(Next(Window({}, 0), r, window, 2), r, window, 2), r, window, 2).zset| == 1
    ensures Allowed(Next(Next(Window({}, 0), r, window, 2), r, window, 2), r, window, 2)
  {
    assert Next(Window({}, 0), r, window, 2).zset == {r};
    assert Pruned({r}, r.time, window) == {r} && Added({r}, r) == {r};
  }
}
