/**
 The consumer of the follow graph's outbox: at-least-once delivery in any order, where one
 script sets the dedupe mark of an event and moves both users' counts.
 */
module FollowCounts {
  import opened Prelude
  import opened Decimal
  import opened Ordered
  import opened FollowGraph

  // ---- The dedupe key ----

  function KindText(e: Event): string {
    if e.Created? then "FollowCreated" else "FollowCanceled"
  }

  function RelationText(e: Event): string {
    if e.Created? then Format(e.relation) else "0"
  }

  function DedupeKey(e: Event): string {
    "dedup:rel:" + (KindText(e) + ":" + (Format(e.from) + ":" + (Format(e.to) + ":" + RelationText(e))))
  }

  lemma SameParts(a: string, rest: string, b: string, other: string)
    requires ':' !in a && ':' !in b && a + ":" + rest == b + ":" + other
    ensures a == b && rest == other
  {
    hide Cut;
    CutAtSeparator(a, ':', rest);
    CutAtSeparator(b, ':', other);
    assert a + ":" + rest == a + [':'] + rest && b + ":" + other == b + [':'] + other;
  }

  lemma NoColon(n: nat)
    ensures ':' !in Format(n)
  {
    assert AllDigits(Format(n));
  }

  /** Two events share a dedupe key only if they are the same event, or cancel the same pair. */
  lemma KeysTellEventsApart(a: Event, b: Event)
    ensures DedupeKey(a) == DedupeKey(b) <==> a == b
  {
    hide Format;
    if DedupeKey(a) == DedupeKey(b) {
      NoColon(a.from);
      NoColon(b.from);
      NoColon(a.to);
      NoColon(b.to);
      var pa, pb := Format(a.to) + ":" + RelationText(a), Format(b.to) + ":" + RelationText(b);
      var fa, fb := Format(a.from) + ":" + pa, Format(b.from) + ":" + pb;
      assert DedupeKey(a)[|"dedup:rel:"|..] == KindText(a) + ":" + fa;
      assert DedupeKey(b)[|"dedup:rel:"|..] == KindText(b) + ":" + fb;
      SameParts(KindText(a), fa, KindText(b), fb);
      SameParts(Format(a.from), pa, Format(b.from), pb);
      SameParts(Format(a.to), RelationText(a), Format(b.to), RelationText(b));
      assert |KindText(a)| != |KindText(b)| || a.Created? == b.Created?;
      FormatInjective(a.from, b.from);
      FormatInjective(a.to, b.to);
      if a.Created? && b.Created? {
        FormatInjective(a.relation, b.relation);
      }
    }
  }

  // ---- The counts ----

  function Delta(e: Event): int {
    if e.Created? then 1 else -1
  }

  function Count(counts: map<nat, int>, u: nat): int {
    if u in counts then counts[u] else 0
  }

  datatype Counters = Counters(marks: set<string>, following: map<nat, int>, follower: map<nat, int>)

  function CountsOf(c: Counters, side: Side): map<nat, int> {
    if side.Source? then c.following else c.follower
  }

  function Processed(c: Counters, e: Event): Counters {
    if DedupeKey(e) in c.marks then c
    else
      Counters(c.marks + {DedupeKey(e)},
               c.following[e.from := Count(c.following, e.from) + Delta(e)],
               c.follower[e.to := Count(c.follower, e.to) + Delta(e)])
  }

  class UserCounter {
    var marks: set<string>
    var following: map<nat, int>
    var follower: map<nat, int>

    ghost function State(): Counters
      reads this
    {
      Counters(marks, following, follower)
    }

    constructor ()
      ensures State() == Counters({}, map[], map[])
    {
      marks, following, follower := {}, map[], map[];
    }

    /** SET NX of the mark, and only then both increments. */
    method ApplyFollowDeltaOnce(dedupeKey: string, from: nat, to: nat, delta: int) returns (first: bool)
      modifies this
      ensures first <==> dedupeKey !in old(marks)
      ensures !first ==> State() == old(State())
      ensures first ==> State() == Counters(old(marks) + {dedupeKey},
                                            old(following)[from := Count(old(following), from) + delta],
                                            old(follower)[to := Count(old(follower), to) + delta])
    {
      first := dedupeKey !in marks;
      if first {
        marks := marks + {dedupeKey};
        following := following[from := Count(following, from) + delta];
        follower := follower[to := Count(follower, to) + delta];
      }
    }

    /** One delivery of an event; when the list caches cannot be updated the event comes again later. */
    method Process(e: Event, zsetsOk: bool) returns (ok: bool)
      modifies this
      ensures ok == zsetsOk
      ensures State() == if ok then Processed(old(State()), e) else old(State())
    {
      hide DedupeKey;
      if !zsetsOk {
        return false;
      }
      var first := ApplyFollowDeltaOnce(DedupeKey(e), e.from, e.to, if e.Created? then 1 else -1);
      ok := true;
    }

    /** The follower count others read: unknown when missing, and never negative. */
    method FollowerCount(u: nat) returns (count: Option<int>)
      ensures count == if u in follower then Some(Max(0, follower[u])) else None
    {
      if u !in follower {
        return None;
      }
      if follower[u] < 0 {
        return Some(0);
      }
      count := Some(follower[u]);
    }
  }

  // ---- Every run: both counts move together ----

  datatype Action = Deliver(event: Event) | Expire(key: string)

  function Act(c: Counters, a: Action): Counters {
    match a
    case Deliver(e) => Processed(c, e)
    case Expire(key) => c.(marks := c.marks - {key})
  }

  function RunOf(actions: seq<Action>): Counters {
    if actions == [] then Counters({}, map[], map[])
    else Act(RunOf(actions[..|actions| - 1]), actions[|actions| - 1])
  }

  function Sum(counts: map<nat, int>, users: seq<nat>): int {
    if users == [] then 0 else Sum(counts, users[..|users| - 1]) + Count(counts, users[|users| - 1])
  }

  lemma {:induction false} SumOfBump(counts: map<nat, int>, u: nat, d: int, users: seq<nat>)
    requires Distinct(users)
    ensures Sum(counts[u := Count(counts, u) + d], users) == Sum(counts, users) + (if u in users then d else 0)
  {
    if users != [] {
      assert users == users[..|users| - 1] + [users[|users| - 1]];
      SumOfBump(counts, u, d, users[..|users| - 1]);
    }
  }

  ghost predicate Covers(users: seq<nat>, actions: seq<Action>) {
    forall a :: a in actions && a.Deliver? ==> a.event.from in users && a.event.to in users
  }

  /**
   The counts of all users add up to the same number on both sides, in every state: whatever is
   delivered, in whatever order and however often, and also when marks expire in between.
   */
  lemma {:induction false} SumsAgree(actions: seq<Action>, users: seq<nat>)
    requires Distinct(users) && Covers(users, actions)
    ensures Sum(RunOf(actions).following, users) == Sum(RunOf(actions).follower, users)
  {
    hide DedupeKey, Sum;
    if actions == [] {
      assert RunOf(actions).following == RunOf(actions).follower;
    } else {
      var init, a := actions[..|actions| - 1], actions[|actions| - 1];
      assert actions == init + [a];
      SumsAgree(init, users);
      if a.Deliver? {
        var c := RunOf(init);
        SumOfBump(c.following, a.event.from, Delta(a.event), users);
        SumOfBump(c.follower, a.event.to, Delta(a.event), users);
      }
    }
  }

  // ---- Deliveries without expiry: the counts against the degrees ----

  function Deliveries(events: seq<Event>): Counters {
    if events == [] then Counters({}, map[], map[])
    else Processed(Deliveries(events[..|events| - 1]), events[|events| - 1])
  }

  function CreatedBy(events: set<Event>, side: Side, u: nat): set<Event> {
    set e | e in events && e.Created? && Owner(e, side) == u
  }

  function CanceledBy(events: set<Event>, side: Side, u: nat): set<Event> {
    set e | e in events && e.Canceled? && Owner(e, side) == u
  }

  function Seen(events: seq<Event>): set<Event> {
    set e | e in events
  }

  lemma NewEventCounts(seen: set<Event>, e: Event, side: Side, u: nat)
    requires e !in seen
    ensures |CreatedBy(seen + {e}, side, u)| - |CanceledBy(seen + {e}, side, u)|
            == |CreatedBy(seen, side, u)| - |CanceledBy(seen, side, u)| + (if Owner(e, side) == u then Delta(e) else 0)
  {
    var c, d := CreatedBy(seen, side, u), CanceledBy(seen, side, u);
    assert CreatedBy(seen + {e}, side, u) == if e.Created? && Owner(e, side) == u then c + {e} else c;
    assert CanceledBy(seen + {e}, side, u) == if e.Canceled? && Owner(e, side) == u then d + {e} else d;
  }

  /** Whatever the order and the repetition, a count is that of the set of events seen. */
  lemma {:induction false} CountsOfSeen(events: seq<Event>, side: Side, u: nat)
    ensures forall e :: DedupeKey(e) in Deliveries(events).marks <==> e in events
    ensures Count(CountsOf(Deliveries(events), side), u)
            == |CreatedBy(Seen(events), side, u)| - |CanceledBy(Seen(events), side, u)|
  {
    hide DedupeKey, CreatedBy, CanceledBy;
    if events == [] {
      NoneSeen(side, u);
    } else {
      var init, e := events[..|events| - 1], events[|events| - 1];
      assert events == init + [e];
      CountsOfSeen(init, side, u);
      forall f ensures DedupeKey(f) == DedupeKey(e) <==> f == e {
        KeysTellEventsApart(f, e);
      }
      if e in init {
        assert Seen(events) == Seen(init);
      } else {
        assert Seen(events) == Seen(init) + {e};
        NewEventCounts(Seen(init), e, side, u);
      }
    }
  }

  lemma NoneSeen(side: Side, u: nat)
    ensures CreatedBy({}, side, u) == {} == CanceledBy({}, side, u)
    ensures Seen([]) == {}
  {
  }

  /** No cancel of a relation of this user is in the log a second time. */
  ghost predicate CanceledOnce(log: seq<Event>, side: Side, u: nat) {
    forall i, j :: 0 <= i < j < |log| && log[i].Canceled? && Owner(log[i], side) == u ==> log[i] != log[j]
  }

  lemma {:induction false} DistinctCreates(log: seq<Event>, nextID: nat, side: Side, u: nat)
    requires FreshIDs(log, nextID)
    ensures |CreatedBy(Seen(log), side, u)| == Creates(log, side, u)
  {
    hide Seen, CreatedBy;
    if log == [] {
      NoneSeen(side, u);
    } else {
      var init, e := log[..|log| - 1], log[|log| - 1];
      assert log == init + [e];
      DistinctCreates(init, nextID, side, u);
      assert e.Created? ==> e !in init;
      SeenAppends(init, e, side, u);
    }
  }

  lemma SeenAppends(init: seq<Event>, e: Event, side: Side, u: nat)
    ensures |CreatedBy(Seen(init + [e]), side, u)|
            == |CreatedBy(Seen(init), side, u)| + (if e.Created? && Owner(e, side) == u && e !in init then 1 else 0)
    ensures |CanceledBy(Seen(init + [e]), side, u)|
            == |CanceledBy(Seen(init), side, u)| + (if e.Canceled? && Owner(e, side) == u && e !in init then 1 else 0)
  {
    var made, gone := CreatedBy(Seen(init), side, u), CanceledBy(Seen(init), side, u);
    assert CreatedBy(Seen(init + [e]), side, u) == if e.Created? && Owner(e, side) == u then made + {e} else made;
    assert CanceledBy(Seen(init + [e]), side, u) == if e.Canceled? && Owner(e, side) == u then gone + {e} else gone;
  }

  lemma {:induction false} CancelsAtLeastKeys(log: seq<Event>, side: Side, u: nat)
    ensures |CanceledBy(Seen(log), side, u)| <= Cancels(log, side, u)
    ensures |CanceledBy(Seen(log), side, u)| == Cancels(log, side, u) <==> CanceledOnce(log, side, u)
  {
    hide CanceledOnce, Seen, CanceledBy;
    if log == [] {
      NoneSeen(side, u);
      NothingCanceled(side, u);
    } else {
      var init, e := log[..|log| - 1], log[|log| - 1];
      assert log == init + [e];
      CancelsAtLeastKeys(init, side, u);
      LastCanceled(init, e, side, u);
      SeenAppends(init, e, side, u);
    }
  }

  lemma NothingCanceled(side: Side, u: nat)
    ensures CanceledOnce([], side, u)
  {
  }

  lemma LastCanceled(init: seq<Event>, e: Event, side: Side, u: nat)
    ensures CanceledOnce(init + [e], side, u)
            <==> CanceledOnce(init, side, u) && !(e.Canceled? && Owner(e, side) == u && e in init)
  {
    var log := init + [e];
    if CanceledOnce(log, side, u) {
      forall i, j | 0 <= i < j < |init| && init[i].Canceled? && Owner(init[i], side) == u ensures init[i] != init[j] {
        assert log[i] == init[i] && log[j] == init[j];
      }
      if e in init {
        var i :| 0 <= i < |init| && init[i] == e;
        assert log[i] == e == log[|init|];
      }
    }
  }

  /**
   Once every event of a run's outbox has been delivered, in any order and however often, each
   count is at least the user's degree in the tables, and it is the degree exactly when no
   relation of that user has been canceled twice: all cancels of one pair share a mark.
   */
  lemma CountsAreDegrees(calls: seq<Call>, delivered: seq<Event>, side: Side, u: nat)
    requires var log := After(calls).tables.outbox; forall e :: e in delivered <==> e in log
    ensures var t, count := After(calls).tables, Count(CountsOf(Deliveries(delivered), side), u);
            count >= Degree(t, side, u) && (count == Degree(t, side, u) <==> CanceledOnce(t.outbox, side, u))
  {
    hide After, Deliveries, CreatedBy, CanceledBy, Creates, Cancels, CanceledOnce, Degree, FreshIDs, Mirrored, Alternates;
    var s := After(calls);
    var log := s.tables.outbox;
    assert Seen(delivered) == Seen(log);
    CountsOfSeen(delivered, side, u);
    TablesAndOutboxAgree(calls, u, u);
    DistinctCreates(log, s.nextID, side, u);
    CancelsAtLeastKeys(log, side, u);
    DegreeFromLog(calls, side, u);
  }

  /** Follow, unfollow, follow, unfollow: nobody is followed any more, but the count stays at one. */
  lemma SecondCancelIsDropped(u: nat, v: nat)
    ensures var t := After([Follow(u, v, false), Unfollow(u, v, false), Follow(u, v, false), Unfollow(u, v, false)]).tables;
            Degree(t, Source, u) == 0 && Count(Deliveries(t.outbox).following, u) == 1
  {
    hide After, Deliveries, Degree, CreatedBy, CanceledBy;
    var calls := [Follow(u, v, false), Unfollow(u, v, false), Follow(u, v, false), Unfollow(u, v, false)];
    var log := [Created(u, v, 0), Canceled(u, v), Created(u, v, 4), Canceled(u, v)];
    FourCalls(u, v);
    DegreeFromLog(calls, Source, u);
    TwoOfEach(u, v);
    CountsOfSeen(log, Source, u);
    TwoCreatedOneCanceled(u, v);
  }

  lemma TwoOfEach(u: nat, v: nat)
    ensures var log := [Created(u, v, 0), Canceled(u, v), Created(u, v, 4), Canceled(u, v)];
            Creates(log, Source, u) == 2 == Cancels(log, Source, u)
  {
    hide Creates, Cancels;
    var a, b, c := Created(u, v, 0), Canceled(u, v), Created(u, v, 4);
    NothingCounted(Source, u);
    CountsAppend([], a, Source, u);
    CountsAppend([a], b, Source, u);
    CountsAppend([a, b], c, Source, u);
    CountsAppend([a, b, c], b, Source, u);
    assert [] + [a] == [a] && [a] + [b] == [a, b] && [a, b] + [c] == [a, b, c] && [a, b, c] + [b] == [a, b, c, b];
  }

  lemma TwoCreatedOneCanceled(u: nat, v: nat)
    ensures var seen := Seen([Created(u, v, 0), Canceled(u, v), Created(u, v, 4), Canceled(u, v)]);
            |CreatedBy(seen, Source, u)| == 2 && |CanceledBy(seen, Source, u)| == 1
  {
    var log := [Created(u, v, 0), Canceled(u, v), Created(u, v, 4), Canceled(u, v)];
    assert Seen(log) == {log[0], log[1], log[2]};
    assert CreatedBy(Seen(log), Source, u) == {log[0], log[2]};
    assert CanceledBy(Seen(log), Source, u) == {log[1]};
  }

  lemma FourCalls(u: nat, v: nat)
    ensures var a, b := Follow(u, v, false), Unfollow(u, v, false);
            After([a, b, a, b]).tables.outbox == [Created(u, v, 0), Canceled(u, v), Created(u, v, 4), Canceled(u, v)]
  {
    var a, b := Follow(u, v, false), Unfollow(u, v, false);
    assert [a, b, a, b][..3] == [a, b, a] && [a, b, a][..2] == [a, b] && [a, b][..1] == [a] && [a][..0] == [];
    assert After([a]).tables.outbox == [Created(u, v, 0)];
    assert After([a, b]).tables.outbox == [Created(u, v, 0), Canceled(u, v)];
    assert After([a, b, a]).tables.outbox == [Created(u, v, 0), Canceled(u, v), Created(u, v, 4)];
  }
}
