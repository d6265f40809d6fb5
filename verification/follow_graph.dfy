/**
 The follow graph: two mirrored relation tables and the outbox, changed together in one
 transaction by every follow and unfollow.
 */
module FollowGraph {
  import opened Prelude
  import opened Ordered

  type Pair = (nat, nat)

  /** A relation row: the id it was inserted with, which later activations keep, and rel_status. */
  datatype Row = Row(id: nat, active: bool)

  datatype Event = Created(from: nat, to: nat, relation: nat) | Canceled(from: nat, to: nat)

  /** `following` is keyed by (from, to) and `follower` by (to, from). */
  datatype Tables = Tables(following: map<Pair, Row>, follower: map<Pair, Row>, outbox: seq<Event>)

  predicate Active(table: map<Pair, Row>, p: Pair) {
    p in table && table[p].active
  }

  /** INSERT ... ON DUPLICATE KEY UPDATE with rel_status 1: an existing row keeps its id. */
  function Upsert(table: map<Pair, Row>, p: Pair, id: nat): map<Pair, Row> {
    table[p := Row(if p in table then table[p].id else id, true)]
  }

  /** UPDATE ... SET rel_status = 0 ... WHERE rel_status = 1. */
  function Deactivate(table: map<Pair, Row>, p: Pair): map<Pair, Row> {
    if Active(table, p) then table[p := Row(table[p].id, false)] else table
  }

  function Followed(t: Tables, from: nat, to: nat, id: nat, reverseID: nat): Tables {
    Tables(Upsert(t.following, (from, to), id), Upsert(t.follower, (to, from), reverseID), t.outbox + [Created(from, to, id)])
  }

  function Unfollowed(t: Tables, from: nat, to: nat): Tables {
    Tables(Deactivate(t.following, (from, to)), Deactivate(t.follower, (to, from)), t.outbox + [Canceled(from, to)])
  }

  // ---- The service ----

  /** The statements of a transaction, any of which the database may fail. */
  datatype Statement = Begin | WriteFollowing | WriteFollower | WriteEvent | Commit

  datatype Result = Failed | Done(changed: bool)

  class RelationService {
    var tables: Tables
    var nextID: nat
    var saved: Tables

    constructor ()
      ensures tables == Tables(map[], map[], []) && nextID == 0
    {
      tables, saved, nextID := Tables(map[], map[], []), Tables(map[], map[], []), 0;
    }

    /** The end of RunInTx: the event goes in last, and whatever fails before the commit undoes all writes. */
    method Finish(event: Event, faults: set<Statement>) returns (ok: bool)
      modifies this`tables
      ensures ok <==> WriteEvent !in faults && Commit !in faults
      ensures tables == if ok then old(tables).(outbox := old(tables).outbox + [event]) else saved
    {
      if WriteEvent in faults {
        tables := saved;
        return false;
      }
      tables := tables.(outbox := tables.outbox + [event]);
      if Commit in faults {
        tables := saved;
        return false;
      }
      ok := true;
    }

    /** Only a transition from not following to following changes rows and leaves an event. */
    method Follow(from: nat, to: nat, faults: set<Statement>) returns (r: Result)
      modifies this
      ensures State(tables, nextID) == Step(old(State(tables, nextID)), Call.Follow(from, to, r.Failed?))
      ensures r.Done? ==> (r.changed <==> !Active(old(tables).following, (from, to))) && Active(tables.following, (from, to))
      ensures r == Done(true) ==> tables.outbox == old(tables).outbox + [Created(from, to, old(nextID))]
      ensures r.Failed? ==> faults != {}
    {
      var id, reverseID := nextID, nextID + 1;
      nextID := nextID + 3;
      if Begin in faults {
        return Failed;
      }
      saved := tables;
      if WriteFollowing in faults {
        return Failed;
      }
      var transitioned := !Active(tables.following, (from, to));
      tables := tables.(following := Upsert(tables.following, (from, to), id));
      if WriteFollower in faults {
        tables := saved;
        return Failed;
      }
      tables := tables.(follower := Upsert(tables.follower, (to, from), reverseID));
      if !transitioned {
        tables := saved;
        return Done(false);
      }
      var ok := Finish(Created(from, to, id), faults);
      r := if ok then Done(true) else Failed;
    }

    method Unfollow(from: nat, to: nat, faults: set<Statement>) returns (r: Result)
      modifies this
      ensures State(tables, nextID) == Step(old(State(tables, nextID)), Call.Unfollow(from, to, r.Failed?))
      ensures r.Done? ==> (r.changed <==> Active(old(tables).following, (from, to))) && !Active(tables.following, (from, to))
      ensures r == Done(true) ==> tables.outbox == old(tables).outbox + [Canceled(from, to)]
      ensures r.Failed? ==> faults != {}
    {
      nextID := nextID + 1;
      if Begin in faults {
        return Failed;
      }
      saved := tables;
      if WriteFollowing in faults {
        return Failed;
      }
      if !Active(tables.following, (from, to)) {
        return Done(false);
      }
      tables := tables.(following := Deactivate(tables.following, (from, to)));
      if WriteFollower in faults {
        tables := saved;
        return Failed;
      }
      tables := tables.(follower := Deactivate(tables.follower, (to, from)));
      var ok := Finish(Canceled(from, to), faults);
      r := if ok then Done(true) else Failed;
    }
  }

  // ---- Runs ----

  /** One call of the service; `fails` when its transaction is rolled back. */
  datatype Call = Follow(from: nat, to: nat, fails: bool) | Unfollow(from: nat, to: nat, fails: bool)

  datatype State = State(tables: Tables, nextID: nat)

  function Step(s: State, c: Call): State {
    var active := Active(s.tables.following, (c.from, c.to));
    match c
    case Follow(from, to, fails) =>
      State(if fails || active then s.tables else Followed(s.tables, from, to, s.nextID, s.nextID + 1), s.nextID + 3)
    case Unfollow(from, to, fails) =>
      State(if fails || !active then s.tables else Unfollowed(s.tables, from, to), s.nextID + 1)
  }

  function After(calls: seq<Call>): State {
    if calls == [] then State(Tables(map[], map[], []), 0)
    else Step(After(calls[..|calls| - 1]), calls[|calls| - 1])
  }

  function Of(from: nat, to: nat): Event -> bool {
    (e: Event) => e.from == from && e.to == to
  }

  /** The two tables hold the same relations, read from either end. */
  ghost predicate Mirrored(t: Tables) {
    forall u: nat, v: nat :: Active(t.following, (u, v)) <==> Active(t.follower, (v, u))
  }

  /** A pair's events alternate, a Created first, and end in Created exactly while the relation is active. */
  ghost predicate Alternates(t: Tables, u: nat, v: nat) {
    var log := Filter(Of(u, v), t.outbox);
    && (forall i :: 0 <= i < |log| ==> (log[i].Created? <==> i % 2 == 0))
    && (Active(t.following, (u, v)) <==> |log| % 2 == 1)
  }

  /** No two Created events carry the same relation id, and ids to come are new. */
  ghost predicate FreshIDs(log: seq<Event>, nextID: nat) {
    && (forall e :: e in log && e.Created? ==> e.relation < nextID)
    && forall i, j :: 0 <= i < j < |log| && log[i].Created? && log[j].Created? ==> log[i].relation != log[j].relation
  }

  lemma AppendedAlternates(t: Tables, after: Tables, e: Event, u: nat, v: nat)
    requires Alternates(t, u, v) && after.outbox == t.outbox + [e]
    requires Of(u, v)(e) ==> (e.Created? <==> !Active(t.following, (u, v)))
    requires Active(after.following, (u, v)) <==> if Of(u, v)(e) then e.Created? else Active(t.following, (u, v))
    ensures Alternates(after, u, v)
  {
    hide Filter, Active;
    FilterSnoc(Of(u, v), t.outbox, e);
  }

  lemma StepKeepsTables(s: State, c: Call)
    requires Mirrored(s.tables) && FreshIDs(s.tables.outbox, s.nextID)
    ensures Mirrored(Step(s, c).tables) && FreshIDs(Step(s, c).tables.outbox, Step(s, c).nextID)
  {
    var t, after := s.tables, Step(s, c).tables;
    assert Active(t.following, (c.from, c.to)) <==> Active(t.follower, (c.to, c.from));
    forall e | e in after.outbox && e.Created? ensures e.relation < Step(s, c).nextID {
      assert e in t.outbox || e == after.outbox[|t.outbox|];
    }
  }

  lemma StepKeepsAlternation(s: State, c: Call, u: nat, v: nat)
    requires Alternates(s.tables, u, v)
    ensures Alternates(Step(s, c).tables, u, v)
  {
    hide Alternates;
    var t, after := s.tables, Step(s, c).tables;
    if after != t {
      AppendedAlternates(t, after, after.outbox[|t.outbox|], u, v);
    }
  }

  /** What every run of follows and unfollows keeps, failed transactions included. */
  lemma {:induction false} TablesAndOutboxAgree(calls: seq<Call>, u: nat, v: nat)
    ensures var s := After(calls);
            Mirrored(s.tables) && FreshIDs(s.tables.outbox, s.nextID) && Alternates(s.tables, u, v)
  {
    hide Mirrored, FreshIDs, Alternates, Step;
    if calls == [] {
      EmptyTables(u, v);
    } else {
      TablesAndOutboxAgree(calls[..|calls| - 1], u, v);
      StepKeepsTables(After(calls[..|calls| - 1]), calls[|calls| - 1]);
      StepKeepsAlternation(After(calls[..|calls| - 1]), calls[|calls| - 1], u, v);
    }
  }

  lemma EmptyTables(u: nat, v: nat)
    ensures var t := Tables(map[], map[], []); Mirrored(t) && FreshIDs([], 0) && Alternates(t, u, v)
  {
  }

  // ---- What the calls ask for is what the tables say ----

  /** Whether the last call for a pair that went through was a follow. */
  function LastWord(calls: seq<Call>, u: nat, v: nat): bool {
    if calls == [] then false
    else
      var c := calls[|calls| - 1];
      if !c.fails && c.from == u && c.to == v then c.Follow? else LastWord(calls[..|calls| - 1], u, v)
  }

  lemma StepObeys(s: State, c: Call, u: nat, v: nat)
    ensures Active(Step(s, c).tables.following, (u, v))
            <==> if !c.fails && c.from == u && c.to == v then c.Follow? else Active(s.tables.following, (u, v))
  {
  }

  /** After any run, a user is followed by another, in both tables, exactly when the last call that went through says so. */
  lemma {:induction false} LastCallDecides(calls: seq<Call>, u: nat, v: nat)
    ensures Active(After(calls).tables.following, (u, v)) <==> LastWord(calls, u, v)
    ensures Active(After(calls).tables.follower, (v, u)) <==> LastWord(calls, u, v)
  {
    hide Step, Active, Mirrored, FreshIDs, Alternates;
    TablesAndOutboxAgree(calls, u, v);
    MirroredAt(After(calls).tables, u, v);
    if calls == [] {
      NobodyFollows(u, v);
    } else {
      LastCallDecides(calls[..|calls| - 1], u, v);
      StepObeys(After(calls[..|calls| - 1]), calls[|calls| - 1], u, v);
    }
  }

  lemma NobodyFollows(u: nat, v: nat)
    ensures !Active(After([]).tables.following, (u, v))
  {
  }

  lemma MirroredAt(t: Tables, u: nat, v: nat)
    requires Mirrored(t)
    ensures Active(t.following, (u, v)) <==> Active(t.follower, (v, u))
  {
  }

  /** A row stands for its pair's first event: it keeps that event's relation id through every later call. */
  ghost predicate RowOfFirst(t: Tables, u: nat, v: nat) {
    var log := Filter(Of(u, v), t.outbox);
    && ((u, v) in t.following <==> log != [])
    && ((u, v) in t.following ==> log[0] == Created(u, v, t.following[(u, v)].id))
  }

  lemma StepKeepsRow(s: State, c: Call, u: nat, v: nat)
    requires RowOfFirst(s.tables, u, v)
    ensures RowOfFirst(Step(s, c).tables, u, v)
  {
    hide Filter;
    var t, after := s.tables, Step(s, c).tables;
    if after != t {
      var e := after.outbox[|t.outbox|];
      assert after.outbox == t.outbox + [e];
      FilterSnoc(Of(u, v), t.outbox, e);
    }
  }

  lemma {:induction false} RowKeepsFirstID(calls: seq<Call>, u: nat, v: nat)
    ensures RowOfFirst(After(calls).tables, u, v)
  {
    hide RowOfFirst, Step;
    if calls == [] {
      NoRows(u, v);
    } else {
      RowKeepsFirstID(calls[..|calls| - 1], u, v);
      StepKeepsRow(After(calls[..|calls| - 1]), calls[|calls| - 1], u, v);
    }
  }

  lemma NoRows(u: nat, v: nat)
    ensures RowOfFirst(Tables(map[], map[], []), u, v)
  {
  }

  // ---- Degrees ----

  /** Following counts are kept for the source of a relation, follower counts for its target. */
  datatype Side = Source | Target

  function Owner(e: Event, side: Side): nat {
    if side.Source? then e.from else e.to
  }

  function TableOf(t: Tables, side: Side): map<Pair, Row> {
    if side.Source? then t.following else t.follower
  }

  function PairOf(e: Event, side: Side): Pair {
    if side.Source? then (e.from, e.to) else (e.to, e.from)
  }

  function ActiveOf(table: map<Pair, Row>, u: nat): set<Pair> {
    set p | p in table && table[p].active && p.0 == u
  }

  /** The number of active relations of a user: the out-degree or the in-degree. */
  function Degree(t: Tables, side: Side, u: nat): nat {
    |ActiveOf(TableOf(t, side), u)|
  }

  function Creates(log: seq<Event>, side: Side, u: nat): nat {
    if log == [] then 0
    else Creates(log[..|log| - 1], side, u) + (if log[|log| - 1].Created? && Owner(log[|log| - 1], side) == u then 1 else 0)
  }

  function Cancels(log: seq<Event>, side: Side, u: nat): nat {
    if log == [] then 0
    else Cancels(log[..|log| - 1], side, u) + (if log[|log| - 1].Canceled? && Owner(log[|log| - 1], side) == u then 1 else 0)
  }

  lemma UpsertAdds(table: map<Pair, Row>, p: Pair, id: nat, u: nat)
    requires !Active(table, p)
    ensures |ActiveOf(Upsert(table, p, id), u)| == |ActiveOf(table, u)| + (if p.0 == u then 1 else 0)
  {
    assert ActiveOf(Upsert(table, p, id), u) == if p.0 == u then ActiveOf(table, u) + {p} else ActiveOf(table, u);
  }

  lemma DeactivateRemoves(table: map<Pair, Row>, p: Pair, u: nat)
    requires Active(table, p)
    ensures |ActiveOf(Deactivate(table, p), u)| == |ActiveOf(table, u)| - (if p.0 == u then 1 else 0)
  {
    assert ActiveOf(Deactivate(table, p), u) == if p.0 == u then ActiveOf(table, u) - {p} else ActiveOf(table, u);
  }

  lemma StepKeepsDegree(s: State, c: Call, side: Side, u: nat)
    requires Mirrored(s.tables)
    requires Degree(s.tables, side, u) == Creates(s.tables.outbox, side, u) - Cancels(s.tables.outbox, side, u)
    ensures var t := Step(s, c).tables; Degree(t, side, u) == Creates(t.outbox, side, u) - Cancels(t.outbox, side, u)
  {
    hide Creates, Cancels, ActiveOf, Active, Upsert, Deactivate;
    var t, after := s.tables, Step(s, c).tables;
    assert Active(t.following, (c.from, c.to)) <==> Active(t.follower, (c.to, c.from));
    if after != t {
      var e := after.outbox[|t.outbox|];
      CountsAppend(t.outbox, e, side, u);
      var p := PairOf(e, side);
      if e.Created? {
        UpsertAdds(TableOf(t, side), p, if side.Source? then s.nextID else s.nextID + 1, u);
      } else {
        DeactivateRemoves(TableOf(t, side), p, u);
      }
    }
  }

  lemma CountsAppend(log: seq<Event>, e: Event, side: Side, u: nat)
    ensures Creates(log + [e], side, u) == Creates(log, side, u) + (if e.Created? && Owner(e, side) == u then 1 else 0)
    ensures Cancels(log + [e], side, u) == Cancels(log, side, u) + (if e.Canceled? && Owner(e, side) == u then 1 else 0)
  {
    assert (log + [e])[..|log|] == log;
  }

  /** A user's degree is the number of its Created events less that of its Canceled events. */
  lemma {:induction false} DegreeFromLog(calls: seq<Call>, side: Side, u: nat)
    ensures var t := After(calls).tables;
            Degree(t, side, u) == Creates(t.outbox, side, u) - Cancels(t.outbox, side, u)
  {
    hide Step, Mirrored, Creates, Cancels;
    if calls == [] {
      NothingCounted(side, u);
    } else {
      DegreeFromLog(calls[..|calls| - 1], side, u);
      TablesAndOutboxAgree(calls[..|calls| - 1], u, u);
      StepKeepsDegree(After(calls[..|calls| - 1]), calls[|calls| - 1], side, u);
    }
  }

  lemma NothingCounted(side: Side, u: nat)
    ensures Creates([], side, u) == 0 && Cancels([], side, u) == 0
  {
  }
}
