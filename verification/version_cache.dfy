/**
 Invalidation by a version number inside the cache key: readers, writers and instances
 interleave their single steps against the database, the version counter and both caches.
 A value is known by how many commits it reflects.
 */
module VersionCache {
  import opened Prelude

  const DEFAULT: int := 1

  /** The version a reader takes from Redis: a missing or non-positive counter means the default. */
  function RedisVersion(counter: Option<int>): (n: int)
    ensures n >= DEFAULT
  {
    if counter.Some? && counter.value > 0 then counter.value else DEFAULT
  }

  /** INCR, with a result below 1 replaced by 1. */
  function Incremented(counter: Option<int>): (n: int)
    ensures n >= 1
  {
    var n := (if counter.Some? then counter.value else 0) + 1;
    if n < 1 then 1 else n
  }

  class Versions {
    var counter: Option<int>
    var local: Option<int>
    var pages: map<int, nat>

    constructor (counter: Option<int>)
      ensures this.counter == counter && local == None && pages == map[]
    {
      this.counter, local, pages := counter, None, map[];
    }

    /** The locally kept version if there is one; otherwise the one in Redis, which is then kept. */
    method Get(useLocal: bool, redisOk: bool) returns (version: int)
      modifies this`local
      ensures version == if useLocal && old(local).Some? then old(local).value
                         else if redisOk then RedisVersion(counter) else DEFAULT
      ensures local == if useLocal then Some(version) else old(local)
    {
      if useLocal && local.Some? {
        return local.value;
      }
      version := DEFAULT;
      if redisOk && counter.Some? && counter.value > 0 {
        version := counter.value;
      }
      if useLocal {
        local := Some(version);
      }
    }

    method Drop()
      modifies this`local
      ensures local == None
    {
      local := None;
    }

    /** After a write: one script increments the counter and deletes the page of the new version. */
    method Invalidate(redisOk: bool)
      modifies this
      ensures local == None
      ensures redisOk ==> counter == Some(Incremented(old(counter))) && pages == old(pages) - {Incremented(old(counter))}
      ensures !redisOk ==> counter == old(counter) && pages == old(pages)
    {
      if redisOk {
        var ver := (if counter.Some? then counter.value else 0) + 1;
        if ver < 1 {
          ver := 1;
        }
        counter := Some(ver);
        pages := pages - {ver};
      }
      Drop();
    }
  }

  // ---- The interleaved system ----

  /**
   Where a reader stands. `since` is the number of commits that preceded the last INCR before
   the reader took its version from Redis, and 0 when it took it from anywhere else.
   */
  datatype Reader =
    | GotVersion(inst: nat, ver: int, since: nat)
    | Reading(inst: nat, ver: int, since: nat)
    | Loaded(inst: nat, ver: int, since: nat, value: nat)
    | FillingL1(inst: nat, ver: int, since: nat, value: nat)
    | Finished(inst: nat, ver: int, since: nat, value: nat)

  /** `bumps` records, for each version an INCR made, how many commits preceded that INCR. */
  datatype State = State(commits: nat, counter: Option<int>, lastBump: nat, bumps: map<int, nat>,
                         l2: map<int, nat>, l1: map<(nat, int), nat>, local: map<nat, int>, readers: map<nat, Reader>)

  datatype Action =
    | Commit
    | Bump
    | DropLocal(inst: nat)
    | EvictL1(inst: nat, ver: int)
    | EvictL2(ver: int)
    | TakeLocal(reader: nat, inst: nat)
    | TakeRedis(reader: nat, inst: nat)
    | RedisFails(reader: nat, inst: nat)
    | KeepLocal(reader: nat)
    | SkipLocal(reader: nat)
    | HitL1(reader: nat)
    | HitL2(reader: nat)
    | Load(reader: nat)
    | FillL2(reader: nat)
    | FillL1(reader: nat)

  function Moved(s: State, r: nat, reader: Reader): State {
    s.(readers := s.readers[r := reader])
  }

  /** One atomic step; a step that is not enabled changes nothing. */
  function Next(s: State, a: Action): State {
    match a
    case Commit => s.(commits := s.commits + 1)
    case Bump =>
      var n := Incremented(s.counter);
      s.(counter := Some(n), lastBump := s.commits, bumps := s.bumps[n := s.commits], l2 := s.l2 - {n})
    case DropLocal(inst) => s.(local := s.local - {inst})
    case EvictL1(inst, ver) => s.(l1 := s.l1 - {(inst, ver)})
    case EvictL2(ver) => s.(l2 := s.l2 - {ver})
    case TakeLocal(r, inst) => if inst in s.local then Moved(s, r, Reading(inst, s.local[inst], 0)) else s
    case TakeRedis(r, inst) => Moved(s, r, GotVersion(inst, RedisVersion(s.counter), s.lastBump))
    case RedisFails(r, inst) => Moved(s, r, GotVersion(inst, DEFAULT, 0))
    case _ => if a.reader in s.readers then Continued(s, a.reader, s.readers[a.reader], a) else s
  }

  /** The steps of a reader that already has its version. */
  function Continued(s: State, r: nat, was: Reader, a: Action): State {
    match (a, was)
    case (KeepLocal(_), GotVersion(inst, ver, since)) =>
      Moved(s, r, Reading(inst, ver, since)).(local := s.local[inst := ver])
    case (SkipLocal(_), GotVersion(inst, ver, since)) => Moved(s, r, Reading(inst, ver, since))
    case (HitL1(_), Reading(inst, ver, since)) =>
      if (inst, ver) in s.l1 then Moved(s, r, Finished(inst, ver, since, s.l1[(inst, ver)])) else s
    case (HitL2(_), Reading(inst, ver, since)) =>
      if ver in s.l2 then Moved(s, r, FillingL1(inst, ver, since, s.l2[ver])) else s
    case (Load(_), Reading(inst, ver, since)) => Moved(s, r, Loaded(inst, ver, since, s.commits))
    case (FillL2(_), Loaded(inst, ver, since, v)) =>
      Moved(s, r, FillingL1(inst, ver, since, v)).(l2 := s.l2[ver := v])
    case (FillL1(_), FillingL1(inst, ver, since, v)) =>
      Moved(s, r, Finished(inst, ver, since, v)).(l1 := s.l1[(inst, ver) := v])
    case _ => s
  }

  function Run(s: State, acts: seq<Action>): State
    decreases |acts|
  {
    if acts == [] then s else Run(Next(s, acts[0]), acts[1..])
  }

  function Start(commits: nat, counter: Option<int>): State {
    State(commits, counter, 0, map[], map[], map[], map[], map[])
  }

  // ---- What every step keeps ----

  /** The commits a value stored under a version made by an INCR must reflect. */
  function Floor(s: State, ver: int): nat {
    if ver in s.bumps then s.bumps[ver] else 0
  }

  /** A value kept under a version beyond the default is no older than the INCR that made it. */
  predicate Fresh(s: State, ver: int, value: nat) {
    ver <= RedisVersion(s.counter) && (ver > DEFAULT ==> value >= Floor(s, ver))
  }

  ghost predicate CountersOk(s: State) {
    && (forall n :: n in s.bumps ==> s.counter.Some? && n <= s.counter.value && s.bumps[n] <= s.commits)
    && s.lastBump <= Floor(s, RedisVersion(s.counter))
  }

  predicate ReaderOk(s: State, p: Reader) {
    && p.since <= Floor(s, p.ver)
    && Fresh(s, p.ver, if p.GotVersion? || p.Reading? then s.commits else p.value)
  }

  ghost predicate ReadersOk(s: State) {
    forall r :: r in s.readers ==> ReaderOk(s, s.readers[r])
  }

  ghost predicate CachesOk(s: State) {
    && (forall n :: n in s.l2 ==> Fresh(s, n, s.l2[n]))
    && (forall k :: k in s.l1 ==> Fresh(s, k.1, s.l1[k]))
    && (forall i :: i in s.local ==> s.local[i] <= RedisVersion(s.counter))
  }

  ghost predicate Inv(s: State) {
    CountersOk(s) && ReadersOk(s) && CachesOk(s)
  }

  /** A new version is one that no reader and no cache has used, unless it is the default. */
  lemma BumpKeepsInv(s: State)
    requires Inv(s)
    ensures Inv(Next(s, Bump))
  {
    var t := Next(s, Bump);
    var n := Incremented(s.counter);
    assert forall ver :: ver != n ==> Floor(t, ver) == Floor(s, ver);
    assert n > DEFAULT ==> n > RedisVersion(s.counter);
    assert n !in s.bumps;
    forall r | r in t.readers ensures ReaderOk(t, t.readers[r]) {
      assert ReaderOk(s, s.readers[r]);
    }
  }

  predicate SameClock(s: State, t: State) {
    t.commits == s.commits && t.counter == s.counter && t.bumps == s.bumps && t.lastBump == s.lastBump
  }

  lemma SameClockSameMeaning(s: State, t: State)
    requires SameClock(s, t)
    ensures CountersOk(s) ==> CountersOk(t)
    ensures forall ver, v :: Fresh(t, ver, v) <==> Fresh(s, ver, v)
    ensures forall p :: ReaderOk(t, p) <==> ReaderOk(s, p)
  {
  }

  lemma ContinuedKeepsInv(s: State, r: nat, a: Action)
    requires Inv(s) && r in s.readers
    ensures Inv(Continued(s, r, s.readers[r], a))
  {
    hide RedisVersion, Floor, CountersOk, Fresh, ReaderOk;
    var p, t := s.readers[r], Continued(s, r, s.readers[r], a);
    SameClockSameMeaning(s, t);
    assert ReaderOk(s, p);
    Carried(s, p);
  }

  /** What a reader holds stays right in its next phase. */
  lemma Carried(s: State, p: Reader)
    requires ReaderOk(s, p) && CountersOk(s)
    ensures p.GotVersion? ==> ReaderOk(s, Reading(p.inst, p.ver, p.since)) && p.ver <= RedisVersion(s.counter)
    ensures p.Reading? ==> ReaderOk(s, Loaded(p.inst, p.ver, p.since, s.commits))
    ensures p.Reading? ==> forall v :: Fresh(s, p.ver, v) ==>
              ReaderOk(s, FillingL1(p.inst, p.ver, p.since, v)) && ReaderOk(s, Finished(p.inst, p.ver, p.since, v))
    ensures p.Loaded? ==> Fresh(s, p.ver, p.value) && ReaderOk(s, FillingL1(p.inst, p.ver, p.since, p.value))
    ensures p.FillingL1? ==> Fresh(s, p.ver, p.value) && ReaderOk(s, Finished(p.inst, p.ver, p.since, p.value))
  {
  }

  lemma CommitKeepsInv(s: State)
    requires Inv(s)
    ensures Inv(Next(s, Commit))
  {
    hide RedisVersion;
    var t := Next(s, Commit);
    assert forall ver :: Floor(t, ver) == Floor(s, ver);
    assert forall ver, v :: Fresh(t, ver, v) <==> Fresh(s, ver, v);
    forall r | r in t.readers ensures ReaderOk(t, t.readers[r]) {
      assert ReaderOk(s, s.readers[r]);
    }
  }

  /** Steps that only take a version, or lose something cached. */
  lemma OtherStepsKeepInv(s: State, a: Action)
    requires Inv(s)
    requires a.DropLocal? || a.EvictL1? || a.EvictL2? || a.TakeLocal? || a.TakeRedis? || a.RedisFails?
    ensures Inv(Next(s, a))
  {
    hide Continued, RedisVersion, Floor, CountersOk, Fresh, ReaderOk;
    SameClockSameMeaning(s, Next(s, a));
    TakenVersionOk(s);
  }

  lemma TakenVersionOk(s: State)
    requires CountersOk(s)
    ensures forall inst :: ReaderOk(s, GotVersion(inst, RedisVersion(s.counter), s.lastBump)) && ReaderOk(s, GotVersion(inst, DEFAULT, 0))
    ensures forall inst, ver :: ver <= RedisVersion(s.counter) ==> ReaderOk(s, Reading(inst, ver, 0))
  {
    FloorIsPast(s);
  }

  lemma StepKeepsInv(s: State, a: Action)
    requires Inv(s)
    ensures Inv(Next(s, a))
  {
    hide Inv, Continued, RedisVersion;
    match a
    case Bump => BumpKeepsInv(s);
    case Commit => CommitKeepsInv(s);
    case KeepLocal(r) => if r in s.readers { ContinuedKeepsInv(s, r, a); }
    case SkipLocal(r) => if r in s.readers { ContinuedKeepsInv(s, r, a); }
    case HitL1(r) => if r in s.readers { ContinuedKeepsInv(s, r, a); }
    case HitL2(r) => if r in s.readers { ContinuedKeepsInv(s, r, a); }
    case Load(r) => if r in s.readers { ContinuedKeepsInv(s, r, a); }
    case FillL2(r) => if r in s.readers { ContinuedKeepsInv(s, r, a); }
    case FillL1(r) => if r in s.readers { ContinuedKeepsInv(s, r, a); }
    case _ => OtherStepsKeepInv(s, a);
  }

  lemma FloorIsPast(s: State)
    requires CountersOk(s)
    ensures forall ver :: Floor(s, ver) <= s.commits
    ensures DEFAULT <= RedisVersion(s.counter)
  {
  }

  lemma {:induction false} RunKeepsInv(s: State, acts: seq<Action>)
    requires Inv(s)
    ensures Inv(Run(s, acts))
    decreases |acts|
  {
    hide Inv, Next;
    if acts != [] {
      StepKeepsInv(s, acts[0]);
      RunKeepsInv(Next(s, acts[0]), acts[1..]);
    }
  }

  /**
   Whatever readers, writers, instances and evictions do, and however slow a loader is: a read
   that took a version beyond the default from Redis answers with data no older than the commits
   before the INCR that its version followed, and no cache holds older data under such a version.
   */
  lemma ReadsAreFresh(commits: nat, counter: Option<int>, acts: seq<Action>, r: nat)
    ensures var s := Run(Start(commits, counter), acts);
            && (r in s.readers && s.readers[r].Finished? && s.readers[r].ver > DEFAULT ==>
                  s.readers[r].value >= Floor(s, s.readers[r].ver) >= s.readers[r].since)
            && (forall n :: n in s.l2 && n in s.bumps && n > DEFAULT ==> s.l2[n] >= s.bumps[n])
            && (forall k :: k in s.l1 && k.1 in s.bumps && k.1 > DEFAULT ==> s.l1[k] >= s.bumps[k.1])
  {
    hide Run;
    RunKeepsInv(Start(commits, counter), acts);
  }

  lemma CounterOnlyGrows(s: State, a: Action)
    requires s.counter.Some? && s.counter.value >= DEFAULT
    ensures Next(s, a).counter == if a == Bump then Some(s.counter.value + 1) else s.counter
  {
  }

  lemma RedisReadsTheCounter(s: State)
    ensures s.counter.Some? && s.counter.value >= DEFAULT ==> RedisVersion(s.counter) == s.counter.value
  {
  }

  /** Once a counter of at least 1 exists, every version taken from Redis after an INCR is beyond the default. */
  lemma {:induction false} CounterNeverReturnsToDefault(s: State, acts: seq<Action>)
    requires s.counter.Some? && s.counter.value >= DEFAULT
    ensures var t := Run(s, acts);
            && t.counter.Some? && t.counter.value >= s.counter.value
            && (Bump in acts ==> RedisVersion(t.counter) > DEFAULT)
    decreases |acts|
  {
    hide Next, RedisVersion;
    if acts != [] {
      CounterOnlyGrows(s, acts[0]);
      CounterNeverReturnsToDefault(Next(s, acts[0]), acts[1..]);
      assert Bump in acts ==> acts[0] == Bump || Bump in acts[1..];
      RedisReadsTheCounter(s);
      RedisReadsTheCounter(Run(s, acts));
    }
  }

  /** A reader that took its version from Redis and has finished answers no older data than the INCR it followed. */
  ghost predicate AnswersFresh(commits: nat, counter: Option<int>, acts: seq<Action>, r: nat) {
    var s := Run(Start(commits, counter), acts);
    r in s.readers && s.readers[r].Finished? ==> s.readers[r].value >= s.readers[r].since
  }

  /** Every read in every run is fresh exactly when the counter exists and is at least 1 from the start. */
  lemma FreshIffCounterExists(counter: Option<int>)
    ensures (forall commits: nat, acts: seq<Action>, r: nat :: AnswersFresh(commits, counter, acts, r))
            <==> counter.Some? && counter.value >= DEFAULT
  {
    if counter.Some? && counter.value >= DEFAULT {
      forall commits: nat, acts: seq<Action>, r: nat ensures AnswersFresh(commits, counter, acts, r) {
        ReadsAreFresh(commits, counter, acts, r);
        RunKeepsInv(Start(commits, counter), acts);
        NoBumpToDefault(Start(commits, counter), acts);
        AnswerIsFresh(Run(Start(commits, counter), acts), r);
      }
    } else {
      FirstIncrementDoesNotInvalidate(counter);
    }
  }

  lemma AnswerIsFresh(s: State, r: nat)
    requires Inv(s) && forall n :: n in s.bumps ==> n > DEFAULT
    ensures r in s.readers && s.readers[r].Finished? ==> s.readers[r].value >= s.readers[r].since
  {
    assert r in s.readers ==> ReaderOk(s, s.readers[r]);
  }

  lemma {:induction false} NoBumpToDefault(s: State, acts: seq<Action>)
    requires s.counter.Some? && s.counter.value >= DEFAULT && forall n :: n in s.bumps ==> n > DEFAULT
    ensures forall n :: n in Run(s, acts).bumps ==> n > DEFAULT
    decreases |acts|
  {
    hide Continued;
    if acts != [] {
      CounterOnlyGrows(s, acts[0]);
      BumpsGrow(s, acts[0]);
      NoBumpToDefault(Next(s, acts[0]), acts[1..]);
    }
  }

  lemma BumpsGrow(s: State, a: Action)
    ensures Next(s, a).bumps == if a == Bump then s.bumps[Incremented(s.counter) := s.commits] else s.bumps
    ensures Next(s, a).counter == if a == Bump then Some(Incremented(s.counter)) else s.counter
    ensures Next(s, a).commits == if a == Commit then s.commits + 1 else s.commits
  {
  }

  /**
   Without a positive counter the first INCR makes version 1, which is also the default: a loader
   that was slow fills that very key afterwards, and a read that asked Redis after the INCR is stale.
   */
  lemma FirstIncrementDoesNotInvalidate(counter: Option<int>)
    requires counter.None? || counter.value < DEFAULT
    ensures !AnswersFresh(0, counter, STALE_RUN, 2)
  {
    hide Next, Run;
    var s0 := Start(0, counter);
    var loading := s0.(readers := map[1 := Loaded(1, 1, 0, 0)]);
    SlowLoad(counter);
    LateFill(loading);
    var filled := Next(Next(Next(loading, Commit), Bump), FillL2(1));
    StaleHit(filled);
    RunOfTen(s0);
  }

  const STALE_RUN: seq<Action> := [TakeRedis(1, 1), SkipLocal(1), Load(1), Commit, Bump, FillL2(1),
                                   TakeRedis(2, 2), SkipLocal(2), HitL2(2), FillL1(2)]

  lemma RunOfTen(s: State)
    ensures var filled := Next(Next(Next(Next(Next(Next(s, TakeRedis(1, 1)), SkipLocal(1)), Load(1)), Commit), Bump), FillL2(1));
            Run(s, STALE_RUN) == Next(Next(Next(Next(filled, TakeRedis(2, 2)), SkipLocal(2)), HitL2(2)), FillL1(2))
  {
    hide Next, Run;
    var bumped := Next(Next(Next(Next(Next(s, TakeRedis(1, 1)), SkipLocal(1)), Load(1)), Commit), Bump);
    FiveSteps(s, STALE_RUN);
    FiveSteps(bumped, STALE_RUN[5..]);
    NoSteps(Next(Next(Next(Next(Next(bumped, FillL2(1)), TakeRedis(2, 2)), SkipLocal(2)), HitL2(2)), FillL1(2)), STALE_RUN[5..][5..]);
  }

  lemma NoSteps(s: State, acts: seq<Action>)
    ensures acts == [] ==> Run(s, acts) == s
  {
  }

  lemma FiveSteps(s: State, acts: seq<Action>)
    requires |acts| >= 5
    ensures Run(s, acts) == Run(Next(Next(Next(Next(Next(s, acts[0]), acts[1]), acts[2]), acts[3]), acts[4]), acts[5..])
  {
    hide Next;
    var s2 := Next(Next(s, acts[0]), acts[1]);
    var s4 := Next(Next(s2, acts[2]), acts[3]);
    TwoSteps(s, acts);
    TwoSteps(s2, acts[2..]);
    assert acts[2..][2..] == acts[4..] && acts[4..][1..] == acts[5..];
    assert Run(s4, acts[4..]) == Run(Next(s4, acts[4]), acts[5..]);
  }

  lemma TwoSteps(s: State, acts: seq<Action>)
    requires |acts| >= 2
    ensures Run(s, acts) == Run(Next(Next(s, acts[0]), acts[1]), acts[2..])
  {
    hide Next;
    assert acts[1..][1..] == acts[2..];
    assert Run(s, acts) == Run(Next(s, acts[0]), acts[1..]);
  }

  lemma SlowLoad(counter: Option<int>)
    requires counter.None? || counter.value < DEFAULT
    ensures Next(Next(Next(Start(0, counter), TakeRedis(1, 1)), SkipLocal(1)), Load(1))
            == Start(0, counter).(readers := map[1 := Loaded(1, 1, 0, 0)])
  {
    var s := Start(0, counter);
    var taken := s.(readers := map[1 := GotVersion(1, 1, 0)]);
    assert Next(s, TakeRedis(1, 1)) == taken;
    assert Next(taken, SkipLocal(1)) == s.(readers := map[1 := Reading(1, 1, 0)]);
  }

  lemma LateFill(loading: State)
    requires loading.counter.None? || loading.counter.value < DEFAULT
    requires loading == Start(0, loading.counter).(readers := map[1 := Loaded(1, 1, 0, 0)])
    ensures var filled := Next(Next(Next(loading, Commit), Bump), FillL2(1));
            filled.l2 == map[1 := 0] && filled.counter == Some(1) && filled.commits == filled.lastBump == 1
  {
    assert Next(Next(loading, Commit), Bump)
           == loading.(commits := 1, counter := Some(1), lastBump := 1, bumps := map[1 := 1]);
  }

  lemma StaleHit(s: State)
    requires s.l2 == map[1 := 0] && s.counter == Some(1) && s.lastBump == 1
    ensures var t := Next(Next(Next(Next(s, TakeRedis(2, 2)), SkipLocal(2)), HitL2(2)), FillL1(2));
            2 in t.readers && t.readers[2] == Finished(2, 1, 1, 0) && t.commits == s.commits
  {
    hide Next;
    AsksRedis(s);
    IsServed(Next(Next(s, TakeRedis(2, 2)), SkipLocal(2)));
  }

  lemma AsksRedis(s: State)
    requires s.counter == Some(1) && s.lastBump == 1
    ensures var t := Next(Next(s, TakeRedis(2, 2)), SkipLocal(2));
            2 in t.readers && t.readers[2] == Reading(2, 1, 1) && t.l2 == s.l2 && t.commits == s.commits
  {
  }

  lemma IsServed(s: State)
    requires 2 in s.readers && s.readers[2] == Reading(2, 1, 1) && s.l2 == map[1 := 0]
    ensures var t := Next(Next(s, HitL2(2)), FillL1(2));
            2 in t.readers && t.readers[2] == Finished(2, 1, 1, 0) && t.commits == s.commits
  {
  }

  // ---- What is filled is served ----

  /** The step leaves the page of a version as it is in L2: no eviction, no other fill, and no INCR to that version. */
  predicate KeepsPage(s: State, a: Action, ver: int) {
    && !(a.EvictL2? && a.ver == ver)
    && !(a.FillL2? && a.reader in s.readers && s.readers[a.reader].ver == ver)
    && !(a.Bump? && Incremented(s.counter) == ver)
  }

  ghost predicate PageKept(s: State, acts: seq<Action>, ver: int)
    decreases |acts|
  {
    acts != [] ==> KeepsPage(s, acts[0], ver) && PageKept(Next(s, acts[0]), acts[1..], ver)
  }

  lemma PageStays(s: State, a: Action, ver: int)
    requires KeepsPage(s, a, ver) && ver in s.l2
    ensures ver in Next(s, a).l2 && Next(s, a).l2[ver] == s.l2[ver]
  {
    hide RedisVersion;
  }

  lemma {:induction false} PageLives(s: State, acts: seq<Action>, ver: int)
    requires PageKept(s, acts, ver) && ver in s.l2
    ensures ver in Run(s, acts).l2 && Run(s, acts).l2[ver] == s.l2[ver]
    decreases |acts|
  {
    hide Next, KeepsPage;
    if acts != [] {
      PageStays(s, acts[0], ver);
      PageLives(Next(s, acts[0]), acts[1..], ver);
    }
  }

  /**
   A loaded page, once filled in, is what later readers of its version are served without a load:
   from L2 on every instance, as long as the page is kept, and from L1 on the one they share.
   */
  lemma FilledIsServed(s: State, r: nat, acts: seq<Action>, q: nat)
    requires r in s.readers && s.readers[r].Loaded? && PageKept(Next(s, FillL2(r)), acts, s.readers[r].ver)
    requires var t := Run(Next(s, FillL2(r)), acts); q in t.readers && t.readers[q].Reading? && t.readers[q].ver == s.readers[r].ver
    ensures var t := Run(Next(s, FillL2(r)), acts); var p := t.readers[q];
            var hit := Next(t, HitL2(q)); var done := Next(hit, FillL1(q));
            && q in hit.readers && hit.readers[q] == FillingL1(p.inst, p.ver, p.since, s.readers[r].value)
            && q in done.readers && done.readers[q] == Finished(p.inst, p.ver, p.since, s.readers[r].value)
            && forall u, since :: var asked := Moved(done, u, Reading(p.inst, p.ver, since));
                 var served := Next(asked, HitL1(u)).readers;
                 u in served && served[u] == Finished(p.inst, p.ver, since, s.readers[r].value)
  {
    hide Run, PageKept, RedisVersion, Incremented, Next;
    PageFilled(s, r);
    PageLives(Next(s, FillL2(r)), acts, s.readers[r].ver);
    HitIsServed(Run(Next(s, FillL2(r)), acts), q, s.readers[r].value);
  }

  lemma PageFilled(s: State, r: nat)
    requires r in s.readers && s.readers[r].Loaded?
    ensures var t := Next(s, FillL2(r)); s.readers[r].ver in t.l2 && t.l2[s.readers[r].ver] == s.readers[r].value
  {
  }

  lemma HitIsServed(t: State, q: nat, value: nat)
    requires q in t.readers && t.readers[q].Reading? && t.readers[q].ver in t.l2 && t.l2[t.readers[q].ver] == value
    ensures var p := t.readers[q]; var hit := Next(t, HitL2(q)); var done := Next(hit, FillL1(q));
            && q in hit.readers && hit.readers[q] == FillingL1(p.inst, p.ver, p.since, value)
            && q in done.readers && done.readers[q] == Finished(p.inst, p.ver, p.since, value)
            && forall u, since :: var asked := Moved(done, u, Reading(p.inst, p.ver, since));
                 var served := Next(asked, HitL1(u)).readers;
                 u in served && served[u] == Finished(p.inst, p.ver, since, value)
  {
    var p, hit := t.readers[q], Next(t, HitL2(q));
    assert hit.readers == t.readers[q := FillingL1(p.inst, p.ver, p.since, value)];
    var done := Next(hit, FillL1(q));
    assert done.readers == hit.readers[q := Finished(p.inst, p.ver, p.since, value)];
    assert (p.inst, p.ver) in done.l1 && done.l1[(p.inst, p.ver)] == value;
    forall u, since ensures var asked := Moved(done, u, Reading(p.inst, p.ver, since));
                            var served := Next(asked, HitL1(u)).readers;
                            u in served && served[u] == Finished(p.inst, p.ver, since, value)
    {
      HitInL1(Moved(done, u, Reading(p.inst, p.ver, since)), u, value);
    }
  }

  lemma HitInL1(s: State, u: nat, value: nat)
    requires u in s.readers && s.readers[u].Reading?
    requires (s.readers[u].inst, s.readers[u].ver) in s.l1 && s.l1[(s.readers[u].inst, s.readers[u].ver)] == value
    ensures var p, served := s.readers[u], Next(s, HitL1(u)).readers;
            u in served && served[u] == Finished(p.inst, p.ver, p.since, value)
  {
  }

  // ---- The page of a new version ----

  /** The readers that have loaded and not yet filled in. */
  function HoldingLoads(s: State): set<nat> {
    set r | r in s.readers && s.readers[r].Loaded?
  }

  /** Of the readers that held a load at the INCR, those that have not started anew. */
  function StillLate(late: set<nat>, t: State): set<nat> {
    late * HoldingLoads(t)
  }

  ghost predicate NoLateFill(s: State, late: set<nat>, acts: seq<Action>)
    decreases |acts|
  {
    acts != [] ==>
      var t := Next(s, acts[0]);
      !(acts[0].FillL2? && acts[0].reader in late) && NoLateFill(t, StillLate(late, t), acts[1..])
  }

  /** What others than the late readers have loaded, and the page, are no older than so many commits. */
  ghost predicate PageUpToDate(s: State, late: set<nat>, n: int, commits: nat) {
    && commits <= s.commits && (n in s.l2 ==> s.l2[n] >= commits)
    && forall r :: r in s.readers && r !in late && s.readers[r].Loaded? ==> s.readers[r].value >= commits
  }

  lemma StepKeepsPage(s: State, late: set<nat>, a: Action, n: int, commits: nat)
    requires PageUpToDate(s, late, n, commits) && !(a.FillL2? && a.reader in late)
    ensures PageUpToDate(Next(s, a), StillLate(late, Next(s, a)), n, commits)
  {
    hide RedisVersion, Incremented;
  }

  lemma {:induction false} RunKeepsPage(s: State, late: set<nat>, acts: seq<Action>, n: int, commits: nat)
    requires PageUpToDate(s, late, n, commits) && NoLateFill(s, late, acts)
    ensures var t := Run(s, acts); n in t.l2 ==> t.l2[n] >= commits
    decreases |acts|
  {
    hide Next, StillLate;
    if acts != [] {
      StepKeepsPage(s, late, acts[0], n, commits);
      RunKeepsPage(Next(s, acts[0]), StillLate(late, Next(s, acts[0])), acts[1..], n, commits);
    }
  }

  /**
   An increment deletes the page of its version, be it the default: in any run after it, that page
   shows what was committed before, unless a reader fills in what it had loaded earlier.
   */
  lemma NewPageIsUpToDate(s: State, acts: seq<Action>)
    requires NoLateFill(Next(s, Bump), HoldingLoads(s), acts)
    ensures var n, t := Incremented(s.counter), Run(Next(s, Bump), acts); n in t.l2 ==> t.l2[n] >= s.commits
  {
    hide Run, NoLateFill;
    assert PageUpToDate(Next(s, Bump), HoldingLoads(s), Incremented(s.counter), s.commits);
    RunKeepsPage(Next(s, Bump), HoldingLoads(s), acts, Incremented(s.counter), s.commits);
  }

  // ---- Reading one's own writes ----

  /** In no state from here on does the instance keep a version below n for its readers to take. */
  ghost predicate LocalAtLeast(s: State, acts: seq<Action>, inst: nat, n: int)
    decreases |acts|
  {
    (inst in s.local ==> s.local[inst] >= n) && (acts != [] ==> LocalAtLeast(Next(s, acts[0]), acts[1..], inst, n))
  }

  /** The readers whose version is from before the INCR or from a failed Redis read. */
  function StaleNext(stale: set<nat>, a: Action): set<nat> {
    match a
    case TakeRedis(r, _) => stale - {r}
    case RedisFails(r, _) => stale + {r}
    case _ => stale
  }

  function StaleAfter(stale: set<nat>, acts: seq<Action>): set<nat>
    decreases |acts|
  {
    if acts == [] then stale else StaleAfter(StaleNext(stale, acts[0]), acts[1..])
  }

  /** The step keeps such a version on the instance. */
  predicate KeepsStale(s: State, stale: set<nat>, a: Action, inst: nat) {
    && a.KeepLocal? && a.reader in stale && a.reader in s.readers
    && s.readers[a.reader].GotVersion? && s.readers[a.reader].inst == inst
  }

  ghost predicate NeverKeepsStale(s: State, stale: set<nat>, acts: seq<Action>, inst: nat)
    decreases |acts|
  {
    acts != [] ==> !KeepsStale(s, stale, acts[0], inst) && NeverKeepsStale(Next(s, acts[0]), StaleNext(stale, acts[0]), acts[1..], inst)
  }

  /** After an INCR to n, stale readers hold versions below n and the others do not. */
  ghost predicate StaleIsBelow(s: State, stale: set<nat>, n: int) {
    && n > DEFAULT && s.counter.Some? && s.counter.value >= n
    && forall r :: r in s.readers && s.readers[r].GotVersion? ==> (r in stale <==> s.readers[r].ver < n)
  }

  lemma StepKeepsStale(s: State, stale: set<nat>, a: Action, n: int)
    requires StaleIsBelow(s, stale, n)
    ensures StaleIsBelow(Next(s, a), StaleNext(stale, a), n)
  {
    BumpsGrow(s, a);
    RedisReadsTheCounter(s);
    OnlyTakingGetsVersions(s, a);
  }

  lemma OnlyTakingGetsVersions(s: State, a: Action)
    ensures forall r :: r in Next(s, a).readers && Next(s, a).readers[r].GotVersion? ==>
              || (r in s.readers && Next(s, a).readers[r] == s.readers[r] && !(a.TakeRedis? && a.reader == r) && !(a.RedisFails? && a.reader == r))
              || (a.TakeRedis? && a.reader == r && Next(s, a).readers[r].ver == RedisVersion(s.counter))
              || (a.RedisFails? && a.reader == r && Next(s, a).readers[r].ver == DEFAULT)
  {
    hide RedisVersion;
  }

  lemma LocalChanges(s: State, a: Action, inst: nat)
    ensures inst in Next(s, a).local ==>
              || (inst in s.local && Next(s, a).local[inst] == s.local[inst])
              || (a.KeepLocal? && a.reader in s.readers && s.readers[a.reader].GotVersion? && s.readers[a.reader].inst == inst
                  && Next(s, a).local[inst] == s.readers[a.reader].ver)
    ensures a.KeepLocal? && a.reader in s.readers && s.readers[a.reader].GotVersion? && s.readers[a.reader].inst == inst ==>
              inst in Next(s, a).local && Next(s, a).local[inst] == s.readers[a.reader].ver
  {
    hide RedisVersion, Incremented;
  }

  lemma {:induction false} KeptVersionsIff(s: State, stale: set<nat>, acts: seq<Action>, inst: nat, n: int)
    requires StaleIsBelow(s, stale, n) && (inst in s.local ==> s.local[inst] >= n)
    ensures LocalAtLeast(s, acts, inst, n) <==> NeverKeepsStale(s, stale, acts, inst)
    decreases |acts|
  {
    hide Next, StaleNext;
    if acts != [] {
      var t := Next(s, acts[0]);
      LocalChanges(s, acts[0], inst);
      StepKeepsStale(s, stale, acts[0], n);
      if inst in t.local ==> t.local[inst] >= n {
        KeptVersionsIff(t, StaleNext(stale, acts[0]), acts[1..], inst, n);
      }
    }
  }

  lemma {:induction false} StaleRun(s: State, stale: set<nat>, acts: seq<Action>, n: int)
    requires StaleIsBelow(s, stale, n)
    ensures StaleIsBelow(Run(s, acts), StaleAfter(stale, acts), n)
    decreases |acts|
  {
    hide Next, StaleNext, StaleIsBelow;
    if acts != [] {
      StepKeepsStale(s, stale, acts[0], n);
      StaleRun(Next(s, acts[0]), StaleNext(stale, acts[0]), acts[1..], n);
    }
  }

  /** No version is below the default. */
  ghost predicate AtLeastDefault(s: State) {
    && (forall r :: r in s.readers && s.readers[r].GotVersion? ==> s.readers[r].ver >= DEFAULT)
    && forall i :: i in s.local ==> s.local[i] >= DEFAULT
  }

  lemma StepAtLeastDefault(s: State, a: Action)
    requires AtLeastDefault(s)
    ensures AtLeastDefault(Next(s, a))
  {
    OnlyTakingGetsVersions(s, a);
    forall i | i in Next(s, a).local ensures Next(s, a).local[i] >= DEFAULT {
      LocalChanges(s, a, i);
    }
  }

  lemma {:induction false} RunAtLeastDefault(s: State, acts: seq<Action>, inst: nat)
    requires AtLeastDefault(s)
    ensures AtLeastDefault(Run(s, acts)) && LocalAtLeast(s, acts, inst, DEFAULT)
    decreases |acts|
  {
    hide Next;
    if acts != [] {
      StepAtLeastDefault(s, acts[0]);
      RunAtLeastDefault(Next(s, acts[0]), acts[1..], inst);
    }
  }

  /**
   When an instance sees its own write. After the writer's INCR and its Drop on the instance, with
   any steps before, between and after them, the instance never keeps a version below the one of
   that INCR, if and only if that one is the default or no Get keeps there a version that it took
   before the INCR or that stands for a failed Redis read.
   */
  lemma OwnWriteIsSeenIff(commits: nat, counter: Option<int>, before: seq<Action>, between: seq<Action>,
                          after: seq<Action>, inst: nat)
    ensures var s := Run(Start(commits, counter), before);
            var dropped := Next(Run(Next(s, Bump), between), DropLocal(inst));
            var n := Incremented(s.counter);
            LocalAtLeast(dropped, after, inst, n)
            <==> n == DEFAULT || NeverKeepsStale(dropped, StaleAfter(s.readers.Keys, between), after, inst)
  {
    hide Run, Next, Incremented, NeverKeepsStale, LocalAtLeast, StaleAfter, RedisVersion;
    var s := Run(Start(commits, counter), before);
    var bumped := Next(s, Bump);
    var m := Run(bumped, between);
    var dropped := Next(m, DropLocal(inst));
    var n := Incremented(s.counter);
    RunKeepsInv(Start(commits, counter), before);
    RunAtLeastDefault(Start(commits, counter), before, inst);
    if n == DEFAULT {
      StepAtLeastDefault(s, Bump);
      RunAtLeastDefault(bumped, between, inst);
      StepAtLeastDefault(m, DropLocal(inst));
      RunAtLeastDefault(dropped, after, inst);
    } else {
      BumpMakesStale(s);
      StaleRun(bumped, s.readers.Keys, between, n);
      StepKeepsStale(m, StaleAfter(s.readers.Keys, between), DropLocal(inst), n);
      Dropped(m, inst);
      KeptVersionsIff(dropped, StaleAfter(s.readers.Keys, between), after, inst, n);
    }
  }

  lemma BumpMakesStale(s: State)
    requires Inv(s) && Incremented(s.counter) != DEFAULT
    ensures StaleIsBelow(Next(s, Bump), s.readers.Keys, Incremented(s.counter))
  {
    forall r | r in s.readers ensures s.readers[r].ver < Incremented(s.counter) {
      assert ReaderOk(s, s.readers[r]);
    }
  }

  lemma Dropped(s: State, inst: nat)
    ensures inst !in Next(s, DropLocal(inst)).local
  {
  }

  /** All INCRs from n on came after the first c commits. */
  ghost predicate BumpsShow(s: State, n: int, c: nat) {
    && s.commits >= c && s.counter.Some? && s.counter.value >= n >= DEFAULT
    && forall v :: n <= v <= s.counter.value ==> v in s.bumps && s.bumps[v] >= c
  }

  lemma {:induction false} RunShows(s: State, acts: seq<Action>, n: int, c: nat)
    requires BumpsShow(s, n, c)
    ensures BumpsShow(Run(s, acts), n, c)
    decreases |acts|
  {
    hide Next;
    if acts != [] {
      BumpsGrow(s, acts[0]);
      RunShows(Next(s, acts[0]), acts[1..], n, c);
    }
  }

  /** A read under the version of an INCR, or a later one, sees everything committed before that INCR. */
  lemma VersionShowsTheWrite(commits: nat, counter: Option<int>, before: seq<Action>, after: seq<Action>, r: nat)
    ensures var s := Run(Start(commits, counter), before);
            var t := Run(Next(s, Bump), after);
            r in t.readers && t.readers[r].Finished? && t.readers[r].ver >= Incremented(s.counter) > DEFAULT ==>
              t.readers[r].value >= s.commits
  {
    hide Run, Next, RedisVersion;
    var s := Run(Start(commits, counter), before);
    var t := Run(Next(s, Bump), after);
    RunKeepsInv(Start(commits, counter), before);
    StepKeepsInv(s, Bump);
    RunKeepsInv(Next(s, Bump), after);
    BumpsGrow(s, Bump);
    RunShows(Next(s, Bump), after, Incremented(s.counter), s.commits);
    if r in t.readers && t.readers[r].Finished? && t.readers[r].ver >= Incremented(s.counter) > DEFAULT {
      assert ReaderOk(t, t.readers[r]);
      RedisReadsTheCounter(t);
    }
  }

  /** A slow Get brings the old version back after the Drop, and the next reader of the instance takes it. */
  lemma SlowGetBringsTheOldVersionBack()
    ensures var s := Run(Start(0, Some(5)), [TakeRedis(1, 1), Commit, Bump, DropLocal(1), KeepLocal(1), TakeLocal(2, 1)]);
            2 in s.readers && s.readers[2] == Reading(1, 5, 0) && s.counter == Some(6) && s.lastBump == 1
  {
  }

  /** So does a Get that Redis did not answer, which no write crosses. */
  lemma FailedGetKeepsTheDefault()
    ensures var s := Run(Start(0, Some(5)), [Commit, Bump, DropLocal(1), RedisFails(1, 1), KeepLocal(1), TakeLocal(2, 1)]);
            2 in s.readers && s.readers[2] == Reading(1, 1, 0) && s.counter == Some(6)
  {
  }
}
