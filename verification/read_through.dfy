/**
 The two-level cache with a locked read-through: any number of readers interleave their single
 steps on one key, under a lock whose lease may run out.
 */
module ReadThrough {
  import opened Prelude
  import opened RedisLock

  /** What a successful load yields: a value (of any type, here a number) or the news that there is none. */
  datatype Outcome = Value(v: int) | Absent

  datatype Result = Got(v: int) | NullCached | Failed

  /** encode answers None when encoding fails; an empty sentinel switches null caching off. */
  datatype Config = Config(encode: int -> Option<string>, decode: string -> Option<int>, sentinel: string, ttl: nat)

  /** What is stored is not empty, is not taken for the sentinel, and decodes to what was encoded. */
  ghost predicate CodecOk(cfg: Config) {
    forall v: int :: cfg.encode(v).Some? ==>
      cfg.encode(v).value != "" && cfg.encode(v).value != cfg.sentinel && cfg.decode(cfg.encode(v).value) == Some(v)
  }

  datatype Lookup = Miss | Null | Hit(raw: string, v: int)

  /** Reading L2: nothing, the sentinel, or bytes that decode; anything else is a miss. */
  function LookUp(cfg: Config, stored: Option<string>): Lookup {
    if stored.None? || stored.value == "" then Miss
    else if cfg.sentinel != "" && stored.value == cfg.sentinel then Null
    else match cfg.decode(stored.value)
         case None => Miss
         case Some(v) => Hit(stored.value, v)
  }

  /** What a load leaves in L2, if anything. */
  function RawOf(cfg: Config, outcome: Outcome): Option<string> {
    match outcome
    case Value(v) => cfg.encode(v)
    case Absent => if cfg.sentinel != "" then Some(cfg.sentinel) else None
  }

  function ResultOf(outcome: Outcome): Result {
    match outcome
    case Value(v) => Got(v)
    case Absent => NullCached
  }

  class Tiered {
    const cfg: Config
    var l1: Option<string>
    var l2: Option<string>

    constructor (cfg: Config)
      ensures this.cfg == cfg && l1 == None && l2 == None
    {
      this.cfg := cfg;
      l1, l2 := None, None;
    }

    /** A hit in L2 is copied into L1, the sentinel never is; a read that fails is a miss. */
    method GetL2(readOk: bool) returns (found: Lookup)
      modifies this`l1
      ensures found == if readOk then LookUp(cfg, l2) else Miss
      ensures l1 == if found.Hit? then l2 else old(l1)
    {
      if !readOk || l2.None? || l2.value == "" {
        return Miss;
      }
      if cfg.sentinel != "" && l2.value == cfg.sentinel {
        return Null;
      }
      var v := cfg.decode(l2.value);
      if v.None? {
        return Miss;
      }
      l1 := l2;
      found := Hit(l2.value, v.value);
    }

    /** One load, None when it failed, and the writes it causes; a failed write does not fail the read. */
    method LoadAndFill(load: Option<Outcome>, storeOk: bool, fillOk: bool) returns (r: Result)
      modifies this
      ensures r == if load.None? then Failed else ResultOf(load.value)
      ensures l2 == if load.Some? && RawOf(cfg, load.value).Some? && storeOk then RawOf(cfg, load.value) else old(l2)
      ensures l1 == if load.Some? && load.value.Value? && RawOf(cfg, load.value).Some? && fillOk then RawOf(cfg, load.value)
                    else old(l1)
    {
      if load.None? {
        return Failed;
      }
      match load.value
      case Absent =>
        if cfg.sentinel != "" && storeOk {
          l2 := Some(cfg.sentinel);
        }
        r := NullCached;
      case Value(v) =>
        var raw := cfg.encode(v);
        if raw.None? {
          return Got(v);
        }
        if storeOk {
          l2 := raw;
        }
        if fillOk {
          l1 := raw;
        }
        r := Got(v);
    }
  }

  // ---- The interleaved system ----

  datatype Phase =
    | AtL1
    | AtL2
    | Trying
    | Holding
    | Missed
    | Storing(outcome: Outcome)
    | Filling(raw: string, v: int, held: bool)
    | Releasing(result: Result)
    | Done(result: Result)

  datatype Reader = Reader(inst: nat, token: nat, phase: Phase)

  /** `loads` lists the successful loads, oldest first. */
  datatype State = State(now: nat, lock: Option<Lease>, nextToken: nat, l2: Option<string>, l1: map<nat, string>,
                         readers: map<nat, Reader>, loads: seq<Outcome>)

  datatype Action =
    | Arrive(reader: nat, inst: nat)
    | LookL1(reader: nat)
    | LookL2(reader: nat, ok: bool)
    | GiveUp(reader: nat)
    | TryAcquire(reader: nat)
    | Load(reader: nat, load: Option<Outcome>)
    | Store(reader: nat, ok: bool)
    | FillL1(reader: nat, ok: bool)
    | Release(reader: nat, ok: bool)
    | Renew(reader: nat)
    | Crash(reader: nat)
    | Tick
    | EvictL1(inst: nat)
    | EvictL2

  function Next(cfg: Config, s: State, a: Action): State {
    match a
    case Arrive(r, inst) => if r in s.readers then s else s.(readers := s.readers[r := Reader(inst, 0, AtL1)])
    case Tick => s.(now := s.now + 1)
    case EvictL1(inst) => s.(l1 := s.l1 - {inst})
    case EvictL2 => s.(l2 := None)
    case _ => if a.reader in s.readers then Continued(cfg, s, a.reader, s.readers[a.reader], a) else s
  }

  function Moved(s: State, r: nat, phase: Phase): State
    requires r in s.readers
  {
    s.(readers := s.readers[r := s.readers[r].(phase := phase)])
  }

  function Continued(cfg: Config, s: State, r: nat, p: Reader, a: Action): State
    requires r in s.readers && s.readers[r] == p
  {
    match (a, p.phase)
    case (LookL1(_), AtL1) =>
      if p.inst in s.l1 && cfg.decode(s.l1[p.inst]).Some? then Moved(s, r, Done(Got(cfg.decode(s.l1[p.inst]).value)))
      else Moved(s, r, AtL2)
    case (LookL2(_, ok), AtL2) => Moved(s, r, AfterLook(if ok then LookUp(cfg, s.l2) else Miss, false))
    case (LookL2(_, ok), Holding) => Moved(s, r, AfterLook(if ok then LookUp(cfg, s.l2) else Miss, true))
    case (GiveUp(_), Trying) => Moved(s, r, Done(Failed))
    case (TryAcquire(_), Trying) =>
      if Owner(s.lock, s.now).None? then
        s.(lock := SetNX(s.lock, s.now, s.nextToken, cfg.ttl), nextToken := s.nextToken + 1,
           readers := s.readers[r := Reader(p.inst, s.nextToken, Holding)])
      else Moved(s, r, AtL2).(nextToken := s.nextToken + 1)
    case (Load(_, load), Missed) =>
      (match load
       case None => Moved(s, r, Releasing(Failed))
       case Some(o) => Moved(s, r, Storing(o)).(loads := s.loads + [o]))
    case (Store(_, ok), Storing(o)) =>
      (match RawOf(cfg, o)
       case None => Moved(s, r, Releasing(ResultOf(o)))
       case Some(raw) =>
         Moved(s, r, if o.Value? then Filling(raw, o.v, true) else Releasing(NullCached)).(l2 := if ok then Some(raw) else s.l2))
    case (FillL1(_, ok), Filling(raw, v, held)) =>
      Moved(s, r, if held then Releasing(Got(v)) else Done(Got(v))).(l1 := if ok then s.l1[p.inst := raw] else s.l1)
    case (Release(_, ok), Releasing(result)) =>
      Moved(s, r, Done(result)).(lock := if ok then Released(s.lock, s.now, p.token) else s.lock)
    case (Renew(_), _) =>
      if InLock(p.phase) then s.(lock := Renewed(s.lock, s.now, p.token, cfg.ttl)) else s
    case (Crash(_), _) => s.(readers := s.readers - {r})
    case _ => s
  }

  function AfterLook(found: Lookup, held: bool): Phase {
    match found
    case Hit(raw, v) => Filling(raw, v, held)
    case Null => if held then Releasing(NullCached) else Done(NullCached)
    case Miss => if held then Missed else Trying
  }

  /** The phases between taking the lock and releasing it, when the watchdog runs. */
  predicate InLock(p: Phase) {
    p.Holding? || p.Missed? || p.Storing? || (p.Filling? && p.held) || p.Releasing?
  }

  /** The phases in which a reader relies on being alone. */
  predicate Critical(p: Phase) {
    p.Holding? || p.Missed? || p.Storing?
  }

  function Run(cfg: Config, s: State, acts: seq<Action>): State
    decreases |acts|
  {
    if acts == [] then s else Run(cfg, Next(cfg, s, acts[0]), acts[1..])
  }

  function Start(): State {
    State(0, None, 0, None, map[], map[], [])
  }

  // ---- The lock: no two owners ----

  ghost predicate TokensOk(s: State) {
    && (forall r :: r in s.readers && InLock(s.readers[r].phase) ==> s.readers[r].token < s.nextToken)
    && (forall r, q :: r in s.readers && q in s.readers && r != q && InLock(s.readers[r].phase) && InLock(s.readers[q].phase) ==>
          s.readers[r].token != s.readers[q].token)
  }

  lemma StepKeepsTokens(cfg: Config, s: State, a: Action)
    requires TokensOk(s)
    ensures TokensOk(Next(cfg, s, a))
  {
    hide Continued, TokensOk;
    var t := Next(cfg, s, a);
    if a.Tick? || a.EvictL1? || a.EvictL2? {
      TokensMoved(s, t, 0);
    } else {
      if a.reader in s.readers {
        TokenOfMoved(cfg, s, a.reader, a);
      }
      TokensMoved(s, t, a.reader);
    }
  }

  lemma TokenOfMoved(cfg: Config, s: State, r: nat, a: Action)
    requires r in s.readers
    ensures var t := Continued(cfg, s, r, s.readers[r], a);
            && s.nextToken <= t.nextToken
            && t.readers - {r} == s.readers - {r}
            && (r in t.readers && InLock(t.readers[r].phase) ==>
                  || t.readers[r].token == s.nextToken < t.nextToken
                  || (InLock(s.readers[r].phase) && t.readers[r].token == s.readers[r].token))
  {
    hide LookUp, RawOf, Owner, SetNX, Renewed, Released;
  }

  /** Only one reader moves, and it keeps its token or gets a new one. */
  lemma TokensMoved(s: State, t: State, r: nat)
    requires TokensOk(s) && s.nextToken <= t.nextToken && t.readers - {r} == s.readers - {r}
    requires r in t.readers && InLock(t.readers[r].phase) ==>
               || t.readers[r].token == s.nextToken < t.nextToken
               || (r in s.readers && InLock(s.readers[r].phase) && t.readers[r].token == s.readers[r].token)
    ensures TokensOk(t)
  {
    assert forall q :: q in t.readers && q != r ==> q in t.readers - {r} && t.readers[q] == (t.readers - {r})[q];
    assert forall q :: q in s.readers && q != r ==> q in s.readers - {r} && s.readers[q] == (s.readers - {r})[q];
  }

  predicate Owns(s: State, r: nat) {
    r in s.readers && InLock(s.readers[r].phase) && Owner(s.lock, s.now) == Some(s.readers[r].token)
  }

  /** In no state of any run do two readers own an unexpired lease. */
  lemma {:induction false} AtMostOneOwner(cfg: Config, s: State, acts: seq<Action>, r: nat, q: nat)
    requires TokensOk(s)
    ensures Owns(Run(cfg, s, acts), r) && Owns(Run(cfg, s, acts), q) ==> r == q
    decreases |acts|
  {
    hide Next, Owner;
    if acts != [] {
      StepKeepsTokens(cfg, s, acts[0]);
      AtMostOneOwner(cfg, Next(cfg, s, acts[0]), acts[1..], r, q);
    }
  }

  // ---- What caches and answers can be, in every run ----

  /** These bytes were stored by one of the loads. */
  ghost predicate Backed(cfg: Config, raw: string, loads: seq<Outcome>) {
    exists o :: o in loads && RawOf(cfg, o) == Some(raw)
  }

  predicate Earned(result: Result, loads: seq<Outcome>) {
    result.Failed? || exists o :: o in loads && result == ResultOf(o)
  }

  ghost predicate PhaseBacked(cfg: Config, p: Phase, loads: seq<Outcome>) {
    match p
    case Storing(o) => o in loads
    case Filling(raw, v, _) => Value(v) in loads && cfg.encode(v) == Some(raw)
    case Releasing(result) => Earned(result, loads)
    case Done(result) => Earned(result, loads)
    case _ => true
  }

  ghost predicate AllBacked(cfg: Config, s: State) {
    && (s.l2.Some? ==> Backed(cfg, s.l2.value, s.loads))
    && (forall i :: i in s.l1 ==> exists v :: Value(v) in s.loads && cfg.encode(v) == Some(s.l1[i]))
    && (forall r :: r in s.readers ==> PhaseBacked(cfg, s.readers[r].phase, s.loads))
  }

  lemma AfterMiss()
    ensures AfterLook(Miss, true) == Missed && AfterLook(Miss, false) == Trying
  {
  }

  lemma LookIsBacked(cfg: Config, stored: Option<string>, loads: seq<Outcome>, held: bool)
    requires CodecOk(cfg) && (stored.Some? ==> Backed(cfg, stored.value, loads))
    ensures PhaseBacked(cfg, AfterLook(LookUp(cfg, stored), held), loads)
  {
    if stored.Some? {
      var o :| o in loads && RawOf(cfg, o) == Some(stored.value);
      assert ResultOf(o) == NullCached || o.Value?;
    }
  }

  lemma LoadsOnlyGrow(cfg: Config, s: State, o: Outcome)
    requires AllBacked(cfg, s)
    ensures AllBacked(cfg, s.(loads := s.loads + [o]))
  {
    var loads := s.loads + [o];
    forall x | x in s.loads ensures x in loads {
    }
    forall r | r in s.readers ensures PhaseBacked(cfg, s.readers[r].phase, loads) {
      assert PhaseBacked(cfg, s.readers[r].phase, s.loads);
    }
  }

  /** A reader's move that stores and serves only what some load returned. */
  lemma MoveBacked(cfg: Config, s: State, t: State, r: nat)
    requires AllBacked(cfg, s) && r in s.readers && t.loads == s.loads
    requires t.l2 == s.l2 || (t.l2.Some? && Backed(cfg, t.l2.value, s.loads))
    requires forall i :: i in t.l1 ==>
               || (i in s.l1 && t.l1[i] == s.l1[i])
               || exists v :: Value(v) in s.loads && cfg.encode(v) == Some(t.l1[i])
    requires forall q :: q in t.readers && q != r ==> q in s.readers && t.readers[q] == s.readers[q]
    requires r in t.readers ==> PhaseBacked(cfg, t.readers[r].phase, s.loads)
    ensures AllBacked(cfg, t)
  {
    hide Backed, PhaseBacked;
  }

  lemma ContinuedBacked(cfg: Config, s: State, r: nat, a: Action)
    requires CodecOk(cfg) && AllBacked(cfg, s) && r in s.readers
    ensures AllBacked(cfg, Continued(cfg, s, r, s.readers[r], a))
  {
    hide AllBacked, Continued, CodecOk;
    var p := s.readers[r];
    if a.Load? && a.load.Some? && p.phase.Missed? {
      LoadsOnlyGrow(cfg, s, a.load.value);
      LoadedBacked(cfg, s, r, a);
    } else {
      MovedPhaseBacked(cfg, s, r, a);
      MoveBacked(cfg, s, Continued(cfg, s, r, p, a), r);
    }
  }

  lemma LoadedBacked(cfg: Config, s: State, r: nat, a: Action)
    requires r in s.readers && s.readers[r].phase.Missed? && a.Load? && a.load.Some?
    requires AllBacked(cfg, s.(loads := s.loads + [a.load.value]))
    ensures AllBacked(cfg, Continued(cfg, s, r, s.readers[r], a))
  {
    hide AllBacked;
    MoveBacked(cfg, s.(loads := s.loads + [a.load.value]), Continued(cfg, s, r, s.readers[r], a), r);
  }

  lemma MovedPhaseBacked(cfg: Config, s: State, r: nat, a: Action)
    requires CodecOk(cfg) && AllBacked(cfg, s) && r in s.readers
    requires !(a.Load? && a.load.Some? && s.readers[r].phase.Missed?)
    ensures var t := Continued(cfg, s, r, s.readers[r], a);
            && t.loads == s.loads
            && (t.l2 == s.l2 || (t.l2.Some? && Backed(cfg, t.l2.value, s.loads)))
            && (forall i :: i in t.l1 ==>
                  || (i in s.l1 && t.l1[i] == s.l1[i])
                  || exists v :: Value(v) in s.loads && cfg.encode(v) == Some(t.l1[i]))
            && (forall q :: q in t.readers && q != r ==> q in s.readers && t.readers[q] == s.readers[q])
            && (r in t.readers ==> PhaseBacked(cfg, t.readers[r].phase, s.loads))
  {
    hide LookUp, AfterLook, Owner, SetNX, Renewed, Released, CodecOk, AllBacked;
    var p := s.readers[r];
    PhaseIsBacked(cfg, s, r);
    if a.LookL1? && p.inst in s.l1 {
      L1IsBacked(cfg, s, r);
    }
    AfterMiss();
    if a.LookL2? {
      LookIsBacked(cfg, s.l2, s.loads, p.phase.Holding?);
    }
  }

  lemma PhaseIsBacked(cfg: Config, s: State, r: nat)
    requires AllBacked(cfg, s) && r in s.readers
    ensures PhaseBacked(cfg, s.readers[r].phase, s.loads)
    ensures s.l2.Some? ==> Backed(cfg, s.l2.value, s.loads)
  {
    hide PhaseBacked, Backed;
  }

  lemma L1IsBacked(cfg: Config, s: State, r: nat)
    requires CodecOk(cfg) && AllBacked(cfg, s) && r in s.readers && s.readers[r].inst in s.l1
    ensures var v := cfg.decode(s.l1[s.readers[r].inst]); v.Some? ==> PhaseBacked(cfg, Done(Got(v.value)), s.loads)
  {
    var v :| Value(v) in s.loads && cfg.encode(v) == Some(s.l1[s.readers[r].inst]);
    assert ResultOf(Value(v)) == Got(v);
  }

  lemma StepKeepsBacked(cfg: Config, s: State, a: Action)
    requires CodecOk(cfg) && AllBacked(cfg, s)
    ensures AllBacked(cfg, Next(cfg, s, a))
  {
    hide Continued, CodecOk, Backed;
    match a
    case Arrive(_, _) =>
    case Tick =>
    case EvictL1(_) =>
    case EvictL2 =>
    case _ => if a.reader in s.readers { ContinuedBacked(cfg, s, a.reader, a); }
  }

  lemma {:induction false} RunKeepsBacked(cfg: Config, s: State, acts: seq<Action>)
    requires CodecOk(cfg) && AllBacked(cfg, s)
    ensures AllBacked(cfg, Run(cfg, s, acts))
    decreases |acts|
  {
    hide Next, AllBacked, CodecOk;
    if acts != [] {
      StepKeepsBacked(cfg, s, acts[0]);
      RunKeepsBacked(cfg, Next(cfg, s, acts[0]), acts[1..]);
    }
  }

  /**
   In every run, with leases lost, entries evicted, writes failed and readers crashed at will: L1
   holds only encoded values that some load returned, L2 only those or the sentinel after a load
   found nothing, and every answer is the outcome of some load or a failure.
   */
  lemma OnlyLoadedDataIsServed(cfg: Config, acts: seq<Action>, r: nat, inst: nat)
    requires CodecOk(cfg)
    ensures var s := Run(cfg, Start(), acts);
            && (s.l2.Some? ==> exists o :: o in s.loads && RawOf(cfg, o) == s.l2)
            && (inst in s.l1 ==> exists v :: Value(v) in s.loads && cfg.encode(v) == Some(s.l1[inst]))
            && (r in s.readers && s.readers[r].phase.Done? ==> Earned(s.readers[r].phase.result, s.loads))
  {
    hide Run, CodecOk, Earned;
    RunKeepsBacked(cfg, Start(), acts);
    var s := Run(cfg, Start(), acts);
    assert r in s.readers ==> PhaseBacked(cfg, s.readers[r].phase, s.loads);
  }

  // ---- What is stored spares the next reader its load ----

  /** The outcome can be stored: a value that encodes, or the news of none where nulls are cached. */
  predicate Storable(cfg: Config, o: Outcome) {
    if o.Value? then cfg.encode(o.v).Some? else cfg.sentinel != ""
  }

  /** No step stores anything in L2 or loses it. */
  predicate KeepsL2(a: Action) {
    !a.Store? && !a.EvictL2?
  }

  lemma {:induction false} L2Stays(cfg: Config, s: State, acts: seq<Action>)
    requires forall a :: a in acts ==> KeepsL2(a)
    ensures Run(cfg, s, acts).l2 == s.l2
    decreases |acts|
  {
    if acts != [] {
      assert KeepsL2(acts[0]);
      L2StaysInStep(cfg, s, acts[0]);
      L2Stays(cfg, Next(cfg, s, acts[0]), acts[1..]);
    }
  }

  lemma L2StaysInStep(cfg: Config, s: State, a: Action)
    requires KeepsL2(a)
    ensures Next(cfg, s, a).l2 == s.l2
  {
    hide LookUp, RawOf, Owner, SetNX, Renewed, Released;
  }

  /**
   A stored outcome is what every later reader finds in L2, as long as the entry lives: a value is
   handed on, and the news that there is none is the answer; nobody goes on to a load.
   */
  lemma StoredIsFound(cfg: Config, s: State, r: nat, o: Outcome, acts: seq<Action>, q: nat)
    requires CodecOk(cfg) && r in s.readers && s.readers[r].phase == Storing(o) && Storable(cfg, o)
    requires forall a :: a in acts ==> KeepsL2(a)
    ensures var t := Run(cfg, Next(cfg, s, Store(r, true)), acts);
            q in t.readers && (t.readers[q].phase.AtL2? || t.readers[q].phase.Holding?) ==>
              var held, found := t.readers[q].phase.Holding?, Next(cfg, t, LookL2(q, true));
              && q in found.readers && found.loads == t.loads
              && match o
                 case Value(v) =>
                   var p := found.readers[q].phase;
                   p.Filling? && p.v == v && cfg.decode(p.raw) == Some(v) && p.held == held
                 case Absent => found.readers[q].phase == if held then Releasing(NullCached) else Done(NullCached)
  {
    hide CodecOk, Run, LookUp;
    StoreWrites(cfg, s, r, o);
    L2Stays(cfg, Next(cfg, s, Store(r, true)), acts);
    FoundAgain(cfg, o);
  }

  lemma StoreWrites(cfg: Config, s: State, r: nat, o: Outcome)
    requires r in s.readers && s.readers[r].phase == Storing(o) && Storable(cfg, o)
    ensures Next(cfg, s, Store(r, true)).l2 == RawOf(cfg, o)
  {
  }

  /** Reading undoes storing. */
  lemma FoundAgain(cfg: Config, o: Outcome)
    requires CodecOk(cfg) && Storable(cfg, o)
    ensures match o
            case Value(v) => LookUp(cfg, RawOf(cfg, o)) == Hit(RawOf(cfg, o).value, v) && cfg.decode(RawOf(cfg, o).value) == Some(v)
            case Absent => LookUp(cfg, RawOf(cfg, o)) == Null
  {
  }

  /** A value found or loaded is copied into L1, where the next reader of the instance finds it. */
  lemma FilledIsFound(cfg: Config, s: State, r: nat, q: nat)
    requires r in s.readers && s.readers[r].phase.Filling? && cfg.decode(s.readers[r].phase.raw) == Some(s.readers[r].phase.v)
    requires q in s.readers && q != r && s.readers[q].phase.AtL1? && s.readers[q].inst == s.readers[r].inst
    ensures var v, t := s.readers[r].phase.v, Next(cfg, Next(cfg, s, FillL1(r, true)), LookL1(q));
            && r in t.readers && t.readers[r].phase == (if s.readers[r].phase.held then Releasing(Got(v)) else Done(Got(v)))
            && q in t.readers && t.readers[q].phase == Done(Got(v))
  {
  }

  /** A released lock is free for the next reader, who then holds it and finds nothing, or what was stored, in L2. */
  lemma ReleasedIsFree(cfg: Config, s: State, r: nat, q: nat)
    requires cfg.ttl > 0 && r in s.readers && s.readers[r].phase.Releasing? && Owner(s.lock, s.now) == Some(s.readers[r].token)
    requires q in s.readers && q != r && s.readers[q].phase.Trying?
    ensures var released := Next(cfg, s, Release(r, true)); var t := Next(cfg, released, TryAcquire(q));
            && r in released.readers && released.readers[r].phase == Done(s.readers[r].phase.result)
            && Owner(released.lock, released.now) == None
            && q in t.readers && t.readers[q].phase == Holding && Owner(t.lock, t.now) == Some(t.readers[q].token)
  {
  }

  /** The lock is held under a token until some time at least, and by no other reader than r. */
  ghost predicate HeldUntil(s: State, r: nat, token: nat, until: nat) {
    && s.lock.Some? && s.lock.value.token == token && s.lock.value.expires >= until && token < s.nextToken
    && forall q :: q in s.readers && q != r && InLock(s.readers[q].phase) ==> s.readers[q].token != token
  }

  lemma LeaseLastsOneStep(cfg: Config, s: State, a: Action, r: nat, token: nat, until: nat)
    requires HeldUntil(s, r, token, until) && s.now < until <= s.now + cfg.ttl && !(a.Release? && a.reader == r)
    ensures HeldUntil(Next(cfg, s, a), r, token, until)
  {
    hide LookUp, RawOf;
  }

  function TicksOf(acts: seq<Action>): nat
    decreases |acts|
  {
    if acts == [] then 0 else (if acts[0].Tick? then 1 else 0) + TicksOf(acts[1..])
  }

  /**
   A renewed lease lasts: whatever anybody does for less than the lease's length, while its owner
   does not release it, the lock stays with that owner.
   */
  lemma RenewedLeaseLasts(cfg: Config, s: State, r: nat, acts: seq<Action>)
    requires TokensOk(s) && r in s.readers && InLock(s.readers[r].phase)
    requires Owner(s.lock, s.now) == Some(s.readers[r].token) && TicksOf(acts) < cfg.ttl
    requires forall a :: a in acts ==> !(a.Release? && a.reader == r)
    ensures var t := Run(cfg, Next(cfg, s, Renew(r)), acts); Owner(t.lock, t.now) == Some(s.readers[r].token)
  {
    LeaseLasts(cfg, Next(cfg, s, Renew(r)), acts, r, s.readers[r].token, s.now + cfg.ttl);
  }

  lemma {:induction false} LeaseLasts(cfg: Config, s: State, acts: seq<Action>, r: nat, token: nat, until: nat)
    requires HeldUntil(s, r, token, until) && s.now + TicksOf(acts) < until <= s.now + cfg.ttl
    requires forall a :: a in acts ==> !(a.Release? && a.reader == r)
    ensures var t := Run(cfg, s, acts); Owner(t.lock, t.now) == Some(token)
    decreases |acts|
  {
    hide Continued, HeldUntil;
    if acts == [] {
      HeldNow(s, r, token, until);
    } else {
      assert acts[0] in acts;
      LeaseLastsOneStep(cfg, s, acts[0], r, token, until);
      TimeOfStep(cfg, s, acts[0]);
      LeaseLasts(cfg, Next(cfg, s, acts[0]), acts[1..], r, token, until);
    }
  }

  lemma HeldNow(s: State, r: nat, token: nat, until: nat)
    requires HeldUntil(s, r, token, until) && s.now < until
    ensures Owner(s.lock, s.now) == Some(token)
  {
  }

  lemma TimeOfStep(cfg: Config, s: State, a: Action)
    ensures Next(cfg, s, a).now == s.now + if a.Tick? then 1 else 0
  {
    hide LookUp, RawOf, Owner, SetNX, Renewed, Released;
  }

  // ---- Leases, fills and entries survive: one load for everybody ----

  /** Every reader that relies on being alone still owns its lease. */
  ghost predicate LeasesHold(s: State) {
    forall r :: r in s.readers && Critical(s.readers[r].phase) ==> Owns(s, r)
  }

  /** The step loses no entry, no write and no read under the lock, and drops no loaded outcome. */
  ghost predicate LosesNothing(cfg: Config, s: State, a: Action) {
    match a
    case EvictL2 => false
    case LookL2(r, ok) => ok || (r in s.readers && !s.readers[r].phase.Holding?)
    case Store(_, ok) => ok
    case Load(_, load) => load.Some? ==> RawOf(cfg, load.value).Some?
    case Crash(r) => r in s.readers ==> !s.readers[r].phase.Storing?
    case _ => true
  }

  ghost predicate Survives(cfg: Config, s: State, acts: seq<Action>)
    decreases |acts|
  {
    LeasesHold(s) && (acts != [] ==> LosesNothing(cfg, s, acts[0]) && Survives(cfg, Next(cfg, s, acts[0]), acts[1..]))
  }

  predicate IsStoring(s: State, r: nat) {
    r in s.readers && s.readers[r].phase.Storing?
  }

  ghost predicate PhaseSingle(cfg: Config, s: State, p: Phase) {
    match p
    case Missed => s.loads == []
    case Storing(o) => s.loads == [o] && s.l2 == None
    case Filling(raw, v, _) => s.loads == [Value(v)] && cfg.encode(v) == Some(raw)
    case Releasing(result) => result.Failed? || (|s.loads| == 1 && result == ResultOf(s.loads[0]))
    case Done(result) => result.Failed? || (|s.loads| == 1 && result == ResultOf(s.loads[0]))
    case _ => true
  }

  /** At most one load so far; its outcome is in L2, or in the hands of the reader about to store it. */
  ghost predicate SingleLoad(cfg: Config, s: State) {
    && |s.loads| <= 1
    && (s.loads == [] ==> s.l2 == None)
    && (s.loads != [] ==> RawOf(cfg, s.loads[0]).Some?)
    && (s.loads != [] ==> s.l2 == RawOf(cfg, s.loads[0]) || (s.l2 == None && exists r :: IsStoring(s, r)))
    && (forall i :: i in s.l1 ==> s.loads != [] && s.loads[0].Value? && cfg.encode(s.loads[0].v) == Some(s.l1[i]))
    && (forall r :: r in s.readers ==> PhaseSingle(cfg, s, s.readers[r].phase))
  }

  lemma Alone(s: State, r: nat, q: nat)
    requires TokensOk(s) && LeasesHold(s)
    requires r in s.readers && q in s.readers && Critical(s.readers[r].phase) && Critical(s.readers[q].phase)
    ensures r == q
  {
    assert Owns(s, r) && Owns(s, q);
  }

  /** A reader that looks into L2 finds the loaded outcome, or nothing while it is not stored. */
  lemma LookSingle(cfg: Config, s: State, r: nat, held: bool)
    requires CodecOk(cfg) && TokensOk(s) && LeasesHold(s) && SingleLoad(cfg, s)
    requires r in s.readers && s.readers[r].phase == if held then Holding else AtL2
    ensures PhaseSingle(cfg, s, AfterLook(LookUp(cfg, s.l2), held))
  {
    hide Owner, Owns, TokensOk, LeasesHold;
    if held && s.l2 == None && s.loads != [] {
      var q :| IsStoring(s, q);
      Alone(s, r, q);
    }
  }

  lemma StillStoring(s: State, t: State, r: nat)
    requires forall q :: q != r && q in s.readers ==> q in t.readers && t.readers[q] == s.readers[q]
    requires !IsStoring(s, r) && exists q :: IsStoring(s, q)
    ensures exists q :: IsStoring(t, q)
  {
    var q :| IsStoring(s, q);
    assert IsStoring(t, q);
  }

  /** A reader's step that leaves the loads and L2 as they were. */
  lemma MoveSingle(cfg: Config, s: State, t: State, r: nat)
    requires SingleLoad(cfg, s) && r in s.readers && !s.readers[r].phase.Storing?
    requires t.loads == s.loads && t.l2 == s.l2
    requires forall q :: q != r ==> (q in t.readers <==> q in s.readers) && (q in s.readers ==> t.readers[q] == s.readers[q])
    requires r in t.readers ==> PhaseSingle(cfg, s, t.readers[r].phase)
    requires forall i :: i in t.l1 ==> s.loads != [] && s.loads[0].Value? && cfg.encode(s.loads[0].v) == Some(t.l1[i])
    ensures SingleLoad(cfg, t)
  {
    hide RawOf;
    if exists q :: IsStoring(s, q) {
      StillStoring(s, t, r);
    }
    forall q | q in t.readers ensures PhaseSingle(cfg, t, t.readers[q].phase) {
      assert q in s.readers && (q != r ==> PhaseSingle(cfg, s, s.readers[q].phase));
    }
  }

  lemma LoadSingle(cfg: Config, s: State, r: nat, o: Outcome)
    requires TokensOk(s) && LeasesHold(s) && SingleLoad(cfg, s)
    requires r in s.readers && s.readers[r].phase.Missed? && RawOf(cfg, o).Some?
    ensures SingleLoad(cfg, Next(cfg, s, Load(r, Some(o))))
  {
    hide Owner, Owns, TokensOk, LeasesHold, RawOf;
    var t := Next(cfg, s, Load(r, Some(o)));
    assert PhaseSingle(cfg, s, s.readers[r].phase);
    assert IsStoring(t, r);
    forall q | q in t.readers ensures PhaseSingle(cfg, t, t.readers[q].phase) {
      assert q in s.readers && PhaseSingle(cfg, s, s.readers[q].phase);
      if Critical(s.readers[q].phase) {
        Alone(s, r, q);
      }
    }
  }

  lemma StoreSingle(cfg: Config, s: State, r: nat)
    requires TokensOk(s) && LeasesHold(s) && SingleLoad(cfg, s)
    requires r in s.readers && s.readers[r].phase.Storing?
    ensures SingleLoad(cfg, Next(cfg, s, Store(r, true)))
  {
    hide Owner, Owns, TokensOk, LeasesHold;
    var t := Next(cfg, s, Store(r, true));
    assert PhaseSingle(cfg, s, s.readers[r].phase);
    forall q | q in t.readers ensures PhaseSingle(cfg, t, t.readers[q].phase) {
      assert q in s.readers && PhaseSingle(cfg, s, s.readers[q].phase);
      if Critical(s.readers[q].phase) {
        Alone(s, r, q);
      }
    }
  }

  lemma QuietSingle(cfg: Config, s: State, t: State)
    requires SingleLoad(cfg, s) && t.loads == s.loads && t.l2 == s.l2 && t.readers == s.readers
    requires forall i :: i in t.l1 ==> i in s.l1 && t.l1[i] == s.l1[i]
    ensures SingleLoad(cfg, t)
  {
    hide RawOf;
    if q :| IsStoring(s, q) {
      assert IsStoring(t, q);
    }
    forall q | q in t.readers ensures PhaseSingle(cfg, t, t.readers[q].phase) {
      assert PhaseSingle(cfg, s, s.readers[q].phase);
    }
  }

  lemma ArriveSingle(cfg: Config, s: State, r: nat, inst: nat)
    requires SingleLoad(cfg, s)
    ensures SingleLoad(cfg, Next(cfg, s, Arrive(r, inst)))
  {
    hide RawOf;
    var t := Next(cfg, s, Arrive(r, inst));
    if q :| IsStoring(s, q) {
      assert IsStoring(t, q);
    }
    forall q | q in t.readers ensures PhaseSingle(cfg, t, t.readers[q].phase) {
      assert q in s.readers ==> PhaseSingle(cfg, s, s.readers[q].phase);
    }
  }

  lemma ContinuedSingle(cfg: Config, s: State, r: nat, a: Action)
    requires CodecOk(cfg) && TokensOk(s) && LeasesHold(s) && SingleLoad(cfg, s) && LosesNothing(cfg, s, a)
    requires r in s.readers && !s.readers[r].phase.Storing? && (a.Crash? || a.LookL2? ==> a.reader == r)
    requires !(a.Load? && a.load.Some? && s.readers[r].phase.Missed?)
    ensures SingleLoad(cfg, Continued(cfg, s, r, s.readers[r], a))
  {
    hide LookUp, AfterLook, Owner, Owns, SetNX, Renewed, Released, TokensOk, LeasesHold, RawOf, CodecOk;
    var p, t := s.readers[r], Continued(cfg, s, r, s.readers[r], a);
    assert PhaseSingle(cfg, s, p.phase);
    if a.LookL1? {
      L1IsSingle(cfg, s, r);
    }
    AfterMiss();
    if a.LookL2? && a.ok && p.phase.AtL2? {
      LookSingle(cfg, s, r, false);
    }
    if a.LookL2? && a.ok && p.phase.Holding? {
      LookSingle(cfg, s, r, true);
    }
    MoveSingle(cfg, s, t, r);
  }

  lemma L1IsSingle(cfg: Config, s: State, r: nat)
    requires CodecOk(cfg) && SingleLoad(cfg, s) && r in s.readers
    ensures s.readers[r].inst in s.l1 ==>
              var v := cfg.decode(s.l1[s.readers[r].inst]);
              v.Some? && PhaseSingle(cfg, s, Done(Got(v.value)))
  {
    if s.readers[r].inst in s.l1 {
      var raw := s.l1[s.readers[r].inst];
      assert cfg.encode(s.loads[0].v) == Some(raw);
    }
  }

  lemma StepKeepsSingle(cfg: Config, s: State, a: Action)
    requires CodecOk(cfg) && TokensOk(s) && LeasesHold(s) && SingleLoad(cfg, s) && LosesNothing(cfg, s, a)
    ensures SingleLoad(cfg, Next(cfg, s, a))
  {
    hide Owner, Owns, TokensOk, LeasesHold, RawOf, CodecOk, SingleLoad, LookUp, AfterLook, SetNX, Renewed, Released;
    if a.Arrive? {
      ArriveSingle(cfg, s, a.reader, a.inst);
    } else if a.Tick? || a.EvictL1? {
      QuietSingle(cfg, s, Next(cfg, s, a));
    } else if a != EvictL2 && a.reader in s.readers {
      var p := s.readers[a.reader].phase;
      if a.Store? && p.Storing? {
        StoreSingle(cfg, s, a.reader);
      } else if p.Storing? {
        QuietSingle(cfg, s, Next(cfg, s, a));
      } else if a.Load? && a.load.Some? && p.Missed? {
        LoadSingle(cfg, s, a.reader, a.load.value);
      } else {
        ContinuedSingle(cfg, s, a.reader, a);
      }
    }
  }

  lemma {:induction false} RunKeepsSingle(cfg: Config, s: State, acts: seq<Action>)
    requires CodecOk(cfg) && TokensOk(s) && SingleLoad(cfg, s) && Survives(cfg, s, acts)
    ensures SingleLoad(cfg, Run(cfg, s, acts))
    decreases |acts|
  {
    hide Next, SingleLoad, CodecOk, TokensOk, LeasesHold, LosesNothing;
    if acts != [] {
      StepKeepsSingle(cfg, s, acts[0]);
      StepKeepsTokens(cfg, s, acts[0]);
      RunKeepsSingle(cfg, Next(cfg, s, acts[0]), acts[1..]);
    }
  }

  /**
   While leases outlast the work they protect and no entry or write is lost, at most one load
   succeeds for the key, and every reader that does not fail answers with that load's outcome.
   */
  lemma OneLoadForEverybody(cfg: Config, acts: seq<Action>, r: nat)
    requires CodecOk(cfg) && Survives(cfg, Start(), acts)
    ensures var s := Run(cfg, Start(), acts);
            && |s.loads| <= 1
            && (r in s.readers && s.readers[r].phase.Done? && !s.readers[r].phase.result.Failed? ==>
                  |s.loads| == 1 && s.readers[r].phase.result == ResultOf(s.loads[0]))
  {
    hide Run, CodecOk, Survives;
    RunKeepsSingle(cfg, Start(), acts);
    var s := Run(cfg, Start(), acts);
    assert r in s.readers ==> PhaseSingle(cfg, s, s.readers[r].phase);
  }

  /** A lease that runs out during a load lets a second reader load as well, and answer differently. */
  lemma LostLeaseLoadsTwice(cfg: Config, s: State)
    requires cfg.ttl == 1 && s.lock == None && s.l2 == None && s.loads == []
    requires s.readers == map[1 := Reader(1, 0, Trying), 2 := Reader(2, 0, Trying)]
    ensures var t := Next(cfg, Next(cfg, Next(cfg, s, TryAcquire(1)), LookL2(1, true)), Load(1, Some(Value(10))));
            var u := Next(cfg, Next(cfg, Next(cfg, Next(cfg, t, Tick), TryAcquire(2)), LookL2(2, true)), Load(2, Some(Value(20))));
            u.loads == [Value(10), Value(20)]
            && 1 in u.readers && u.readers[1].phase == Storing(Value(10))
            && 2 in u.readers && u.readers[2].phase == Storing(Value(20))
  {
    hide Next;
    GetsToLoad(cfg, s, 1, 10);
    var t := Next(cfg, Next(cfg, Next(cfg, s, TryAcquire(1)), LookL2(1, true)), Load(1, Some(Value(10))));
    TimePasses(cfg, t);
    GetsToLoad(cfg, Next(cfg, t, Tick), 2, 20);
  }

  lemma TimePasses(cfg: Config, s: State)
    ensures Next(cfg, s, Tick) == s.(now := s.now + 1)
  {
  }

  lemma GetsToLoad(cfg: Config, s: State, r: nat, v: int)
    requires Owner(s.lock, s.now).None? && s.l2 == None && r in s.readers && s.readers[r].phase == Trying
    ensures var t := Next(cfg, Next(cfg, Next(cfg, s, TryAcquire(r)), LookL2(r, true)), Load(r, Some(Value(v))));
            && t.loads == s.loads + [Value(v)] && t.l2 == None && t.now == s.now
            && t.lock == Some(Lease(s.nextToken, s.now + cfg.ttl))
            && t.readers == s.readers[r := Reader(s.readers[r].inst, s.nextToken, Storing(Value(v)))]
  {
    var p := Reader(s.readers[r].inst, s.nextToken, Holding);
    var holding := Next(cfg, s, TryAcquire(r));
    assert holding.readers == s.readers[r := p];
    var missed := Next(cfg, holding, LookL2(r, true));
    assert missed.readers == s.readers[r := p.(phase := Missed)];
  }
}
