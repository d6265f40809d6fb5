/**
 The aggregating consumer: fetched messages are gathered into one pending batch per partition,
 and a finished batch is laid out as the keys and arguments of the apply script.
 */
module Batching {
  import opened Prelude
  import opened CounterKeys
  import Decimal
  import S = ApplyScript

  const SCHEMA_LEN: nat := 5

  const METRIC_NAMES: seq<string> := ["like", "fav", "follower", "following", "posts"]

  /** The JSON body of a message: unreadable, or an event whose fields may still be wrong. */
  datatype Body = Unreadable | Fields(entityType: string, entityID: string, index: int, delta: int)

  datatype Message = Message(partition: int, offset: nat, body: Body)

  datatype BatchEvent = BatchEvent(offset: nat, entityType: string, entityID: string, index: int, delta: int)

  /** A message that may be counted. */
  predicate Usable(m: Message) {
    && m.body.Fields? && m.body.entityType != "" && m.body.entityID != ""
    && 0 <= m.body.index < SCHEMA_LEN && m.body.delta != 0
  }

  function EventOf(m: Message): BatchEvent
    requires m.body.Fields?
  {
    BatchEvent(m.offset, m.body.entityType, m.body.entityID, m.body.index, m.body.delta)
  }

  function MemberOf(e: BatchEvent): string {
    DirtyMember(e.entityType, e.entityID)
  }

  /** The usable messages of a fetch sequence, in order. */
  function UsableOf(ms: seq<Message>): seq<Message> {
    if ms == [] then []
    else UsableOf(ms[..|ms| - 1]) + if Usable(ms[|ms| - 1]) then [ms[|ms| - 1]] else []
  }

  class CounterBatch {
    var partition: int
    var openedAt: int
    var startOffset: int
    var endOffset: int
    var messages: seq<Message>
    var events: seq<BatchEvent>
    var entities: set<string>

    /** Messages of one partition without an offset gap, each with its event and entity noted. */
    ghost predicate Valid()
      reads this
    {
      && |events| == |messages|
      && (forall i :: 0 <= i < |messages| ==> Usable(messages[i]) && messages[i].partition == partition
                                               && messages[i].offset == startOffset + i && events[i] == EventOf(messages[i]))
      && (messages != [] ==> endOffset == startOffset + |messages| - 1)
      && entities == set e | e in events :: MemberOf(e)
    }

    constructor ()
      ensures Valid() && messages == []
    {
      partition, openedAt, startOffset, endOffset := -1, 0, 0, 0;
      messages, events, entities := [], [], {};
    }

    /** Appends one message, or refuses it and changes nothing. */
    method AddEvent(m: Message, now: int) returns (ok: bool)
      requires Valid() && m.body.Fields?
      modifies this
      ensures Valid()
      ensures ok <==> Usable(m) && (old(messages) == [] || (m.partition == old(partition) && m.offset == old(endOffset) + 1))
      ensures messages == if ok then old(messages) + [m] else old(messages)
      ensures ok ==> partition == m.partition && endOffset == m.offset
                     && openedAt == if old(messages) == [] then now else old(openedAt)
      ensures !ok ==> partition == old(partition) && endOffset == old(endOffset) && openedAt == old(openedAt)
    {
      if m.body.entityType == "" || m.body.entityID == "" {
        return false;
      }
      if m.body.index < 0 || m.body.index >= SCHEMA_LEN {
        return false;
      }
      if m.body.delta == 0 {
        return false;
      }
      if messages == [] {
        partition, openedAt := m.partition, now;
        startOffset, endOffset := m.offset, m.offset;
      } else {
        if m.partition != partition || m.offset != endOffset + 1 {
          return false;
        }
        endOffset := m.offset;
      }
      messages := messages + [m];
      events := events + [EventOf(m)];
      entities := entities + {MemberOf(EventOf(m))};
      ok := true;
    }
  }

  class AggregationConsumer {
    const batchSize: nat
    const flushInterval: int
    var batches: map<int, CounterBatch>

    ghost function Objects(): set<CounterBatch>
      reads this
    {
      set p | p in batches :: batches[p]
    }

    ghost function Pending(p: int): seq<Message>
      reads this, Objects()
    {
      if p in batches then batches[p].messages else []
    }

    /** What is pending in a partition, and since when. */
    ghost function State(p: int): Waiting
      reads this, Objects()
    {
      Waiting(Pending(p), if p in batches then batches[p].openedAt else 0)
    }

    ghost function States(): imap<int, Waiting>
      reads this, Objects()
    {
      imap p: int :: State(p)
    }

    /** Some pending batch has waited for the flush interval. */
    ghost predicate AnyLate(now: int)
      reads this, Objects()
    {
      exists p :: Late(States()[p], now - flushInterval)
    }

    /** Pending batches are valid, distinct, of their own partition, and never full. */
    ghost predicate Valid()
      reads this, Objects()
    {
      && batchSize > 0
      && (forall p :: p in batches ==> PendingBatch(p, batches[p]))
      && (forall p, q :: p in batches && q in batches && p != q ==> batches[p] != batches[q])
    }

    ghost predicate PendingBatch(p: int, b: CounterBatch)
      reads b
    {
      b.Valid() && |b.messages| < batchSize && (b.messages != [] ==> b.partition == p)
    }

    /** A batch handed on for flushing: no longer pending, not empty, at most batchSize long. */
    ghost predicate Detached(p: int, b: CounterBatch)
      reads this, b
    {
      (forall q :: q in batches ==> batches[q] != b) && b.Valid() && 0 < |b.messages| <= batchSize && b.partition == p
    }

    constructor (batchSize: nat, flushInterval: int)
      requires batchSize > 0
      ensures Valid() && batches == map[] && this.batchSize == batchSize && this.flushInterval == flushInterval
    {
      this.batchSize := batchSize;
      this.flushInterval := flushInterval;
      batches := map[];
    }

    /**
     Takes in one fetched message. It may hand on a batch to flush, and it says whether the
     message is skipped: then the watermark has been advanced past it before that flush. No
     usable message is lost or reordered, and other partitions keep what they had.
     */
    method HandleMessage(m: Message, now: int) returns (batch: CounterBatch?, skipped: bool)
      requires Valid()
      modifies this`batches, Objects()
      ensures Valid() && fresh(Objects() - old(Objects()))
      ensures batch != null ==> Detached(m.partition, batch)
      ensures batch != null ==> fresh(batch) || (m.partition in old(batches) && batch == old(batches[m.partition]))
      ensures (if batch == null then [] else batch.messages) + Pending(m.partition)
              == old(Pending(m.partition)) + if Usable(m) then [m] else []
      ensures forall q :: q != m.partition ==> State(q) == old(State(q))
      ensures skipped <==> Skips(m, old(Pending(m.partition)))
      ensures skipped || Gap(m, old(Pending(m.partition))) ==>
                (if batch == null then [] else batch.messages) == old(Pending(m.partition))
      ensures !skipped && !Gap(m, old(Pending(m.partition))) ==> batch == null || Pending(m.partition) == []
      ensures !skipped && !Gap(m, old(Pending(m.partition))) ==> (batch != null <==> |old(Pending(m.partition))| + 1 >= batchSize)
      ensures Pending(m.partition) != [] ==>
                State(m.partition).since == if old(Pending(m.partition)) == [] || batch != null then now else old(State(m.partition)).since
    {
      hide Usable, EventOf, MemberOf, CounterBatch.Valid;
      UsableIsReadable(m);
      var p := m.partition;
      batch, skipped := null, false;
      if p in batches {
        EndsAtLast(batches[p]);
      }
      if m.body.Unreadable? {
        if p in batches && batches[p].messages != [] {
          batch := Detach(p);
        }
        return batch, true;
      }
      if p in batches && batches[p].messages != [] && m.offset != batches[p].endOffset + 1 {
        batch := Detach(p);
        AddToBatch(m, now);
        return;
      }
      if p !in batches {
        var created := new CounterBatch();
        batches := batches[p := created];
      }
      batch, skipped := AddOrReject(m, now);
    }

    /** Takes a pending batch out to hand it on. */
    method Detach(p: int) returns (batch: CounterBatch)
      requires Valid() && p in batches && batches[p].messages != []
      modifies this`batches
      ensures Valid() && batches == old(batches) - {p}
      ensures batch == old(batches[p]) && Detached(p, batch) && batch.messages == old(Pending(p))
    {
      hide Usable, EventOf, MemberOf, CounterBatch.Valid;
      batch := batches[p];
      batches := batches - {p};
    }

    /** Opens a batch for the message; one whose fields are wrong is dropped with a warning only. */
    method AddToBatch(m: Message, now: int)
      requires Valid() && m.body.Fields? && m.partition !in batches && batchSize > 1
      modifies this`batches
      ensures Valid() && fresh(Objects() - old(Objects()))
      ensures Pending(m.partition) == if Usable(m) then [m] else []
      ensures m.partition in batches && fresh(batches[m.partition])
      ensures Usable(m) ==> batches[m.partition].openedAt == now
      ensures forall q :: q != m.partition ==> (q in batches <==> q in old(batches)) && (q in batches ==> batches[q] == old(batches[q]))
    {
      var next := new CounterBatch();
      var _ := next.AddEvent(m, now);
      batches := batches[m.partition := next];
    }

    /** Adds the message to the pending batch and hands that on when it is full or the message is refused. */
    method AddOrReject(m: Message, now: int) returns (batch: CounterBatch?, skipped: bool)
      requires Valid() && m.body.Fields? && m.partition in batches
      requires batches[m.partition].messages != [] ==> m.offset == batches[m.partition].endOffset + 1
      modifies this`batches, batches[m.partition]
      ensures Valid()
      ensures batch != null ==> Detached(m.partition, batch) && batch == old(batches[m.partition])
      ensures (if batch == null then [] else batch.messages) + Pending(m.partition)
              == old(Pending(m.partition)) + if Usable(m) then [m] else []
      ensures batches == old(batches) || batches == old(batches) - {m.partition}
      ensures skipped <==> !Usable(m)
      ensures skipped ==> (if batch == null then [] else batch.messages) == old(Pending(m.partition))
      ensures skipped || batch != null ==> Pending(m.partition) == []
      ensures !skipped ==> (batch != null <==> |old(Pending(m.partition))| + 1 >= batchSize)
      ensures Pending(m.partition) != [] ==>
                State(m.partition).since == if old(Pending(m.partition)) == [] then now else old(State(m.partition)).since
    {
      var p := m.partition;
      var b := batches[p];
      batch, skipped := null, false;
      var ok := b.AddEvent(m, now);
      if !ok {
        skipped := true;
        if b.messages != [] {
          batch := b;
          batches := batches - {p};
        }
      } else if |b.messages| >= batchSize {
        batch := b;
        batches := batches - {p};
      }
    }

    /** Hands on one batch that has waited for the flush interval; empty ones are dropped. */
    method TakeExpiredBatch(now: int) returns (batch: CounterBatch?, partition: int)
      requires Valid()
      modifies this`batches
      ensures Valid() && (forall q :: q in batches ==> q in old(batches) && batches[q] == old(batches[q]))
      ensures batch == null ==> (forall p :: Pending(p) == old(Pending(p)))
      ensures batch == null ==> (forall p :: p in batches ==> batches[p].messages != [] && now < batches[p].openedAt + flushInterval)
      ensures batch != null ==> partition in old(batches) && batch == old(batches[partition])
      ensures batch != null ==> Detached(partition, batch) && now >= batch.openedAt + flushInterval
      ensures batch != null ==> batch.messages == old(Pending(partition)) && Pending(partition) == []
      ensures batch != null ==> (forall q :: q != partition ==> Pending(q) == old(Pending(q)))
      ensures batch != null <==> old(AnyLate(now))
      ensures batch != null ==> Late(old(States())[partition], now - flushInterval)
    {
      hide Usable, EventOf, MemberOf, CounterBatch.Valid, Detached;
      batch, partition := null, -1;
      ghost var before := States();
      var todo: set<int> := batches.Keys;
      while todo != {}
        invariant todo <= batches.Keys <= old(batches.Keys)
        invariant forall p :: p in batches ==> batches[p] == old(batches[p])
        invariant forall p :: p in old(batches) && p !in batches ==> old(batches[p].messages) == []
        invariant forall p :: p in batches && p !in todo ==> batches[p].messages != [] && now < batches[p].openedAt + flushInterval
      {
        assert (forall q :: q !in todo) ==> todo == {};
        var p: int :| p in todo;
        todo := todo - {p};
        if batches[p].messages == [] {
          batches := batches - {p};
        } else if now >= batches[p].openedAt + flushInterval {
          assert before[p] == State(p) && Late(before[p], now - flushInterval);
          batch := Detach(p);
          return batch, p;
        }
      }
    }

    /** When the loop is to wake up next: a wake-up finds a due batch exactly from that time on. */
    method NextBatchDeadline() returns (deadline: int, ok: bool)
      requires Valid()
      ensures forall now :: AnyLate(now) <==> ok && deadline <= now
    {
      hide Usable, EventOf, MemberOf, CounterBatch.Valid;
      deadline, ok := 0, false;
      var todo: set<int> := batches.Keys;
      while todo != {}
        invariant todo <= batches.Keys
        invariant forall p :: p in batches && p !in todo && Pending(p) != [] ==>
                                ok && deadline <= States()[p].since + flushInterval
        invariant ok ==> exists p :: Late(States()[p], deadline - flushInterval)
      {
        assert (forall q :: q !in todo) ==> todo == {};
        var p: int :| p in todo;
        todo := todo - {p};
        if batches[p].messages != [] {
          var current := batches[p].openedAt + flushInterval;
          if !ok || current < deadline {
            deadline, ok := current, true;
            assert Late(States()[p], deadline - flushInterval);
          }
        }
      }
    }

    method ConsumeTick(now: int) returns (turn: Turn)
      requires Valid()
      modifies this`batches
      ensures Valid() && Objects() <= old(Objects())
      ensures |turn.batch| <= batchSize
      ensures forall p :: Turned(Tick(now), p, old(States())[p], View(turn, p), State(p))
      ensures turn.batch != [] <==> old(AnyLate(now))
      ensures turn.batch != [] ==> Late(old(States())[turn.partition], now - flushInterval)
    {
      hide Usable, CounterBatch.Valid;
      var batch, partition := TakeExpiredBatch(now);
      turn := Turn(partition, None, if batch == null then [] else batch.messages);
    }

    /** `advanceOk` says whether the watermark could be advanced for a skipped message; if not, that is only logged. */
    method ConsumeMessage(m: Message, now: int, advanceOk: bool) returns (turn: Turn)
      requires Valid()
      modifies this`batches, Objects()
      ensures Valid() && fresh(Objects() - old(Objects()))
      ensures |turn.batch| <= batchSize
      ensures forall p :: Turned(Fetch(m, now, advanceOk), p, old(States())[p], View(turn, p), State(p))
      ensures FullIsHandedOn(m, batchSize, old(Pending(m.partition)), turn)
    {
      hide Usable, EventOf, MemberOf, CounterBatch.Valid;
      var batch, skipped := HandleMessage(m, now);
      turn := Turn(m.partition, if skipped && advanceOk then Some(m.offset) else None, if batch == null then [] else batch.messages);
      WholeBatch(m, old(Pending(m.partition)), turn.batch, Pending(m.partition));
    }

    /** One turn of the loop: a timer wake-up or one message. */
    method Consume(input: Input) returns (turn: Turn)
      requires Valid()
      modifies this`batches, Objects()
      ensures Valid() && fresh(Objects() - old(Objects()))
      ensures |turn.batch| <= batchSize
      ensures forall p :: Turned(input, p, old(States())[p], View(turn, p), State(p))
      ensures input.Fetch? ==> FullIsHandedOn(input.m, batchSize, old(Pending(input.m.partition)), turn)
      ensures input.Tick? ==> (turn.batch != [] <==> old(AnyLate(input.now)))
      ensures input.Tick? && turn.batch != [] ==> Late(old(States())[turn.partition], input.now - flushInterval)
    {
      hide TurnOk, Left, Usable, FullIsHandedOn;
      if input.Tick? {
        turn := ConsumeTick(input.now);
      } else {
        turn := ConsumeMessage(input.m, input.at, input.advanceOk);
      }
    }

    /**
     The fetch loop over any sequence of messages and timer wake-ups. Each turn does what the
     pending batch and the input call for, so for every partition the batches handed on, followed
     by the pending one, are exactly its usable messages in order.
     */
    method ConsumeLoop(inputs: seq<Input>) returns (turns: seq<Turn>)
      requires Valid() && batches == map[]
      modifies this`batches
      ensures Valid() && |turns| == |inputs|
      ensures forall p :: Traced(inputs, turns, p) && Pending(p) == Held(inputs, turns, p)
      ensures forall p :: Flushed(turns, p) + Pending(p) == UsableOf(FetchedFrom(inputs, p))
      ensures forall t :: t in turns ==> |t.batch| <= batchSize
      ensures Timely(Limits(batchSize, flushInterval), inputs, turns)
      ensures forall p :: AsTraced(inputs, turns, p, State(p))
    {
      hide TurnOk, Left, UsableOf, Flushed, FetchedFrom, Usable, OpenedAt, Held, Turned, FullIsHandedOn, CounterBatch.Valid, Late,
           AllTraced, Timely, AsTraced;
      turns := [];
      assert inputs[..0] == [];
      NothingYet(Limits(batchSize, flushInterval), States());
      for i := 0 to |inputs|
        invariant Valid() && fresh(Objects()) && |turns| == i
        invariant forall t :: t in turns ==> |t.batch| <= batchSize
        invariant AllTraced(inputs[..i], turns) && Timely(Limits(batchSize, flushInterval), inputs[..i], turns)
        invariant forall p :: AsTraced(inputs[..i], turns, p, States()[p])
      {
        ghost var before := States();
        var turn := Consume(inputs[i]);
        TraceGrows(inputs[..i], turns, inputs[i], turn, before, States());
        PromptnessGrows(Limits(batchSize, flushInterval), inputs[..i], turns, inputs[i], turn, before);
        assert inputs[..i + 1] == inputs[..i] + [inputs[i]];
        turns := turns + [turn];
      }
      assert inputs[..|inputs|] == inputs;
      forall p ensures Traced(inputs, turns, p) && AsTraced(inputs, turns, p, State(p)) && Pending(p) == Held(inputs, turns, p)
                       && Flushed(turns, p) + Pending(p) == UsableOf(FetchedFrom(inputs, p)) {
        assert AsTraced(inputs, turns, p, States()[p]);
        OfAllTraced(inputs, turns, p, State(p));
      }
    }
  }

  // ---- What a turn does ----

  /** What the loop meets: a timer wake-up at some time, or a fetched message. */
  datatype Input = Tick(now: int) | Fetch(m: Message, at: int, advanceOk: bool)

  /**
   What one turn does, in order of effect: the watermark of the partition is advanced to a skipped
   offset, and then a batch is handed on for flushing, unless it is empty.
   */
  datatype Turn = Turn(partition: int, skip: Option<nat>, batch: seq<Message>)

  /** What a turn does to one partition. */
  function View(t: Turn, p: int): Turn {
    if t.partition == p then t else Turn(p, None, [])
  }

  /** The message does not continue the pending batch. */
  predicate Gap(m: Message, pending: seq<Message>) {
    m.body.Fields? && pending != [] && m.offset != pending[|pending| - 1].offset + 1
  }

  /** The message is skipped: unreadable, or with wrong fields where it would continue the pending batch. */
  predicate Skips(m: Message, pending: seq<Message>) {
    m.body.Unreadable? || (!Usable(m) && !Gap(m, pending))
  }

  function Arrived(x: Input, p: int, pending: seq<Message>): seq<Message> {
    if x.Fetch? && x.m.partition == p && Usable(x.m) then pending + [x.m] else pending
  }

  /** The turn of a partition that meets an input with a pending batch. */
  predicate TurnOk(x: Input, p: int, pending: seq<Message>, t: Turn) {
    match x
    case Tick(_) => t.skip == None && (t.batch == [] || t.batch == pending)
    case Fetch(m, _, advanceOk) =>
      if m.partition != p then t.skip == None && t.batch == []
      else if Skips(m, pending) then t.skip == (if advanceOk then Some(m.offset) else None) && t.batch == pending
      else t.skip == None && if Gap(m, pending) then t.batch == pending else t.batch == [] || t.batch == pending + [m]
  }

  /** What is pending after a turn. */
  function Left(x: Input, p: int, pending: seq<Message>, t: Turn): seq<Message> {
    var all := Arrived(x, p, pending);
    if |t.batch| <= |all| then all[|t.batch|..] else []
  }

  /** What is pending in a partition after some turns. */
  function Held(inputs: seq<Input>, turns: seq<Turn>, p: int): seq<Message>
    requires |turns| == |inputs|
  {
    if inputs == [] then []
    else
      var n := |inputs| - 1;
      Left(inputs[n], p, Held(inputs[..n], turns[..n], p), View(turns[n], p))
  }

  /** Every turn does to the partition what its pending batch and the input call for. */
  ghost predicate Traced(inputs: seq<Input>, turns: seq<Turn>, p: int) {
    && |turns| == |inputs|
    && (inputs != [] ==>
          var n := |inputs| - 1;
          && Traced(inputs[..n], turns[..n], p)
          && TurnOk(inputs[n], p, Held(inputs[..n], turns[..n], p), View(turns[n], p)))
  }

  /** The loop's settings: a batch is full at `size` messages and due `interval` after it was opened. */
  datatype Limits = Limits(size: nat, interval: int)

  /** A message that continues the pending batch hands it on exactly when that makes it full. */
  predicate FullIsHandedOn(m: Message, size: nat, pending: seq<Message>, t: Turn) {
    !Skips(m, pending) && !Gap(m, pending) ==> (t.batch != [] <==> |pending| + 1 >= size)
  }

  /** When the batch left pending by a turn was opened, if one is. */
  function OpenedBy(x: Input, p: int, pending: seq<Message>, since: int, t: Turn): int {
    if x.Fetch? && x.m.partition == p && (pending == [] || t.batch != []) then x.at else since
  }

  /** When the usable messages of a partition were taken in. */
  function TakenAt(inputs: seq<Input>, p: int): seq<int> {
    if inputs == [] then []
    else
      var last := inputs[|inputs| - 1];
      TakenAt(inputs[..|inputs| - 1], p) + if last.Fetch? && last.m.partition == p && Usable(last.m) then [last.at] else []
  }

  /** When the first message still pending was taken in. */
  function OpenedAt(inputs: seq<Input>, turns: seq<Turn>, p: int): int {
    var first, times := |Flushed(turns, p)|, TakenAt(inputs, p);
    if first < |times| then times[first] else 0
  }

  /** A pending batch, and when it was opened. */
  datatype Waiting = Waiting(messages: seq<Message>, since: int)

  predicate Late(w: Waiting, deadline: int) {
    w.messages != [] && w.since <= deadline
  }

  /** The partition has a pending batch whose first message was taken in at `deadline` or before. */
  predicate DueBy(inputs: seq<Input>, turns: seq<Turn>, p: int, deadline: int)
    requires |turns| == |inputs|
  {
    Held(inputs, turns, p) != [] && OpenedAt(inputs, turns, p) <= deadline
  }

  ghost predicate AnyDue(inputs: seq<Input>, turns: seq<Turn>, deadline: int)
    requires |turns| == |inputs|
  {
    exists p :: DueBy(inputs, turns, p, deadline)
  }

  /**
   What a turn owes in view of the turns before it: a timer wake-up hands on a due batch whenever
   there is one, and a message that fills its batch hands that on at once.
   */
  ghost predicate Prompt(limits: Limits, inputs: seq<Input>, turns: seq<Turn>, x: Input, t: Turn)
    requires |turns| == |inputs|
  {
    match x
    case Tick(now) =>
      && (t.batch != [] <==> AnyDue(inputs, turns, now - limits.interval))
      && (t.batch != [] ==> DueBy(inputs, turns, t.partition, now - limits.interval))
    case Fetch(m, _, _) => FullIsHandedOn(m, limits.size, Held(inputs, turns, m.partition), t)
  }

  /** No turn is late. */
  ghost predicate Timely(limits: Limits, inputs: seq<Input>, turns: seq<Turn>) {
    && |turns| == |inputs|
    && (inputs != [] ==>
          var n := |inputs| - 1;
          Timely(limits, inputs[..n], turns[..n]) && Prompt(limits, inputs[..n], turns[..n], inputs[n], turns[n]))
  }

  ghost predicate AllTraced(inputs: seq<Input>, turns: seq<Turn>) {
    |turns| == |inputs| && forall p :: Traced(inputs, turns, p)
  }

  function FetchedFrom(inputs: seq<Input>, p: int): seq<Message> {
    if inputs == [] then []
    else
      var last := inputs[|inputs| - 1];
      FetchedFrom(inputs[..|inputs| - 1], p) + if last.Fetch? && last.m.partition == p then [last.m] else []
  }

  /** The messages of all batches handed on, in order. */
  function Flushed(turns: seq<Turn>, p: int): seq<Message> {
    if turns == [] then [] else Flushed(turns[..|turns| - 1], p) + View(turns[|turns| - 1], p).batch
  }

  lemma UsableIsReadable(m: Message)
    ensures Usable(m) ==> m.body.Fields?
  {
  }

  lemma EndsAtLast(b: CounterBatch)
    requires b.Valid()
    ensures b.messages != [] ==> b.endOffset == b.messages[|b.messages| - 1].offset
  {
    hide Usable, EventOf, MemberOf;
  }

  lemma WholeBatch(m: Message, before: seq<Message>, batch: seq<Message>, after: seq<Message>)
    requires batch + after == before + if Usable(m) then [m] else []
    requires Skips(m, before) || Gap(m, before) ==> batch == before
    requires !Skips(m, before) && !Gap(m, before) ==> batch == [] || after == []
    ensures !Skips(m, before) && !Gap(m, before) ==> Usable(m) && (batch == [] || batch == before + [m])
    ensures |batch| <= |before| + 1
    ensures after == (before + if Usable(m) then [m] else [])[|batch|..]
  {
    hide Usable;
    assert (batch + after)[|batch|..] == after;
  }

  /** The batches handed on and the pending one are the usable messages fetched, in order. */
  lemma {:induction false} NothingLost(inputs: seq<Input>, turns: seq<Turn>, p: int)
    requires Traced(inputs, turns, p)
    ensures Flushed(turns, p) + Held(inputs, turns, p) == UsableOf(FetchedFrom(inputs, p))
  {
    hide UsableOf, FetchedFrom, TurnOk, Left, Arrived;
    if inputs == [] {
      NothingFetched(p);
    } else {
      var n := |inputs| - 1;
      NothingLost(inputs[..n], turns[..n], p);
      TurnLosesNothing(inputs[n], p, Held(inputs[..n], turns[..n], p), View(turns[n], p));
      UsableGrows(inputs, p);
      ArrivedBehind(inputs[n], p, Flushed(turns[..n], p), Held(inputs[..n], turns[..n], p));
    }
  }

  lemma TurnLosesNothing(x: Input, p: int, pending: seq<Message>, t: Turn)
    requires TurnOk(x, p, pending, t)
    ensures t.batch + Left(x, p, pending, t) == Arrived(x, p, pending)
  {
    hide Usable;
  }

  lemma ArrivedBehind(x: Input, p: int, done: seq<Message>, pending: seq<Message>)
    ensures Arrived(x, p, done + pending) == done + Arrived(x, p, pending)
  {
    hide Usable;
  }

  lemma NothingFetched(p: int)
    ensures UsableOf(FetchedFrom([], p)) == []
  {
  }

  lemma UsableGrows(inputs: seq<Input>, p: int)
    requires inputs != []
    ensures UsableOf(FetchedFrom(inputs, p))
            == Arrived(inputs[|inputs| - 1], p, UsableOf(FetchedFrom(inputs[..|inputs| - 1], p)))
  {
    hide Usable;
    var fetched := FetchedFrom(inputs[..|inputs| - 1], p);
    var x := inputs[|inputs| - 1];
    if x.Fetch? && x.m.partition == p {
      assert (fetched + [x.m])[..|fetched|] == fetched;
    } else {
      assert fetched + [] == fetched;
    }
  }

  /** What one turn of the loop does to one partition, and what is then pending there. */
  ghost predicate Turned(x: Input, p: int, before: Waiting, t: Turn, after: Waiting) {
    && TurnOk(x, p, before.messages, t) && after.messages == Left(x, p, before.messages, t)
    && (after.messages != [] ==> after.since == OpenedBy(x, p, before.messages, before.since, t))
  }

  /** A turn of the loop extends the trace of every partition. */
  lemma TraceGrows(inputs: seq<Input>, turns: seq<Turn>, x: Input, t: Turn, before: imap<int, Waiting>, after: imap<int, Waiting>)
    requires |turns| == |inputs| && AllTraced(inputs, turns)
    requires forall p :: p in before && AsTraced(inputs, turns, p, before[p])
    requires forall p :: p in after && Turned(x, p, before[p], View(t, p), after[p])
    ensures AllTraced(inputs + [x], turns + [t])
    ensures forall p :: AsTraced(inputs + [x], turns + [t], p, after[p])
  {
    hide OpenedAt, OpenedBy, TurnOk, Left, Held;
    var xs, ts := inputs + [x], turns + [t];
    assert xs[..|inputs|] == inputs && ts[..|inputs|] == turns;
    forall p ensures Traced(xs, ts, p) && AsTraced(xs, ts, p, after[p]) {
      assert Traced(inputs, turns, p) && AsTraced(inputs, turns, p, before[p]) && Turned(x, p, before[p], View(t, p), after[p]);
      HeldGrows(inputs, turns, x, t, p);
      if after[p].messages != [] {
        OpeningTurn(xs, ts, p, before[p].since);
      }
    }
  }

  lemma OfAllTraced(inputs: seq<Input>, turns: seq<Turn>, p: int, w: Waiting)
    requires AllTraced(inputs, turns) && AsTraced(inputs, turns, p, w)
    ensures Traced(inputs, turns, p) && w.messages == Held(inputs, turns, p)
    ensures Flushed(turns, p) + w.messages == UsableOf(FetchedFrom(inputs, p))
  {
    hide Held, Flushed, UsableOf, FetchedFrom;
    assert Traced(inputs, turns, p);
    NothingLost(inputs, turns, p);
  }

  lemma NothingYet(limits: Limits, waiting: imap<int, Waiting>)
    requires forall p :: p in waiting && waiting[p].messages == []
    ensures AllTraced([], []) && Timely(limits, [], []) && forall p :: AsTraced([], [], p, waiting[p])
  {
  }

  lemma HeldGrows(inputs: seq<Input>, turns: seq<Turn>, x: Input, t: Turn, p: int)
    requires |turns| == |inputs|
    ensures Held(inputs + [x], turns + [t], p) == Left(x, p, Held(inputs, turns, p), View(t, p))
  {
    hide Left;
    assert (inputs + [x])[..|inputs|] == inputs && (turns + [t])[..|inputs|] == turns;
  }

  /** What is pending, and since when, is what the trace says. */
  ghost predicate AsTraced(inputs: seq<Input>, turns: seq<Turn>, p: int, w: Waiting)
    requires |turns| == |inputs|
  {
    w.messages == Held(inputs, turns, p) && (w.messages != [] ==> w.since == OpenedAt(inputs, turns, p))
  }

  /** No turn of the loop is late. */
  lemma PromptnessGrows(limits: Limits, inputs: seq<Input>, turns: seq<Turn>, x: Input, t: Turn, before: imap<int, Waiting>)
    requires Timely(limits, inputs, turns)
    requires forall p :: p in before && AsTraced(inputs, turns, p, before[p])
    requires x.Fetch? ==> FullIsHandedOn(x.m, limits.size, before[x.m.partition].messages, t)
    requires x.Tick? ==> (t.batch != [] <==> exists p :: Late(before[p], x.now - limits.interval))
    requires x.Tick? && t.batch != [] ==> Late(before[t.partition], x.now - limits.interval)
    ensures Timely(limits, inputs + [x], turns + [t])
  {
    hide OpenedAt, Held, FullIsHandedOn;
    assert (inputs + [x])[..|inputs|] == inputs && (turns + [t])[..|inputs|] == turns;
    if x.Fetch? {
      assert AsTraced(inputs, turns, x.m.partition, before[x.m.partition]);
    } else {
      forall p ensures Late(before[p], x.now - limits.interval) <==> DueBy(inputs, turns, p, x.now - limits.interval) {
        assert AsTraced(inputs, turns, p, before[p]);
      }
      if AnyDue(inputs, turns, x.now - limits.interval) {
        var p :| DueBy(inputs, turns, p, x.now - limits.interval);
        assert Late(before[p], x.now - limits.interval);
      }
    }
  }

  /** The opening time moves on with the pending batch. */
  lemma OpeningTurn(inputs: seq<Input>, turns: seq<Turn>, p: int, since: int)
    requires |turns| == |inputs| > 0 && Traced(inputs, turns, p) && Held(inputs, turns, p) != []
    requires var n := |inputs| - 1; Held(inputs[..n], turns[..n], p) != [] ==> since == OpenedAt(inputs[..n], turns[..n], p)
    ensures var n := |inputs| - 1;
            OpenedAt(inputs, turns, p) == OpenedBy(inputs[n], p, Held(inputs[..n], turns[..n], p), since, View(turns[n], p))
  {
    hide UsableOf, FetchedFrom, Usable;
    var n := |inputs| - 1;
    NothingLost(inputs[..n], turns[..n], p);
    TimesAlign(inputs[..n], p);
  }

  lemma {:induction false} TimesAlign(inputs: seq<Input>, p: int)
    ensures |TakenAt(inputs, p)| == |UsableOf(FetchedFrom(inputs, p))|
  {
    hide Usable, UsableOf, FetchedFrom;
    if inputs == [] {
      NothingFetched(p);
    } else {
      TimesAlign(inputs[..|inputs| - 1], p);
      UsableGrows(inputs, p);
    }
  }

  // ---- Timer wake-ups drain what is due ----

  /** The partitions of the messages fetched. */
  function PartitionsOf(inputs: seq<Input>): set<int> {
    set x | x in inputs && x.Fetch? :: x.m.partition
  }

  /** The partitions whose pending batch was opened at `deadline` or before. */
  function DuePartitions(inputs: seq<Input>, turns: seq<Turn>, deadline: int): set<int>
    requires |turns| == |inputs|
  {
    set p | p in PartitionsOf(inputs) && DueBy(inputs, turns, p, deadline)
  }

  lemma {:induction false} HeldIsFetched(inputs: seq<Input>, turns: seq<Turn>, p: int)
    requires |turns| == |inputs| && Held(inputs, turns, p) != []
    ensures p in PartitionsOf(inputs)
  {
    hide Usable;
    var n := |inputs| - 1;
    if !(inputs[n].Fetch? && inputs[n].m.partition == p) {
      HeldIsFetched(inputs[..n], turns[..n], p);
    }
  }

  lemma DueIsListed(inputs: seq<Input>, turns: seq<Turn>, deadline: int)
    requires |turns| == |inputs|
    ensures forall p :: DueBy(inputs, turns, p, deadline) <==> p in DuePartitions(inputs, turns, deadline)
  {
    hide Held, OpenedAt, PartitionsOf;
    forall p | DueBy(inputs, turns, p, deadline) ensures p in PartitionsOf(inputs) {
      HeldIsFetched(inputs, turns, p);
    }
  }

  /** A wake-up leaves every other partition as due as it was, and hands on a due batch if there is one. */
  lemma TickTakesOneDue(limits: Limits, inputs: seq<Input>, turns: seq<Turn>, deadline: int)
    requires inputs != [] && inputs[|inputs| - 1].Tick? && Timely(limits, inputs, turns) && AllTraced(inputs, turns)
    ensures var n := |inputs| - 1;
            var before, after := DuePartitions(inputs[..n], turns[..n], deadline), DuePartitions(inputs, turns, deadline);
            if turns[n].batch == [] then after == before else after == before - {turns[n].partition}
  {
    hide Prompt, OpenedAt, Usable, Flushed, TakenAt;
    var n := |inputs| - 1;
    DueIsListed(inputs[..n], turns[..n], deadline);
    DueIsListed(inputs, turns, deadline);
    forall p ensures DueBy(inputs, turns, p, deadline)
                     <==> DueBy(inputs[..n], turns[..n], p, deadline) && (turns[n].batch == [] || p != turns[n].partition) {
      TickOnOne(inputs, turns, p, deadline);
    }
  }

  lemma TickOnOne(inputs: seq<Input>, turns: seq<Turn>, p: int, deadline: int)
    requires inputs != [] && inputs[|inputs| - 1].Tick? && Traced(inputs, turns, p)
    ensures var n := |inputs| - 1;
            DueBy(inputs, turns, p, deadline) <==> DueBy(inputs[..n], turns[..n], p, deadline) && (turns[n].batch == [] || p != turns[n].partition)
  {
    hide Usable, FetchedFrom, UsableOf, OpenedAt;
    var n := |inputs| - 1;
    if Held(inputs, turns, p) != [] {
      OpeningTurn(inputs, turns, p, OpenedAt(inputs[..n], turns[..n], p));
    }
  }

  /**
   Timer wake-ups at times from `now` to `later`: once there have been as many as partitions were
   due at `later`, no batch that was due at `now` is left pending.
   */
  lemma TicksDrain(limits: Limits, inputs: seq<Input>, turns: seq<Turn>, k: nat, now: int, later: int)
    requires Timely(limits, inputs, turns) && AllTraced(inputs, turns) && k <= |inputs| && now <= later
    requires forall i :: |inputs| - k <= i < |inputs| ==> inputs[i].Tick? && now <= inputs[i].now <= later
    requires k >= |DuePartitions(inputs[..|inputs| - k], turns[..|inputs| - k], later - limits.interval)|
    ensures !AnyDue(inputs, turns, now - limits.interval)
  {
    hide DuePartitions, OpenedAt, Timely, Traced, Held, AnyDue;
    TicksCount(limits, inputs, turns, k, now, later);
    DueStaysDue(inputs, turns, now - limits.interval, later - limits.interval);
  }

  lemma DueStaysDue(inputs: seq<Input>, turns: seq<Turn>, sooner: int, later: int)
    requires |turns| == |inputs| && sooner <= later
    ensures AnyDue(inputs, turns, sooner) ==> |DuePartitions(inputs, turns, later)| > 0
  {
    hide DuePartitions, OpenedAt, Held;
    DueIsListed(inputs, turns, later);
    if AnyDue(inputs, turns, sooner) {
      var p :| DueBy(inputs, turns, p, sooner);
      assert DueBy(inputs, turns, p, later);
    }
  }

  lemma {:induction false} TicksCount(limits: Limits, inputs: seq<Input>, turns: seq<Turn>, k: nat, now: int, later: int)
    requires Timely(limits, inputs, turns) && AllTraced(inputs, turns) && k <= |inputs| && now <= later
    requires forall i :: |inputs| - k <= i < |inputs| ==> inputs[i].Tick? && now <= inputs[i].now <= later
    ensures var start := |inputs| - k;
            AnyDue(inputs, turns, now - limits.interval) ==>
              |DuePartitions(inputs, turns, later - limits.interval)| + k
               <= |DuePartitions(inputs[..start], turns[..start], later - limits.interval)|
  {
    hide DuePartitions, OpenedAt, Held, Traced;
    if k == 0 {
      assert inputs[..|inputs|] == inputs && turns[..|inputs|] == turns;
    } else {
      var n := |inputs| - 1;
      TracedBefore(inputs, turns);
      TicksCount(limits, inputs[..n], turns[..n], k - 1, now, later);
      assert inputs[..n][..n - (k - 1)] == inputs[..|inputs| - k] && turns[..n][..n - (k - 1)] == turns[..|inputs| - k];
      OneMoreTick(limits, inputs, turns, now, later);
    }
  }

  lemma TracedBefore(inputs: seq<Input>, turns: seq<Turn>)
    requires inputs != [] && AllTraced(inputs, turns)
    ensures AllTraced(inputs[..|inputs| - 1], turns[..|inputs| - 1])
  {
    hide TurnOk;
    var init, earlier := inputs[..|inputs| - 1], turns[..|inputs| - 1];
    forall p ensures Traced(init, earlier, p) {
      assert Traced(inputs, turns, p);
    }
  }

  lemma OneMoreTick(limits: Limits, inputs: seq<Input>, turns: seq<Turn>, now: int, later: int)
    requires inputs != [] && Timely(limits, inputs, turns) && AllTraced(inputs, turns)
    requires inputs[|inputs| - 1].Tick? && now <= inputs[|inputs| - 1].now <= later
    ensures var n := |inputs| - 1;
            && (AnyDue(inputs, turns, now - limits.interval) ==>
                  AnyDue(inputs[..n], turns[..n], now - limits.interval)
                  && |DuePartitions(inputs, turns, later - limits.interval)|
                     < |DuePartitions(inputs[..n], turns[..n], later - limits.interval)|)
  {
    hide DuePartitions, OpenedAt, Held, Traced;
    var n := |inputs| - 1;
    TickTakesOneDue(limits, inputs, turns, now - limits.interval);
    TickTakesOneDue(limits, inputs, turns, later - limits.interval);
    DueIsListed(inputs[..n], turns[..n], now - limits.interval);
    DueIsListed(inputs, turns, now - limits.interval);
    DueIsListed(inputs[..n], turns[..n], later - limits.interval);
    if AnyDue(inputs, turns, now - limits.interval) {
      var p :| DueBy(inputs, turns, p, now - limits.interval);
      assert p in DuePartitions(inputs[..n], turns[..n], now - limits.interval);
      assert DueBy(inputs[..n], turns[..n], p, inputs[n].now - limits.interval);
    }
  }

  /** The pending batch holds usable messages of its partition at consecutive offsets. */
  lemma {:induction false} HeldIsGapless(inputs: seq<Input>, turns: seq<Turn>, p: int)
    requires Traced(inputs, turns, p)
    ensures Gapless(Held(inputs, turns, p), p)
    ensures inputs != [] ==> Gapless(View(turns[|turns| - 1], p).batch, p)
  {
    hide TurnOk, Left, Gapless;
    if inputs == [] {
      NoneGapless(p);
    } else {
      var n := |inputs| - 1;
      HeldIsGapless(inputs[..n], turns[..n], p);
      TurnKeepsGapless(inputs[n], p, Held(inputs[..n], turns[..n], p), View(turns[n], p));
    }
  }

  lemma NoneGapless(p: int)
    ensures Gapless([], p)
  {
  }

  lemma TurnKeepsGapless(x: Input, p: int, pending: seq<Message>, t: Turn)
    requires TurnOk(x, p, pending, t) && Gapless(pending, p)
    ensures Gapless(t.batch, p) && Gapless(Left(x, p, pending, t), p)
  {
    hide Usable;
  }

  /** Usable messages of one partition at consecutive offsets. */
  ghost predicate Gapless(ms: seq<Message>, p: int) {
    forall i :: 0 <= i < |ms| ==> Usable(ms[i]) && ms[i].partition == p && ms[i].offset == ms[0].offset + i
  }

  // ---- The layout of one batch as script keys and arguments ----

  function MetricOf(e: BatchEvent): string {
    if 0 <= e.index < SCHEMA_LEN then METRIC_NAMES[e.index] else ""
  }

  /** What the script should do with one event: count into its own entity's hash, under its own marker. */
  function Intended(e: BatchEvent): S.Event {
    S.Event(e.offset, Some(SdsKey(e.entityType, e.entityID)), Some(RebuildMarkerKey(e.entityType, e.entityID)), MetricOf(e), e.delta)
  }

  /** Members that parse get a counter key; the index handed out is the place among all members. */
  method CntKeys(members: seq<string>) returns (keys: seq<string>, indexes: map<string, nat>)
    ensures keys == KeysOf(members)
    ensures forall m :: m in indexes <==> m in members && ParseDirtyMember(m).Some?
    ensures forall m :: m in indexes ==> indexes[m] < |members| && members[indexes[m]] == m
  {
    hide ParseDirtyMember;
    keys, indexes := [], map[];
    for i := 0 to |members|
      invariant keys == KeysOf(members[..i])
      invariant forall m :: m in indexes <==> m in members[..i] && ParseDirtyMember(m).Some?
      invariant forall m :: m in indexes ==> indexes[m] < i && members[indexes[m]] == m
    {
      assert members[..i + 1] == members[..i] + [members[i]] && members[..i + 1][..i] == members[..i];
      var parsed := ParseDirtyMember(members[i]);
      if parsed.Some? {
        keys := keys + [SdsKey(parsed.value.0, parsed.value.1)];
        indexes := indexes[members[i] := i];
      }
    }
    assert members[..|members|] == members;
  }

  function KeysOf(members: seq<string>): seq<string> {
    if members == [] then []
    else
      var last := ParseDirtyMember(members[|members| - 1]);
      KeysOf(members[..|members| - 1]) + if last.Some? then [SdsKey(last.value.0, last.value.1)] else []
  }

  /** The rebuild marker that belongs to a counter key. */
  function MarkerOfKey(key: string): string {
    match Decimal.Cut(if |key| >= 4 then key[4..] else "", ':')
    case None => ""
    case Some(parts) => RebuildMarkerKey(parts.0, parts.1)
  }

  lemma {:induction false} KeysAreKeys(members: seq<string>)
    ensures forall k :: k in KeysOf(members) ==> exists m :: m in members && ParseDirtyMember(m).Some? && k == "cnt:" + m
    ensures (forall m :: m in members ==> ParseDirtyMember(m).Some?) ==>
              |KeysOf(members)| == |members| && forall i :: 0 <= i < |members| ==> KeysOf(members)[i] == "cnt:" + members[i]
  {
    hide ParseDirtyMember, SdsKey;
    if members != [] {
      var last := members[|members| - 1];
      KeysAreKeys(members[..|members| - 1]);
      assert members == members[..|members| - 1] + [last];
      if ParseDirtyMember(last).Some? {
        ParsedMemberJoins(last);
      }
      assert last in members;
    }
  }

  lemma MarkerOfMember(member: string)
    requires ParseDirtyMember(member).Some?
    ensures MarkerOfKey("cnt:" + member) == "rebuilding:" + member
  {
    hide Decimal.Cut;
    ParsedMemberJoins(member);
    assert ("cnt:" + member)[4..] == member;
  }

  /** The keys and arguments of one batch. `members` lists its entities once each, in any order. */
  method LayOut(appliedKey: string, events: seq<BatchEvent>, members: seq<string>)
    returns (keys: seq<string>, argv: seq<S.Arg>)
    requires forall e :: e in events ==> MemberOf(e) in members
    ensures IsLayout(keys, argv, events, members) && keys[0] == appliedKey
  {
    hide ParseDirtyMember, Decimal.Cut, MetricOf, MemberOf, KeysOf, MarkerOfKey;
    var cntKeys, indexes := CntKeys(members);
    var rebuildKeys := seq(|cntKeys|, j requires 0 <= j < |cntKeys| => MarkerOfKey(cntKeys[j]));
    keys := [appliedKey] + cntKeys + rebuildKeys;
    argv := [S.Num(|events|), S.Num(|cntKeys|)];
    for i := 0 to |events|
      invariant |argv| == 2 + 4 * i && argv[0] == S.Num(|events|) && argv[1] == S.Num(|cntKeys|)
      invariant forall k :: 0 <= k < i ==> S.ShapedEvent(argv, k) && ArgsOf(argv, k, events[k], members)
    {
      assert events[i] in events;
      var member := MemberOf(events[i]);
      var index := if member in indexes then indexes[member] else 0;
      ghost var before := argv;
      argv := argv + [S.Num(events[i].offset), S.Num(index), S.Text(MetricOf(events[i])), S.Num(events[i].delta)];
      forall k | 0 <= k < i ensures S.ShapedEvent(argv, k) && ArgsOf(argv, k, events[k], members) {
        assert S.ShapedEvent(before, k) && ArgsOf(before, k, events[k], members);
      }
    }
  }

  /** The four arguments of one event: its index is the place of its member, or 0 when that is not parsed. */
  predicate ArgsOf(argv: seq<S.Arg>, i: nat, e: BatchEvent, members: seq<string>) {
    && |argv| >= 6 + 4 * i
    && argv[2 + 4 * i] == S.Num(e.offset) && argv[4 + 4 * i] == S.Text(MetricOf(e)) && argv[5 + 4 * i] == S.Num(e.delta)
    && argv[3 + 4 * i].Num?
    && (if ParseDirtyMember(MemberOf(e)).Some?
        then 0 <= argv[3 + 4 * i].n < |members| && members[argv[3 + 4 * i].n] == MemberOf(e)
        else argv[3 + 4 * i].n == 0)
  }

  /** Every event of the batch is counted into its own hash, under its own marker. */
  ghost predicate LaidOutRight(keys: seq<string>, argv: seq<S.Arg>, events: seq<BatchEvent>)
    requires S.Shaped(argv)
  {
    S.Events(keys, argv) == seq(|events|, i requires 0 <= i < |events| => Intended(events[i]))
  }

  /** What LayOut establishes about its results. */
  ghost predicate IsLayout(keys: seq<string>, argv: seq<S.Arg>, events: seq<BatchEvent>, members: seq<string>) {
    && S.Shaped(argv) && argv[0].n == |events| && argv[1].n == |KeysOf(members)|
    && |keys| == 1 + 2 * |KeysOf(members)|
    && (forall j :: 0 <= j < |KeysOf(members)| ==>
          keys[1 + j] == KeysOf(members)[j] && keys[1 + |KeysOf(members)| + j] == MarkerOfKey(KeysOf(members)[j]))
    && (forall i :: 0 <= i < |events| ==> ArgsOf(argv, i, events[i], members))
  }

  predicate GoodType(e: BatchEvent) {
    e.entityType != "" && e.entityID != "" && e.entityType[0] != ':'
  }

  /** A layout serves every event right exactly when no entity type begins with a colon. */
  lemma LayoutRightIff(keys: seq<string>, argv: seq<S.Arg>, events: seq<BatchEvent>, members: seq<string>)
    requires IsLayout(keys, argv, events, members)
    requires forall e :: e in events ==> e.entityType != "" && e.entityID != ""
    requires forall m :: m in members <==> exists e :: e in events && MemberOf(e) == m
    ensures LaidOutRight(keys, argv, events) <==> forall e :: e in events ==> GoodType(e)
  {
    hide ParseDirtyMember, SdsKey, RebuildMarkerKey, MarkerOfKey, KeysOf, DirtyMember, MetricOf;
    KeysAreKeys(members);
    if forall e :: e in events ==> GoodType(e) {
      forall m | m in members ensures ParseDirtyMember(m).Some? {
        var e :| e in events && MemberOf(e) == m;
        MemberParsesIff(e.entityType, e.entityID);
      }
      forall i | 0 <= i < |events| ensures S.EventAt(keys, argv, i) == Intended(events[i]) {
        assert events[i] in events;
        EventLaidOut(keys, argv, events, members, i);
      }
    } else {
      var e :| e in events && !GoodType(e);
      var i :| 0 <= i < |events| && events[i] == e;
      EventMisplaced(keys, argv, events, members, i);
      assert S.Events(keys, argv)[i] == S.EventAt(keys, argv, i);
    }
  }

  lemma EventLaidOut(keys: seq<string>, argv: seq<S.Arg>, events: seq<BatchEvent>, members: seq<string>, i: nat)
    requires IsLayout(keys, argv, events, members) && i < |events|
    requires forall m :: m in members ==> ParseDirtyMember(m).Some?
    requires MemberOf(events[i]) in members
    ensures S.EventAt(keys, argv, i) == Intended(events[i])
  {
    hide ParseDirtyMember, SdsKey, RebuildMarkerKey, MarkerOfKey, KeysOf, DirtyMember, MetricOf;
    KeysAreKeys(members);
    var e := events[i];
    assert ArgsOf(argv, i, e, members);
    var j := argv[3 + 4 * i].n;
    KeyOfMember(e.entityType, e.entityID);
    MarkerOfMember(members[j]);
  }

  lemma EventMisplaced(keys: seq<string>, argv: seq<S.Arg>, events: seq<BatchEvent>, members: seq<string>, i: nat)
    requires IsLayout(keys, argv, events, members) && i < |events|
    requires events[i].entityType != "" && events[i].entityID != "" && !GoodType(events[i])
    ensures S.EventAt(keys, argv, i) != Intended(events[i])
  {
    hide ParseDirtyMember, SdsKey, RebuildMarkerKey, MarkerOfKey, KeysOf, DirtyMember, MetricOf;
    KeysAreKeys(members);
    var e := events[i];
    assert ArgsOf(argv, i, e, members);
    MemberParsesIff(e.entityType, e.entityID);
    KeyOfMember(e.entityType, e.entityID);
    NoKeyOf(members, MemberOf(e));
    assert |KeysOf(members)| > 0 ==> keys[1 + 0] == KeysOf(members)[0] && KeysOf(members)[0] in KeysOf(members);
  }

  lemma NoKeyOf(members: seq<string>, member: string)
    requires ParseDirtyMember(member).None?
    ensures forall k :: k in KeysOf(members) ==> k != "cnt:" + member
  {
    hide ParseDirtyMember;
    KeysAreKeys(members);
    forall m | ParseDirtyMember(m).Some? ensures "cnt:" + m != "cnt:" + member {
      assert ("cnt:" + m)[4..] == m && ("cnt:" + member)[4..] == member;
    }
  }
}
