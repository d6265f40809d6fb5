/**
 Creating a draft under an idempotency key: the requests of one creator with one key interleave
 their single steps against the Redis key and the table of drafts.
 */
module Draft {
  import opened Prelude
  import opened Decimal

  const PENDING_PREFIX := "pending:"

  /** The value a claimant leaves while it inserts. */
  function Marker(token: nat): string {
    PENDING_PREFIX + Format(token)
  }

  /** What a request that lost the claim finds under the key. */
  datatype Reading = Gone | Pending | Fixed(id: nat) | Dirty

  function ReadKey(key: Option<string>): Reading {
    if key.None? then Gone
    else if PENDING_PREFIX <= key.value then Pending
    else match ParseUint(key.value)
         case None => Dirty
         case Some(id) => if id == 0 then Dirty else Fixed(id)
  }

  /** The delete script: only while the value is still this request's marker. */
  function DeletedIfOwn(key: Option<string>, token: nat): Option<string> {
    if key == Some(Marker(token)) then None else key
  }

  datatype Phase =
    | Claiming
    | Looking
    | Cleaning
    | Inserting
    | Undoing
    | Saving(id: nat)
    | Succeeded(id: nat)
    | Failed

  /** Each request has a token of its own from the id generator. */
  datatype Request = Request(token: nat, phase: Phase)

  datatype State = State(key: Option<string>, nextID: nat, drafts: seq<nat>, requests: map<nat, Request>)

  datatype Action =
    | Arrive(request: nat)
    | Claim(request: nat)
    | Look(request: nat)
    | GiveUp(request: nat)
    | DeleteDirty(request: nat)
    | Insert(request: nat, ok: bool)
    | Undo(request: nat, ok: bool)
    | Save(request: nat, ok: bool)
    | Crash(request: nat)
    | Expire

  function Moved(s: State, r: nat, phase: Phase): State
    requires r in s.requests
  {
    s.(requests := s.requests[r := s.requests[r].(phase := phase)])
  }

  /** One atomic step; a step that is not enabled changes nothing. Ids are 64-bit. */
  function Next(s: State, a: Action): State {
    match a
    case Expire => s.(key := None)
    case Arrive(r) =>
      if r in s.requests || s.nextID >= UINT64_LIMIT then s
      else s.(requests := s.requests[r := Request(s.nextID, Claiming)], nextID := s.nextID + 1)
    case _ => if a.request in s.requests then Continued(s, a.request, s.requests[a.request], a) else s
  }

  function Continued(s: State, r: nat, p: Request, a: Action): State
    requires r in s.requests && s.requests[r] == p
  {
    match (a, p.phase)
    case (Claim(_), Claiming) =>
      if s.key.None? then Moved(s, r, Inserting).(key := Some(Marker(p.token))) else Moved(s, r, Looking)
    case (Look(_), Looking) =>
      (match ReadKey(s.key)
       case Gone => Moved(s, r, Claiming)
       case Pending => Moved(s, r, Claiming)
       case Fixed(id) => Moved(s, r, Succeeded(id))
       case Dirty => Moved(s, r, Cleaning))
    case (DeleteDirty(_), Cleaning) => Moved(s, r, Claiming).(key := None)
    case (GiveUp(_), Claiming) => Moved(s, r, Failed)
    case (Insert(_, ok), Inserting) =>
      if ok && s.nextID < UINT64_LIMIT then
        Moved(s, r, Saving(s.nextID)).(drafts := s.drafts + [s.nextID], nextID := s.nextID + 1)
      else Moved(s, r, Undoing)
    case (Undo(_, ok), Undoing) => Moved(s, r, Failed).(key := if ok then DeletedIfOwn(s.key, p.token) else s.key)
    case (Save(_, ok), Saving(id)) => Moved(s, r, Succeeded(id)).(key := if ok then Some(Format(id)) else s.key)
    case (Crash(_), _) => s.(requests := s.requests - {r})
    case _ => s
  }

  function Run(s: State, acts: seq<Action>): State
    decreases |acts|
  {
    if acts == [] then s else Run(Next(s, acts[0]), acts[1..])
  }

  /** Ids start at 1 or later. */
  function Start(firstID: nat): State {
    State(None, firstID + 1, [], map[])
  }

  // ---- What every step before the expiry keeps ----

  predicate Holds(p: Phase) {
    p.Inserting? || p.Undoing? || p.Saving?
  }

  ghost predicate TokensOk(s: State) {
    && s.nextID > 0
    && (forall r :: r in s.requests ==> 0 < s.requests[r].token < s.nextID)
    && (forall r, q :: r in s.requests && q in s.requests && r != q ==> s.requests[r].token != s.requests[q].token)
  }

  /** The key holds the only draft's id or some marker, and who inserts, undoes or saves has its own marker there. */
  ghost predicate KeyOk(s: State) {
    && (s.key.Some? ==> PENDING_PREFIX <= s.key.value || (s.drafts != [] && s.key.value == Format(s.drafts[0])))
    && (forall r :: r in s.requests && Holds(s.requests[r].phase) ==> s.key == Some(Marker(s.requests[r].token)))
  }

  ghost predicate PhaseOk(s: State, p: Phase) {
    match p
    case Cleaning => false
    case Inserting => s.drafts == []
    case Undoing => s.drafts == []
    case Saving(id) => s.drafts == [id]
    case Succeeded(id) => s.drafts == [id]
    case _ => true
  }

  ghost predicate DraftsOk(s: State) {
    && |s.drafts| <= 1
    && (s.drafts != [] ==> 0 < s.drafts[0] < s.nextID && s.drafts[0] < UINT64_LIMIT && s.key.Some?)
    && (forall r :: r in s.requests ==> PhaseOk(s, s.requests[r].phase))
  }

  ghost predicate Inv(s: State) {
    TokensOk(s) && KeyOk(s) && DraftsOk(s)
  }

  lemma MarkersTellTokensApart(a: nat, b: nat)
    requires Marker(a) == Marker(b)
    ensures a == b
  {
    hide Format;
    assert Marker(a)[|PENDING_PREFIX|..] == Format(a) && Marker(b)[|PENDING_PREFIX|..] == Format(b);
    FormatInjective(a, b);
  }

  lemma FixedIsRead(id: nat)
    requires 0 < id < UINT64_LIMIT
    ensures ReadKey(Some(Format(id))) == Fixed(id)
  {
    hide ParseUint;
    ParseUintFormat(id);
    assert AllDigits(Format(id)) && !IsDigit(PENDING_PREFIX[0]);
  }

  lemma HolderIsAlone(s: State, r: nat, q: nat)
    requires TokensOk(s) && KeyOk(s)
    requires r in s.requests && q in s.requests && Holds(s.requests[r].phase) && Holds(s.requests[q].phase)
    ensures r == q
  {
    hide Marker;
    MarkersTellTokensApart(s.requests[r].token, s.requests[q].token);
  }

  lemma StepKeepsTokens(s: State, a: Action)
    requires TokensOk(s)
    ensures TokensOk(Next(s, a))
  {
    hide Marker, ReadKey, DeletedIfOwn, Format;
  }

  lemma ArriveKeepsInv(s: State, r: nat)
    requires Inv(s)
    ensures KeyOk(Next(s, Arrive(r))) && DraftsOk(Next(s, Arrive(r)))
  {
    hide Marker, Format;
    var t := Next(s, Arrive(r));
    forall q | q in t.requests ensures PhaseOk(t, t.requests[q].phase) {
      assert q in s.requests ==> PhaseOk(s, s.requests[q].phase);
    }
  }

  /** A step after which the request holds nothing, and which leaves the key and the drafts as they were. */
  lemma QuietStepKeepsInv(s: State, t: State, r: nat)
    requires Inv(s) && r in s.requests && t.key == s.key && t.drafts == s.drafts && t.nextID == s.nextID
    requires forall q :: q != r ==> (q in t.requests <==> q in s.requests) && (q in t.requests ==> t.requests[q] == s.requests[q])
    requires r in t.requests ==> PhaseOk(s, t.requests[r].phase) && t.requests[r].token == s.requests[r].token
    requires r in t.requests && Holds(t.requests[r].phase) ==> Holds(s.requests[r].phase)
    ensures KeyOk(t) && DraftsOk(t)
  {
    hide Marker, Format;
    forall q | q in t.requests ensures PhaseOk(t, t.requests[q].phase) {
      assert q in s.requests && PhaseOk(s, s.requests[q].phase);
    }
  }

  lemma ClaimKeepsInv(s: State, r: nat)
    requires Inv(s) && r in s.requests && s.requests[r].phase.Claiming? && s.key.None?
    ensures KeyOk(Next(s, Claim(r))) && DraftsOk(Next(s, Claim(r)))
  {
    hide Format;
    var t := Next(s, Claim(r));
    forall q | q in t.requests ensures PhaseOk(t, t.requests[q].phase) {
      assert q in s.requests && PhaseOk(s, s.requests[q].phase);
    }
  }

  /** Whoever looks at the key finds a marker or the id of the only draft, never a dirty value. */
  lemma LookFindsTheDraft(s: State)
    requires KeyOk(s) && DraftsOk(s)
    ensures !ReadKey(s.key).Dirty?
    ensures ReadKey(s.key).Fixed? ==> s.drafts == [ReadKey(s.key).id]
  {
    hide Format, ParseUint;
    if s.key.Some? && !(PENDING_PREFIX <= s.key.value) {
      FixedIsRead(s.drafts[0]);
    }
  }

  lemma InsertKeepsInv(s: State, r: nat)
    requires Inv(s) && r in s.requests && s.requests[r].phase.Inserting? && s.nextID < UINT64_LIMIT
    ensures KeyOk(Next(s, Insert(r, true))) && DraftsOk(Next(s, Insert(r, true)))
  {
    hide Format, Marker, ReadKey;
    var t := Next(s, Insert(r, true));
    assert PhaseOk(s, s.requests[r].phase);
    assert s.key == Some(Marker(s.requests[r].token));
    MarkerIsPending(s.requests[r].token);
    forall q | q in t.requests ensures PhaseOk(t, t.requests[q].phase) {
      assert q in s.requests && PhaseOk(s, s.requests[q].phase);
      if Holds(s.requests[q].phase) {
        HolderIsAlone(s, r, q);
      }
    }
  }

  lemma MarkerIsPending(token: nat)
    ensures PENDING_PREFIX <= Marker(token)
  {
  }

  lemma UndoKeepsInv(s: State, r: nat)
    requires Inv(s) && r in s.requests && s.requests[r].phase.Undoing?
    ensures KeyOk(Next(s, Undo(r, true))) && DraftsOk(Next(s, Undo(r, true)))
  {
    hide Format, Marker, ReadKey;
    var t := Next(s, Undo(r, true));
    assert PhaseOk(s, s.requests[r].phase);
    forall q | q in t.requests ensures PhaseOk(t, t.requests[q].phase) && !Holds(t.requests[q].phase) {
      assert q in s.requests && PhaseOk(s, s.requests[q].phase);
      if Holds(s.requests[q].phase) {
        HolderIsAlone(s, r, q);
      }
    }
  }

  lemma SaveKeepsInv(s: State, r: nat)
    requires Inv(s) && r in s.requests && s.requests[r].phase.Saving?
    ensures KeyOk(Next(s, Save(r, true))) && DraftsOk(Next(s, Save(r, true)))
  {
    hide Format, Marker, ReadKey;
    var t := Next(s, Save(r, true));
    assert PhaseOk(s, s.requests[r].phase);
    forall q | q in t.requests ensures PhaseOk(t, t.requests[q].phase) && !Holds(t.requests[q].phase) {
      assert q in s.requests && PhaseOk(s, s.requests[q].phase);
      if Holds(s.requests[q].phase) {
        HolderIsAlone(s, r, q);
      }
    }
  }

  lemma StepKeepsInv(s: State, a: Action)
    requires Inv(s) && a != Expire
    ensures Inv(Next(s, a))
  {
    hide Marker, Format, ReadKey, DeletedIfOwn, KeyOk, TokensOk;
    StepKeepsTokens(s, a);
    var r := a.request;
    if a.Arrive? {
      ArriveKeepsInv(s, r);
    } else if r in s.requests {
      var p := s.requests[r].phase;
      assert PhaseOk(s, p);
      if a.Claim? && p.Claiming? && s.key.None? {
        ClaimKeepsInv(s, r);
      } else if a.Insert? && p.Inserting? && a.ok && s.nextID < UINT64_LIMIT {
        InsertKeepsInv(s, r);
      } else if a.Undo? && p.Undoing? && a.ok {
        UndoKeepsInv(s, r);
      } else if a.Save? && p.Saving? && a.ok {
        SaveKeepsInv(s, r);
      } else {
        LookFindsTheDraft(s);
        QuietStepKeepsInv(s, Next(s, a), r);
      }
    }
  }

  lemma {:induction false} RunKeepsInv(s: State, acts: seq<Action>)
    requires Inv(s) && Expire !in acts
    ensures Inv(Run(s, acts))
    decreases |acts|
  {
    hide Next, Inv;
    if acts != [] {
      StepKeepsInv(s, acts[0]);
      RunKeepsInv(Next(s, acts[0]), acts[1..]);
    }
  }

  /**
   Until the key expires, however the requests interleave, fail and crash: at most one draft is
   inserted, every request that succeeds answers with its id, and none meets a dirty value.
   */
  lemma OneDraftPerKey(firstID: nat, acts: seq<Action>, r: nat)
    requires Expire !in acts
    ensures var s := Run(Start(firstID), acts);
            && |s.drafts| <= 1
            && (r in s.requests && s.requests[r].phase.Succeeded? ==> s.drafts == [s.requests[r].phase.id])
            && (r in s.requests ==> !s.requests[r].phase.Cleaning?)
  {
    hide Run;
    RunKeepsInv(Start(firstID), acts);
    var s := Run(Start(firstID), acts);
    assert r in s.requests ==> PhaseOk(s, s.requests[r].phase);
  }

  // ---- What a repeated request is answered ----

  lemma {:induction false} RunConcat(s: State, first: seq<Action>, rest: seq<Action>)
    ensures Run(s, first + rest) == Run(Run(s, first), rest)
    decreases |first|
  {
    hide Next;
    if first == [] {
      assert first + rest == rest;
    } else {
      assert (first + rest)[1..] == first[1..] + rest;
      RunConcat(Next(s, first[0]), first[1..], rest);
    }
  }

  lemma IdIsNoMarker(id: nat, token: nat)
    ensures Format(id) != Marker(token) && !(PENDING_PREFIX <= Format(id))
  {
    assert AllDigits(Format(id)) && !IsDigit(PENDING_PREFIX[0]) && !IsDigit(Marker(token)[0]);
  }

  /** The key holds the id of the only draft. */
  ghost predicate Settled(s: State, id: nat) {
    s.key == Some(Format(id)) && s.drafts == [id]
  }

  lemma SettledStays(s: State, a: Action, id: nat)
    requires Inv(s) && Settled(s, id) && a != Expire
    ensures Settled(Next(s, a), id)
  {
    hide Format, Marker, ReadKey;
    if !a.Arrive? && a.request in s.requests {
      var p := s.requests[a.request];
      IdIsNoMarker(id, p.token);
      assert !Holds(p.phase) && PhaseOk(s, p.phase);
    }
  }

  lemma {:induction false} SettledForGood(s: State, acts: seq<Action>, id: nat)
    requires Inv(s) && Settled(s, id) && Expire !in acts
    ensures Inv(Run(s, acts)) && Settled(Run(s, acts), id)
    decreases |acts|
  {
    hide Inv, Settled, Next;
    if acts != [] {
      StepKeepsInv(s, acts[0]);
      SettledStays(s, acts[0], id);
      SettledForGood(Next(s, acts[0]), acts[1..], id);
    }
  }

  lemma SettledAnswers(s: State, q: nat, id: nat)
    requires Inv(s) && Settled(s, id) && q in s.requests
    ensures ReadKey(s.key) == Fixed(id)
    ensures s.requests[q].phase.Looking? ==>
              q in Next(s, Look(q)).requests && Next(s, Look(q)).requests[q].phase == Succeeded(id)
    ensures s.requests[q].phase.Claiming? ==>
              q in Run(s, [Claim(q), Look(q)]).requests && Run(s, [Claim(q), Look(q)]).requests[q].phase == Succeeded(id)
  {
    hide Format, Marker, ReadKey;
    FixedIsRead(id);
    assert [Claim(q)] + [Look(q)] == [Claim(q), Look(q)];
    RunConcat(s, [Claim(q)], [Look(q)]);
    OneStepRun(s, Claim(q));
    OneStepRun(Next(s, Claim(q)), Look(q));
  }

  /**
   A saved id is the answer for as long as the key lives: whatever the requests do before and
   after, the key reads as the one draft's id, every request that looks succeeds with it, and so
   does every request that has still to try its claim.
   */
  lemma SavedIsAnswered(firstID: nat, before: seq<Action>, r: nat, after: seq<Action>, q: nat)
    requires Expire !in before && Expire !in after
    requires var s := Run(Start(firstID), before); r in s.requests && s.requests[r].phase.Saving?
    ensures var id, acts := Run(Start(firstID), before).requests[r].phase.id, before + [Save(r, true)] + after;
            var t := Run(Start(firstID), acts);
            && ReadKey(t.key) == Fixed(id) && t.drafts == [id]
            && (q in t.requests && t.requests[q].phase.Looking? ==>
                  var u := Next(t, Look(q)); q in u.requests && u.requests[q].phase == Succeeded(id))
            && (q in t.requests && t.requests[q].phase.Claiming? ==>
                  var u := Run(t, [Claim(q), Look(q)]); q in u.requests && u.requests[q].phase == Succeeded(id))
  {
    hide Inv, Next, Run, ReadKey, Settled, Start;
    var s := Run(Start(firstID), before);
    var id := s.requests[r].phase.id;
    StartInv(firstID);
    RunKeepsInv(Start(firstID), before);
    SaveSettles(s, r, id);
    OneStepRun(s, Save(r, true));
    RunConcat(Start(firstID), before, [Save(r, true)]);
    RunConcat(Start(firstID), before + [Save(r, true)], after);
    SettledForGood(Next(s, Save(r, true)), after, id);
    var t := Run(Next(s, Save(r, true)), after);
    SettledReads(t, id);
    if q in t.requests {
      SettledAnswers(t, q, id);
    }
  }

  lemma StartInv(firstID: nat)
    ensures Inv(Start(firstID))
  {
  }

  lemma OneStepRun(s: State, a: Action)
    ensures Run(s, [a]) == Next(s, a)
  {
    hide Next;
    assert [a][1..] == [] && Run(Next(s, a), []) == Next(s, a);
  }

  lemma SettledReads(s: State, id: nat)
    requires Inv(s) && Settled(s, id)
    ensures ReadKey(s.key) == Fixed(id) && s.drafts == [id]
  {
    FixedIsRead(id);
  }

  lemma SaveSettles(s: State, r: nat, id: nat)
    requires Inv(s) && r in s.requests && s.requests[r].phase == Saving(id)
    ensures Inv(Next(s, Save(r, true))) && Settled(Next(s, Save(r, true)), id)
  {
    hide Format, Marker, ReadKey;
    StepKeepsInv(s, Save(r, true));
    assert PhaseOk(s, s.requests[r].phase);
  }

  /** A request whose draft is inserted answers with it, whether or not its id could be stored. */
  lemma InserterAnswers(s: State, r: nat, ok: bool)
    requires r in s.requests && s.requests[r].phase.Saving?
    ensures var t := Next(s, Save(r, ok)); r in t.requests && t.requests[r].phase == Succeeded(s.requests[r].phase.id)
  {
  }

  /** A free key: the next request to claim it inserts, and if all goes well answers with the new draft, whose id is stored. */
  lemma FreeKeyIsClaimed(s: State, r: nat)
    requires s.key == None && r in s.requests && s.requests[r].phase.Claiming?
    ensures var t := Next(s, Claim(r)); r in t.requests && t.requests[r].phase.Inserting?
    ensures s.nextID < UINT64_LIMIT ==>
              var t := Next(Next(Next(s, Claim(r)), Insert(r, true)), Save(r, true));
              && r in t.requests && t.requests[r].phase == Succeeded(s.nextID)
              && t.drafts == s.drafts + [s.nextID] && t.key == Some(Format(s.nextID))
  {
    hide Format, Marker, ReadKey;
  }

  lemma {:induction false} FreeUntilClaimed(s: State, acts: seq<Action>)
    requires Inv(s) && s.key == None && forall a :: a in acts ==> !a.Claim?
    ensures Run(s, acts).key == None && Inv(Run(s, acts))
    decreases |acts|
  {
    hide Inv, Next;
    if acts != [] {
      StaysFree(s, acts[0]);
      FreeUntilClaimed(Next(s, acts[0]), acts[1..]);
    }
  }

  lemma StaysFree(s: State, a: Action)
    requires Inv(s) && s.key == None && !a.Claim?
    ensures Inv(Next(s, a)) && Next(s, a).key == None
  {
    hide Format, Marker, ReadKey, KeyOk, TokensOk, DraftsOk;
    if a == Expire {
      FreeAnyway(s);
      assert Next(s, a) == s;
    } else {
      StepKeepsInv(s, a);
      FreeAnyway(s);
    }
  }

  lemma FreeAnyway(s: State)
    requires Inv(s) && s.key == None
    ensures forall r :: r in s.requests ==> !Holds(s.requests[r].phase)
  {
    hide Marker;
  }

  /** After a failed insert is undone the key is free, and the next request to claim it inserts. */
  lemma UndoneIsFree(firstID: nat, before: seq<Action>, r: nat, after: seq<Action>, q: nat)
    requires Expire !in before && forall a :: a in after ==> !a.Claim?
    requires var s := Run(Start(firstID), before); r in s.requests && s.requests[r].phase.Undoing?
    ensures var t := Run(Start(firstID), before + [Undo(r, true)] + after);
            && t.key == None && t.drafts == []
            && (q in t.requests && t.requests[q].phase.Claiming? ==>
                  q in Next(t, Claim(q)).requests && Next(t, Claim(q)).requests[q].phase.Inserting?)
  {
    hide Inv, Next, Run, Start;
    var s := Run(Start(firstID), before);
    StartInv(firstID);
    RunKeepsInv(Start(firstID), before);
    UndoFrees(s, r);
    OneStepRun(s, Undo(r, true));
    RunConcat(Start(firstID), before, [Undo(r, true)]);
    RunConcat(Start(firstID), before + [Undo(r, true)], after);
    FreeUntilClaimed(Next(s, Undo(r, true)), after);
    var t := Run(Next(s, Undo(r, true)), after);
    FreeHasNoDraft(t);
    if q in t.requests && t.requests[q].phase.Claiming? {
      FreeKeyIsClaimed(t, q);
    }
  }

  lemma UndoFrees(s: State, r: nat)
    requires Inv(s) && r in s.requests && s.requests[r].phase.Undoing?
    ensures Inv(Next(s, Undo(r, true))) && Next(s, Undo(r, true)).key == None
  {
    hide Format, Marker, ReadKey;
    StepKeepsInv(s, Undo(r, true));
  }

  lemma FreeHasNoDraft(s: State)
    requires Inv(s) && s.key == None
    ensures s.drafts == []
  {
    hide Marker, Format;
  }

  /** Should the key hold a dirty value after all, the request that finds it deletes it, and the next claim inserts. */
  lemma DirtyKeyIsReclaimed(s: State, r: nat, q: nat)
    requires ReadKey(s.key).Dirty? && r in s.requests && s.requests[r].phase.Looking?
    requires q in s.requests && (q == r || s.requests[q].phase.Claiming?)
    ensures var t := Next(Next(Next(s, Look(r)), DeleteDirty(r)), Claim(q));
            q in t.requests && t.requests[q].phase.Inserting?
  {
    hide Format, Marker, ReadKey;
    var looked := Next(s, Look(r));
    assert looked.requests == s.requests[r := s.requests[r].(phase := Cleaning)];
    var deleted := Next(looked, DeleteDirty(r));
    assert deleted.key == None && deleted.requests == s.requests[r := s.requests[r].(phase := Claiming)];
  }

  /** The key holds a marker that no request is working under: its request crashed, or could not store its id. */
  ghost predicate Orphaned(s: State, token: nat) {
    && s.key == Some(Marker(token)) && 0 < token < s.nextID
    && forall r :: r in s.requests && Holds(s.requests[r].phase) ==> s.requests[r].token != token
  }

  lemma OrphanStays(s: State, a: Action, token: nat)
    requires Inv(s) && Orphaned(s, token) && a != Expire
    ensures Orphaned(Next(s, a), token) && Next(s, a).drafts == s.drafts && ReadKey(s.key).Pending?
  {
    hide Format;
    if !a.Arrive? && a.request in s.requests {
      var p := s.requests[a.request];
      assert PhaseOk(s, p.phase);
      if p.token != token && Marker(p.token) == Marker(token) {
        MarkersTellTokensApart(p.token, token);
      }
      assert !Holds(p.phase);
    }
  }

  /** An orphaned marker blocks the key until it expires: nothing is inserted, and whoever looks has to try again. */
  lemma {:induction false} OrphanBlocks(s: State, acts: seq<Action>, token: nat)
    requires Inv(s) && Orphaned(s, token) && Expire !in acts
    ensures Orphaned(Run(s, acts), token) && Run(s, acts).drafts == s.drafts && ReadKey(Run(s, acts).key).Pending?
    decreases |acts|
  {
    hide Inv, Next, Orphaned, ReadKey;
    if acts == [] {
      OrphanIsPending(s, token);
    } else {
      StepKeepsInv(s, acts[0]);
      OrphanStays(s, acts[0], token);
      OrphanBlocks(Next(s, acts[0]), acts[1..], token);
    }
  }

  lemma OrphanIsPending(s: State, token: nat)
    requires Orphaned(s, token)
    ensures ReadKey(s.key).Pending?
  {
  }

  /** How a marker is orphaned: a holder crashes, cannot undo its failed insert, or cannot store its id. */
  lemma OrphanedBy(s: State, a: Action, r: nat)
    requires Inv(s) && r in s.requests && Holds(s.requests[r].phase)
    requires || a == Crash(r)
             || (s.requests[r].phase.Undoing? && a == Undo(r, false))
             || (s.requests[r].phase.Saving? && a == Save(r, false))
    ensures Orphaned(Next(s, a), s.requests[r].token)
  {
    hide Format, Marker, ReadKey;
    var t := Next(s, a);
    forall q | q in t.requests && Holds(t.requests[q].phase) ensures t.requests[q].token != s.requests[r].token {
      assert q in s.requests && q != r;
    }
  }

  /** Undoing a failed insert removes the request's own marker and never an id or another's marker. */
  lemma UndoTouchesOnlyOwnMarker(key: Option<string>, token: nat)
    ensures DeletedIfOwn(key, token) != key <==> key == Some("pending:" + Format(token))
    ensures forall other :: other != token && key == Some(Marker(other)) ==> DeletedIfOwn(key, token) == key
    ensures forall id :: key == Some(Format(id)) ==> DeletedIfOwn(key, token) == key
  {
    forall other | other != token && key == Some(Marker(other)) ensures DeletedIfOwn(key, token) == key {
      if Marker(other) == Marker(token) {
        MarkersTellTokensApart(other, token);
      }
    }
    forall id | key == Some(Format(id)) ensures DeletedIfOwn(key, token) == key {
      assert AllDigits(Format(id)) && !IsDigit(Marker(token)[0]);
    }
  }

  /** After the expiry, a second request inserts a second draft while the first is still inserting. */
  lemma ExpiryAllowsASecondDraft(s: State)
    requires s.key == None && s.drafts == [] && 10 <= s.nextID < 100
    requires s.requests == map[1 := Request(1, Claiming), 2 := Request(2, Claiming)]
    ensures var t := Next(Next(Next(Next(Next(s, Claim(1)), Expire), Claim(2)), Insert(1, true)), Insert(2, true));
            t.drafts == [s.nextID, s.nextID + 1]
  {
    hide Format, Marker;
    var t := Next(Next(Next(s, Claim(1)), Expire), Claim(2));
    assert t.requests == map[1 := Request(1, Inserting), 2 := Request(2, Inserting)];
  }
}
