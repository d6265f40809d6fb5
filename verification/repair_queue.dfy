/**
 The queue of entities whose counters need repair: a batch of members is popped, and only some
 of those that could not be repaired are put back.
 */
module RepairQueue {
  import opened Prelude
  import opened Ordered
  import opened CounterKeys

  /** How one repair attempt ends: rebuilt, kept out by another holder of the lock, or failed. */
  datatype Attempt = Rebuilt | LockBusy | Broken

  /** A member that does not parse is dropped without an attempt and without an error. */
  function ErrorOf(member: string, attempt: Attempt): Attempt {
    if ParseDirtyMember(member).None? then Rebuilt else attempt
  }

  class Repairer {
    var dirty: set<string>

    constructor ()
      ensures dirty == {}
    {
      dirty := {};
    }

    /** `popped` is the reply of SPOP: up to `limit` distinct members, all of them while there are fewer. */
    method RepairDirtyMembers(limit: int, popped: seq<string>, attempt: string -> Attempt, addOk: string -> bool)
      returns (failed: bool)
      requires Distinct(popped) && (forall m :: m in popped ==> m in dirty) && |popped| == Max(0, Min(limit, |dirty|))
      modifies this
      ensures dirty == (old(dirty) - Seen(popped)) + PutBack(popped, attempt, addOk)
      ensures failed <==> AnyError(popped, attempt)
    {
      hide ErrorOf, Seen, PutBack, AnyError, Distinct;
      failed := false;
      NoneYet(popped, attempt, addOk);
      dirty := dirty - Seen(popped);
      for i := 0 to |popped|
        invariant dirty == (old(dirty) - Seen(popped)) + PutBack(popped[..i], attempt, addOk)
        invariant failed <==> AnyError(popped[..i], attempt)
      {
        OneMore(popped, i, attempt, addOk);
        var error := ErrorOf(popped[i], attempt(popped[i]));
        if error != Rebuilt {
          if error != LockBusy && addOk(popped[i]) {
            dirty := dirty + {popped[i]};
          }
          failed := true;
        }
      }
      assert popped[..|popped|] == popped;
    }
  }

  function Seen(members: seq<string>): set<string> {
    set m | m in members
  }

  function PutBack(popped: seq<string>, attempt: string -> Attempt, addOk: string -> bool): set<string> {
    set m | m in popped && ErrorOf(m, attempt(m)) == Broken && addOk(m)
  }

  predicate AnyError(popped: seq<string>, attempt: string -> Attempt) {
    exists m :: m in popped && ErrorOf(m, attempt(m)) != Rebuilt
  }

  lemma NoneYet(popped: seq<string>, attempt: string -> Attempt, addOk: string -> bool)
    ensures PutBack(popped[..0], attempt, addOk) == {} && !AnyError(popped[..0], attempt)
  {
  }

  lemma OneMore(popped: seq<string>, i: nat, attempt: string -> Attempt, addOk: string -> bool)
    requires i < |popped|
    ensures var m := popped[i];
            && PutBack(popped[..i + 1], attempt, addOk)
               == PutBack(popped[..i], attempt, addOk) + (if ErrorOf(m, attempt(m)) == Broken && addOk(m) then {m} else {})
            && (AnyError(popped[..i + 1], attempt) <==> AnyError(popped[..i], attempt) || ErrorOf(m, attempt(m)) != Rebuilt)
  {
    hide ErrorOf;
    var m, head := popped[i], popped[..i];
    assert popped[..i + 1] == head + [m];
    assert forall x :: x in popped[..i + 1] <==> x in head || x == m;
  }

  /**
   A popped entity whose counters were not rebuilt leaves the queue for good exactly when another
   repairer held its lock, or when putting it back failed too.
   */
  lemma LostExactlyWhen(dirty: set<string>, popped: seq<string>, attempt: string -> Attempt, addOk: string -> bool, m: string)
    requires m in popped && ErrorOf(m, attempt(m)) != Rebuilt
    ensures m !in (dirty - Seen(popped)) + PutBack(popped, attempt, addOk)
            <==> attempt(m) == LockBusy || !addOk(m)
  {
    hide ParseDirtyMember;
    assert ErrorOf(m, attempt(m)) == attempt(m);
  }
}
