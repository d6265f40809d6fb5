/**
 The Redis lock: one key holding the owner's random token under a lease, taken by SET NX PX and
 renewed and released by scripts that compare the token first.
 */
module RedisLock {
  import opened Prelude

  datatype Lease = Lease(token: nat, expires: nat)

  /** The stored token while its lease lasts. */
  function Owner(lock: Option<Lease>, now: nat): Option<nat> {
    if lock.Some? && now < lock.value.expires then Some(lock.value.token) else None
  }

  function SetNX(lock: Option<Lease>, now: nat, token: nat, ttl: nat): Option<Lease> {
    if Owner(lock, now).None? then Some(Lease(token, now + ttl)) else lock
  }

  function Renewed(lock: Option<Lease>, now: nat, token: nat, ttl: nat): Option<Lease> {
    if Owner(lock, now) == Some(token) then Some(Lease(token, now + ttl)) else lock
  }

  function Released(lock: Option<Lease>, now: nat, token: nat): Option<Lease> {
    if Owner(lock, now) == Some(token) then None else lock
  }

  class Lock {
    var now: nat
    var lock: Option<Lease>

    constructor ()
      ensures now == 0 && lock == None
    {
      now, lock := 0, None;
    }

    method TryAcquire(token: nat, ttl: nat) returns (locked: bool)
      modifies this`lock
      ensures locked <==> Owner(old(lock), now).None?
      ensures lock == SetNX(old(lock), now, token, ttl)
    {
      locked := lock.None? || now >= lock.value.expires;
      if locked {
        lock := Some(Lease(token, now + ttl));
      }
    }

    method Renew(token: nat, ttl: nat) returns (renewed: bool)
      modifies this`lock
      ensures renewed <==> Owner(old(lock), now) == Some(token)
      ensures lock == Renewed(old(lock), now, token, ttl)
    {
      renewed := lock.Some? && now < lock.value.expires && lock.value.token == token;
      if renewed {
        lock := Some(Lease(token, now + ttl));
      }
    }

    method Release(token: nat) returns (released: bool)
      modifies this`lock
      ensures released <==> Owner(old(lock), now) == Some(token)
      ensures lock == Released(old(lock), now, token)
    {
      released := lock.Some? && now < lock.value.expires && lock.value.token == token;
      if released {
        lock := None;
      }
    }
  }

  /** No operation of one owner changes whether another one owns the lock, as long as that one's lease lasts. */
  lemma OnlyOwnTokenTouched(lock: Option<Lease>, now: nat, owner: nat, token: nat, ttl: nat)
    requires Owner(lock, now) == Some(owner) && token != owner
    ensures SetNX(lock, now, token, ttl) == Renewed(lock, now, token, ttl) == Released(lock, now, token) == lock
  {
  }

  /** A renewal keeps everybody else out for a full ttl; a release lets the next one in at once. */
  lemma RenewalExtends(lock: Option<Lease>, now: nat, token: nat, ttl: nat, later: nat, other: nat)
    requires Owner(lock, now) == Some(token) && now <= later < now + ttl
    ensures SetNX(Renewed(lock, now, token, ttl), later, other, ttl) == Renewed(lock, now, token, ttl)
    ensures Owner(SetNX(Released(lock, now, token), now, other, ttl), now) == Some(other)
  {
  }
}
