/**
  The in-memory fence: fields updated under one lock. Every method is proved against the
  conditional transactions of RebuildFence, so what holds of every run of those
  transactions holds of this fence too.
 */
module MemFence {
  import opened Basics
  import opened RebuildFence

  const SECOND := 1_000_000_000

  /** A lease in whole seconds, rounded up; below one second it is refused. */
  function LeaseSeconds(nanoseconds: int): (r: Option<int>)
    ensures r.None? <==> nanoseconds < SECOND
    ensures r.Some? ==> r.value >= 1 && (r.value - 1) * SECOND < nanoseconds <= r.value * SECOND
  {
    if nanoseconds < SECOND then None
    else if nanoseconds % SECOND != 0 then Some(nanoseconds / SECOND + 1)
    else Some(nanoseconds / SECOND)
  }

  datatype BeginResult =
    | Begun(lease: Lease, leaseExpiresAt: int)
    | Refused(owner: string, leaseExpiresAt: int)
    | Invalid
    | BadLease

  class Fence {
    var lock: Option<Lock>
    var generation: int
    var forceReleased: bool

    /** The two items this fence stands for; a force-release keeps its item while unsettled. */
    ghost function Rows(): Items
      reads this
    {
      Items(Some(Generation(generation, forceReleased)),
            if lock.Some? then Held(lock.value) else if generation % 2 == 0 then NoItem else ForcedItem)
    }

    ghost predicate Valid()
      reads this
    {
      Inv(Rows())
    }

    constructor ()
      ensures Valid() && Gen(Rows()) == 0 && Rows().lock.NoItem?
    {
      lock, generation, forceReleased := None, 0, false;
    }

    predicate Unsettled()
      reads this
      requires Valid()
      ensures Unsettled() <==> !Holds(CommitTx, Rows())
    {
      lock.Some? || generation % 2 != 0
    }

    predicate HoldsLease(lease: Lease)
      reads this
      ensures HoldsLease(lease) <==> Holder(Rows()) == Some(lease)
    {
      lock.Some? && lock.value.owner == lease.owner && lock.value.generation == lease.generation
    }

    method Begin(owner: string, nanoseconds: int, now: int) returns (r: BeginResult)
      requires Valid()
      modifies this
      ensures Valid() && !r.Invalid?
      ensures r.BadLease? <==> LeaseSeconds(nanoseconds).None?
      ensures r.Begun? || Rows() == old(Rows())
      ensures r.Refused? <==> nanoseconds >= SECOND && old(lock).Some? && now <= old(lock).value.expiry
      ensures r.Refused? ==> r == Refused(old(lock).value.owner, old(lock).value.expiry)
      ensures r.Begun? ==>
                var plan := PlanRebuildBegin(State(ReadGeneration(old(Rows())), ReadLock(old(Rows()))), now);
                && plan.Planned?
                && var tx := BeginTx(plan.plan, owner, r.lease.generation, now, r.leaseExpiresAt);
                && r.leaseExpiresAt == now + LeaseSeconds(nanoseconds).value
                && BeginBuiltAt([old(Rows())], tx, 0, 0)
                && Holds(tx, old(Rows())) && Rows() == Apply(tx, old(Rows()))
                && Holder(Rows()) == Some(r.lease) && r.lease.owner == owner
                && lock == Some(Lock(owner, generation, r.leaseExpiresAt))
                && generation == old(generation) + if old(generation) % 2 == 0 then 1 else 2
    {
      var seconds := LeaseSeconds(nanoseconds);
      if seconds.None? {
        return BadLease;
      }
      match PlanRebuildBegin(State(Generation(generation, forceReleased), lock), now) {
        case StateInvalid => r := Invalid;
        case LockHeld(holder, expiry) => r := Refused(holder, expiry);
        case Planned(plan) =>
          var expiry := now + seconds.value;
          generation := generation + plan.increment;
          lock := Some(Lock(owner, generation, expiry));
          r := Begun(Lease(owner, generation), expiry);
      }
    }

    method Renew(lease: Lease, nanoseconds: int, now: int) returns (ok: bool)
      requires Valid()
      modifies this`lock
      ensures Valid()
      ensures ok <==> LeaseSeconds(nanoseconds).Some? && Holder(old(Rows())) == Some(lease)
      ensures ok ==> Rows() == Apply(RenewTx(lease, now + LeaseSeconds(nanoseconds).value), old(Rows()))
      ensures !ok ==> Rows() == old(Rows())
      ensures ok ==> lock == Some(Lock(lease.owner, lease.generation, now + LeaseSeconds(nanoseconds).value))
    {
      var seconds := LeaseSeconds(nanoseconds);
      ok := seconds.Some? && HoldsLease(lease);
      if ok {
        lock := Some(lock.value.(expiry := now + seconds.value));
      }
    }

    method End(lease: Lease) returns (ok: bool)
      requires Valid()
      modifies this
      ensures Valid()
      ensures ok <==> Holds(EndTx(lease), old(Rows()))
      ensures Rows() == if ok then Apply(EndTx(lease), old(Rows())) else old(Rows())
      ensures ok <==> Holder(old(Rows())) == Some(lease)
      ensures ok ==> lock == None && generation == lease.generation + 1 && !forceReleased
    {
      ok := HoldsLease(lease);
      if ok {
        lock, generation, forceReleased := None, generation + 1, false;
      }
    }

    method ForceRelease(owner: string) returns (ok: bool)
      requires Valid()
      modifies this
      ensures Valid()
      ensures ok <==> Holds(ForceTx(owner, old(generation)), old(Rows()))
      ensures Rows() == if ok then Apply(ForceTx(owner, old(generation)), old(Rows())) else old(Rows())
      ensures ok <==> old(lock).Some? && old(lock).value.owner == owner
      ensures ok ==> lock == None && generation == old(generation) + 2 && forceReleased
    {
      ok := lock.Some? && lock.value.owner == owner;
      if ok {
        lock, generation, forceReleased := None, generation + 2, true;
      }
    }

    /** The guard of one batch of view writes. */
    method WriteViews(lease: Lease, now: int) returns (ok: bool)
      requires Valid()
      ensures ok <==> Holds(WriteTx(lease, now), Rows())
      ensures ok <==> Holder(Rows()) == Some(lease) && now < lock.value.expiry
    {
      ok := HoldsLease(lease) && lock.value.expiry > now;
    }
  }
}
