/**
  The rebuild fence: a lock item and a generation item, changed only by conditional
  transactions.

  `Holds` and `Apply` are the conditions and updates of those transactions. A run is the
  sequence of transactions that landed. A transaction is built from earlier reads and may
  land at any later point of the run, or never, so a begin that timed out, a duplicated
  request and any number of workers are all covered. Clocks are arguments of the
  transactions and are not assumed to agree or to advance.
 */
module RebuildFence {
  import opened Basics

  datatype Generation = Generation(value: int, forceReleased: bool) {
    predicate Settled() { value % 2 == 0 }
  }

  datatype Lock = Lock(owner: string, generation: int, expiry: int) {
    predicate Expired(now: int) { expiry < now }
  }

  datatype Lease = Lease(owner: string, generation: int)

  /** The generation and the lock row, read in that order; the two reads are not one snapshot. */
  datatype State = State(generation: Generation, lock: Option<Lock>)

  datatype PlanKind = Acquire | AcquireForceReleased | Takeover

  datatype Plan = Plan(kind: PlanKind, increment: int, seenEven: int, seenOdd: int, observedOwner: string)

  datatype PlanResult = Planned(plan: Plan) | LockHeld(owner: string, expiry: int) | StateInvalid

  const NO_MATCH := -1

  function PlanRebuildBegin(state: State, now: int): PlanResult
  {
    var g := state.generation;
    match state.lock
    case None =>
      if g.Settled() then Planned(Plan(Acquire, 1, g.value, NO_MATCH, ""))
      else if g.forceReleased then Planned(Plan(AcquireForceReleased, 2, NO_MATCH, g.value, ""))
      else StateInvalid
    case Some(lock) =>
      if g.Settled() then StateInvalid
      else if !lock.Expired(now) then LockHeld(lock.owner, lock.expiry)
      else Planned(Plan(Takeover, 2, NO_MATCH, g.value, lock.owner))
  }

  function IsLease(lock: Option<Lock>, lease: Lease): bool
  {
    lock.Some? && lock.value.owner == lease.owner && lock.value.generation == lease.generation
  }

  /** (held, settled) for a begin whose result is unknown. */
  function HoldsBegun(state: State, lease: Lease, observed: int): (bool, bool)
  {
    if IsLease(state.lock, lease) then (true, true)
    else (false, state.generation.value != observed)
  }

  // ----- The two items and the transactions over them

  datatype LockItem = NoItem | ForcedItem | Held(lock: Lock)

  datatype Items = Items(gen: Option<Generation>, lock: LockItem)

  const EMPTY := Items(None, NoItem)

  function ReadGeneration(f: Items): Generation
  {
    if f.gen.None? then Generation(0, false) else f.gen.value
  }

  function Gen(f: Items): int { ReadGeneration(f).value }

  function ReadLock(f: Items): Option<Lock>
  {
    if f.lock.Held? then Some(f.lock.lock) else None
  }

  datatype Tx =
    | BeginTx(plan: Plan, owner: string, generation: int, now: int, expiry: int)
    | RenewTx(lease: Lease, expiry: int)
    | EndTx(lease: Lease)
    | ForceTx(requested: string, seen: int)
    | WriteTx(lease: Lease, now: int)
    | CommitTx

  predicate HasValue(f: Items, value: int)
  {
    f.gen.Some? && f.gen.value.value == value
  }

  /** The condition expressions of each transaction. */
  predicate Holds(tx: Tx, f: Items)
  {
    match tx
    case BeginTx(plan, _, _, now, _) =>
      if plan.kind.Takeover? then
        && f.lock.Held? && f.lock.lock.Expired(now) && f.lock.lock.owner == plan.observedOwner
        && HasValue(f, plan.seenOdd)
      else
        && !f.lock.Held?
        && (f.gen.None? || HasValue(f, plan.seenEven)
            || (HasValue(f, plan.seenOdd) && f.gen.value.forceReleased))
    case RenewTx(lease, _) => IsLease(ReadLock(f), lease)
    case EndTx(lease) => IsLease(ReadLock(f), lease) && HasValue(f, lease.generation)
    case ForceTx(owner, seen) => f.lock.Held? && f.lock.lock.owner == owner && HasValue(f, seen)
    case WriteTx(lease, now) => IsLease(ReadLock(f), lease) && f.lock.lock.expiry > now
    case CommitTx => f.lock.NoItem?
  }

  /** The update expressions of each transaction. */
  function Apply(tx: Tx, f: Items): Items
    requires Holds(tx, f)
  {
    var g := ReadGeneration(f);
    match tx
    case BeginTx(plan, owner, generation, _, expiry) =>
      Items(Some(g.(value := g.value + plan.increment)), Held(Lock(owner, generation, expiry)))
    case RenewTx(_, expiry) => f.(lock := Held(f.lock.lock.(expiry := expiry)))
    case EndTx(_) => Items(Some(Generation(g.value + 1, false)), NoItem)
    case ForceTx(_, _) => Items(Some(Generation(g.value + 2, true)), ForcedItem)
    case WriteTx(_, _) => f
    case CommitTx => f
  }

  // ----- Runs

  datatype Run = Run(states: seq<Items>, txs: seq<Tx>)

  /** A begin is built from a generation read at `g` and a lock read at `l`, in that order. */
  predicate BeginBuiltAt(states: seq<Items>, tx: Tx, g: nat, l: nat)
  {
    && tx.BeginTx? && g <= l < |states|
    && PlanRebuildBegin(State(ReadGeneration(states[g]), ReadLock(states[l])), tx.now) == Planned(tx.plan)
    && tx.generation == Gen(states[g]) + tx.plan.increment
  }

  /** What a client knew when it sent the transaction: leases are whatever it presents. */
  ghost predicate Built(states: seq<Items>, tx: Tx)
  {
    match tx
    case BeginTx(_, _, _, _, _) => exists g: nat, l: nat :: BeginBuiltAt(states, tx, g, l)
    case ForceTx(_, seen) =>
      exists g: nat | g < |states| :: Gen(states[g]) == seen && !ReadGeneration(states[g]).Settled()
    case _ => true
  }

  ghost predicate ValidRun(r: Run)
  {
    && |r.states| == |r.txs| + 1
    && r.states[0] == EMPTY
    && forall i | 0 <= i < |r.txs| :: ValidStep(r, i)
  }

  ghost predicate ValidStep(r: Run, i: nat)
    requires i < |r.txs| && |r.states| == |r.txs| + 1
  {
    && Built(r.states[..i + 1], r.txs[i])
    && Holds(r.txs[i], r.states[i])
    && r.states[i + 1] == Apply(r.txs[i], r.states[i])
  }

  /** What every reachable pair of items satisfies. */
  predicate Inv(f: Items)
  {
    var g := ReadGeneration(f);
    && g.value >= 0
    && (f.gen.None? ==> f.lock.NoItem?)
    && match f.lock
       case NoItem => g.Settled() && !g.forceReleased
       case ForcedItem => !g.Settled() && g.forceReleased
       case Held(lock) => !g.Settled() && lock.generation == g.value
  }

  /** A begin that lands was planned on the generation it finds, so its lease names the new one. */
  lemma {:induction false} BeginLandsOnObserved(states: seq<Items>, tx: Tx, g: nat, l: nat, f: Items)
    requires BeginBuiltAt(states, tx, g, l)
    requires forall s | s in states :: Inv(s) && Gen(s) <= Gen(f)
    requires Inv(f) && Holds(tx, f)
    ensures Gen(states[g]) == Gen(f)
    ensures tx.generation == Gen(f) + tx.plan.increment
    ensures tx.plan.increment == if ReadGeneration(f).Settled() then 1 else 2
    ensures Inv(Apply(tx, f)) && Gen(Apply(tx, f)) == tx.generation > Gen(f)
  {
    assert states[g] in states;
    assert Inv(states[g]);
  }

  /** The invariant over every run, and the generation never decreases. */
  lemma {:induction false} RunInvariant(r: Run, n: nat)
    requires ValidRun(r) && n < |r.states|
    ensures forall i | 0 <= i <= n :: Inv(r.states[i])
    ensures forall i, j | 0 <= i <= j <= n :: Gen(r.states[i]) <= Gen(r.states[j])
  {
    if n > 0 {
      RunInvariant(r, n - 1);
      StepInvariant(r, n - 1);
    }
  }

  lemma {:induction false} StepInvariant(r: Run, i: nat)
    requires ValidRun(r) && i < |r.txs|
    requires forall k | 0 <= k <= i :: Inv(r.states[k])
    requires forall k | 0 <= k <= i :: Gen(r.states[k]) <= Gen(r.states[i])
    ensures Inv(r.states[i + 1]) && Gen(r.states[i]) <= Gen(r.states[i + 1])
    ensures r.txs[i].BeginTx? ==> Gen(r.states[i + 1]) == r.txs[i].generation > Gen(r.states[i])
  {
    assert ValidStep(r, i);
    var prefix := r.states[..i + 1];
    if r.txs[i].BeginTx? {
      var g: nat, l: nat :| BeginBuiltAt(prefix, r.txs[i], g, l);
      BeginLandsOnObserved(prefix, r.txs[i], g, l, r.states[i]);
    }
  }

  /** One landed transaction, with everything the invariant gives about it. */
  lemma {:induction false} Landed(r: Run, i: nat)
    requires ValidRun(r) && i < |r.txs|
    ensures Inv(r.states[i]) && Inv(r.states[i + 1])
    ensures Holds(r.txs[i], r.states[i]) && r.states[i + 1] == Apply(r.txs[i], r.states[i])
    ensures r.txs[i].BeginTx? ==> Gen(r.states[i + 1]) == r.txs[i].generation > Gen(r.states[i])
    ensures Gen(r.states[i]) <= Gen(r.states[i + 1])
  {
    RunInvariant(r, i + 1);
    StepInvariant(r, i);
    assert ValidStep(r, i);
  }

  function Holder(f: Items): Option<Lease>
  {
    if f.lock.Held? then Some(Lease(f.lock.lock.owner, f.lock.lock.generation)) else None
  }

  /** While the generation stays, the lock stays with the same incarnation. */
  lemma {:induction false} HolderFollowsGeneration(r: Run, i: nat, j: nat)
    requires ValidRun(r) && i <= j < |r.states|
    requires Gen(r.states[i]) == Gen(r.states[j])
    ensures Holder(r.states[i]) == Holder(r.states[j])
    ensures ReadGeneration(r.states[i]).forceReleased == ReadGeneration(r.states[j]).forceReleased
    decreases j
  {
    if i < j {
      RunInvariant(r, j);
      Landed(r, j - 1);
      HolderFollowsGeneration(r, i, j - 1);
    }
  }

  /** A held lock was put by a begin that landed in this run, after the generation it raised. */
  lemma {:induction false} HolderWasBegun(r: Run, j: nat) returns (k: nat)
    requires ValidRun(r) && j < |r.states| && r.states[j].lock.Held?
    ensures k < j && r.txs[k].BeginTx?
    ensures Some(Lease(r.txs[k].owner, r.txs[k].generation)) == Holder(r.states[j])
    ensures Gen(r.states[k + 1]) == Gen(r.states[j])
    decreases j
  {
    Landed(r, j - 1);
    if r.txs[j - 1].BeginTx? {
      k := j - 1;
    } else {
      k := HolderWasBegun(r, j - 1);
    }
  }

  // ----- Fencing

  /** A displaced lease never renews, writes or ends again, whatever owner token it carries. */
  lemma {:induction false} DisplacedLeaseIsDead(r: Run, i: nat, k: nat, lease: Lease)
    requires ValidRun(r) && i <= k < |r.txs|
    requires Gen(r.states[i]) > lease.generation
    ensures r.txs[k] != EndTx(lease)
    ensures r.txs[k].RenewTx? ==> r.txs[k].lease != lease
    ensures r.txs[k].WriteTx? ==> r.txs[k].lease != lease
  {
    RunInvariant(r, k);
    Landed(r, k);
  }

  /** Guarded writes land in fencing-token order, and those of one token under one holder. */
  lemma {:induction false} GuardedWritesAreOrdered(r: Run, i: nat, j: nat)
    requires ValidRun(r) && i <= j < |r.txs|
    requires r.txs[i].WriteTx? && r.txs[j].WriteTx?
    ensures r.txs[i].lease.generation <= r.txs[j].lease.generation
    ensures r.txs[i].lease.generation == r.txs[j].lease.generation ==> r.txs[i].lease == r.txs[j].lease
  {
    RunInvariant(r, j);
    Landed(r, i);
    Landed(r, j);
    if r.txs[i].lease.generation == r.txs[j].lease.generation {
      HolderFollowsGeneration(r, i, j);
    }
  }

  /** The commit's lock check passes exactly when the generation is settled. */
  lemma {:induction false} CommitAdmittedExactlyWhenSettled(r: Run, i: nat)
    requires ValidRun(r) && i < |r.states|
    ensures Holds(CommitTx, r.states[i]) <==> ReadGeneration(r.states[i]).Settled()
  {
    RunInvariant(r, i);
  }

  /** No commit lands after a begin until an end has landed. */
  lemma {:induction false} NoCommitBeforeEnd(r: Run, b: nat, c: nat) returns (e: nat)
    requires ValidRun(r) && b < c < |r.txs|
    requires r.txs[b].BeginTx? && r.txs[c].CommitTx?
    ensures b < e < c && r.txs[e].EndTx?
    ensures ReadGeneration(r.states[e + 1]).Settled()
  {
    Landed(r, b);
    Landed(r, c);
    e := EndSettles(r, b + 1, c);
  }

  lemma {:induction false} EndSettles(r: Run, i: nat, j: nat) returns (e: nat)
    requires ValidRun(r) && i <= j < |r.states|
    requires !ReadGeneration(r.states[i]).Settled() && ReadGeneration(r.states[j]).Settled()
    ensures i <= e < j && r.txs[e].EndTx? && ReadGeneration(r.states[e + 1]).Settled()
    decreases j
  {
    Landed(r, j - 1);
    if ReadGeneration(r.states[j - 1]).Settled() {
      e := EndSettles(r, i, j - 1);
    } else {
      e := j - 1;
    }
  }

  // ----- Planning a begin

  /** One snapshot never plans as invalid, whatever the clock. */
  lemma {:induction false} SnapshotPlansAreValid(r: Run, i: nat, now: int)
    requires ValidRun(r) && i < |r.states|
    ensures !PlanRebuildBegin(State(ReadGeneration(r.states[i]), ReadLock(r.states[i])), now).StateInvalid?
  {
    RunInvariant(r, i);
  }

  /**
    Two separate reads plan as invalid exactly when the lock appeared after a settled generation
    was read, or disappeared after an unflagged rebuild's generation was; the generation has
    moved in both cases.
   */
  lemma {:induction false} InvalidPlanExactly(r: Run, g: nat, l: nat, now: int)
    requires ValidRun(r) && g <= l < |r.states|
    ensures var first, second := r.states[g], r.states[l];
            PlanRebuildBegin(State(ReadGeneration(first), ReadLock(second)), now).StateInvalid? <==>
            || (first.lock.NoItem? && second.lock.Held?)
            || (first.lock.Held? && !ReadGeneration(first).forceReleased && !second.lock.Held?)
    ensures PlanRebuildBegin(State(ReadGeneration(r.states[g]), ReadLock(r.states[l])), now).StateInvalid? ==>
              Gen(r.states[g]) < Gen(r.states[l])
  {
    RunInvariant(r, l);
    if Gen(r.states[g]) == Gen(r.states[l]) { HolderFollowsGeneration(r, g, l); }
  }

  /** It does happen: an end between the two reads leaves an odd, unflagged, unlocked state. */
  lemma {:induction false} TornReadPlansInvalid() returns (r: Run)
    ensures ValidRun(r) && |r.states| == 3
    ensures PlanRebuildBegin(State(ReadGeneration(r.states[1]), ReadLock(r.states[2])), 0).StateInvalid?
  {
    var begin := BeginTx(Plan(Acquire, 1, 0, NO_MATCH, ""), "a", 1, 0, 9);
    var s1 := Apply(begin, EMPTY);
    var end := EndTx(Lease("a", 1));
    r := Run([EMPTY, s1, Apply(end, s1)], [begin, end]);
    assert BeginBuiltAt(r.states[..1], begin, 0, 0);
    assert ValidStep(r, 0) && ValidStep(r, 1);
  }

  /**
    What a worker does about a state: acquire an even generation without a lock, acquire a
    force-released one, take over from the second after the lease's last, wait until then, or
    report a state that does not fit together.
   */
  lemma {:induction false} PlansExactly(generation: Generation, lock: Option<Lock>, now: int)
    ensures var r, even := PlanRebuildBegin(State(generation, lock), now), generation.value % 2 == 0;
            && (r.StateInvalid? <==> if even then lock.Some? else lock.None? && !generation.forceReleased)
            && (r.LockHeld? <==> !even && lock.Some? && now <= lock.value.expiry)
            && (r.LockHeld? ==> r == LockHeld(lock.value.owner, lock.value.expiry))
            && (r.Planned? ==>
                  && (r.plan.kind.Takeover? <==> lock.Some?) && (r.plan.kind.Acquire? <==> even)
                  && (generation.value + r.plan.increment) % 2 == 1
                  && generation.value < generation.value + r.plan.increment <= generation.value + 2)
  {}

  /** What each landed transaction leaves behind, in numbers. */
  lemma {:induction false} LandedLeaves(r: Run, i: nat)
    requires ValidRun(r) && i < |r.txs|
    ensures var before, after := r.states[i], r.states[i + 1];
            match r.txs[i]
            case BeginTx(_, owner, generation, _, expiry) =>
              && after.lock == Held(Lock(owner, generation, expiry))
              && Gen(after) == generation == Gen(before) + if Gen(before) % 2 == 0 then 1 else 2
            case RenewTx(lease, expiry) =>
              after.lock == Held(Lock(lease.owner, lease.generation, expiry)) && after.gen == before.gen
            case EndTx(lease) =>
              && after == Items(Some(Generation(lease.generation + 1, false)), NoItem)
              && lease.generation == Gen(before)
            case ForceTx(_, seen) =>
              after == Items(Some(Generation(seen + 2, true)), ForcedItem) && seen == Gen(before)
            case WriteTx(_, _) => after == before
            case CommitTx => after == before
  {
    Landed(r, i);
    RunInvariant(r, i);
    assert ValidStep(r, i);
    if r.txs[i].BeginTx? {
      var prefix := r.states[..i + 1];
      var g: nat, l: nat :| BeginBuiltAt(prefix, r.txs[i], g, l);
      BeginLandsOnObserved(prefix, r.txs[i], g, l, r.states[i]);
    }
  }

  /** Who can renew, end, write or force-release at any point of a run: the holder, and for a release its owner. */
  lemma {:induction false} LandsExactly(r: Run, i: nat, tx: Tx)
    requires ValidRun(r) && i < |r.states|
    ensures var f := r.states[i];
            match tx
            case BeginTx(_, _, _, _, _) => true
            case RenewTx(lease, _) => Holds(tx, f) <==> Holder(f) == Some(lease)
            case EndTx(lease) => Holds(tx, f) <==> Holder(f) == Some(lease)
            case ForceTx(owner, seen) =>
              Holds(tx, f) <==> Holder(f).Some? && Holder(f).value.owner == owner && Holder(f).value.generation == seen
            case WriteTx(lease, now) => Holds(tx, f) <==> Holder(f) == Some(lease) && now < f.lock.lock.expiry
            case CommitTx => Holds(tx, f) <==> Gen(f) % 2 == 0
  {
    RunInvariant(r, i);
  }

  /** A guarded write that lands is its lease holder's, before the second the lease expires. */
  lemma {:induction false} GuardedWriteIsLive(r: Run, i: nat)
    requires ValidRun(r) && i < |r.txs| && r.txs[i].WriteTx?
    ensures Holder(r.states[i]) == Some(r.txs[i].lease) && r.txs[i].now < r.states[i].lock.lock.expiry
    ensures r.txs[i].lease.generation == Gen(r.states[i]) && r.states[i + 1] == r.states[i]
  {
    Landed(r, i);
  }

  /** A begin that lands takes over only a lease that lapsed before the clock it was planned at. */
  lemma {:induction false} TakeoverDisplacesOnlyExpired(r: Run, i: nat)
    requires ValidRun(r) && i < |r.txs| && r.txs[i].BeginTx?
    ensures match ReadLock(r.states[i])
            case None => r.txs[i].plan.kind != Takeover
            case Some(lock) => r.txs[i].plan.kind == Takeover && lock.expiry < r.txs[i].now
    ensures IsLease(ReadLock(r.states[i + 1]), Lease(r.txs[i].owner, Gen(r.states[i + 1])))
  {
    Landed(r, i);
  }

  // ----- Settling a begin whose result is unknown

  /** No other begin claims the lease of `b`: its owner token at its generation. */
  ghost predicate SoleClaim(r: Run, b: Tx)
    requires b.BeginTx?
  {
    forall k | 0 <= k < |r.txs| ::
      r.txs[k].BeginTx? && r.txs[k].owner == b.owner && r.txs[k].generation == b.generation ==> r.txs[k] == b
  }

  /** Once the generation has left the observed value the begin can never land. */
  lemma {:induction false} BeginCannotLand(r: Run, b: Tx, g: nat, l: nat, i: nat, k: nat)
    requires ValidRun(r) && l <= i <= k < |r.states|
    requires BeginBuiltAt(r.states, b, g, l)
    requires Gen(r.states[i]) != Gen(r.states[g])
    ensures !Holds(b, r.states[k])
  {
    RunInvariant(r, k);
    if Holds(b, r.states[k]) {
      var prefix := r.states[..k + 1];
      assert BeginBuiltAt(prefix, b, g, l);
      BeginLandsOnObserved(prefix, b, g, l, r.states[k]);
    }
  }

  /** Settled and held: a begin of this lease landed before the lock was read, and `b` did if the claim is its own. */
  lemma {:induction false} HeldMeansApplied(r: Run, b: Tx, g: nat, l: nat, i: nat, j: nat) returns (k: nat)
    requires ValidRun(r) && l <= i <= j < |r.states|
    requires BeginBuiltAt(r.states, b, g, l)
    requires HoldsBegun(State(ReadGeneration(r.states[i]), ReadLock(r.states[j])),
                        Lease(b.owner, b.generation), Gen(r.states[g])) == (true, true)
    ensures g <= k < j && r.txs[k].BeginTx? && r.txs[k].owner == b.owner && r.txs[k].generation == b.generation
    ensures SoleClaim(r, b) ==> r.txs[k] == b
  {
    k := HolderWasBegun(r, j);
    RunInvariant(r, j);
    assert Gen(r.states[k + 1]) > Gen(r.states[g]);
  }

  /** Settled and not held: `b` can never land, and if the claim is its own the lease is never held again. */
  lemma {:induction false} NotHeldIsFinal(r: Run, b: Tx, g: nat, l: nat, i: nat, j: nat, k: nat)
    requires ValidRun(r) && l <= i <= j <= k < |r.states|
    requires BeginBuiltAt(r.states, b, g, l)
    requires HoldsBegun(State(ReadGeneration(r.states[i]), ReadLock(r.states[j])),
                        Lease(b.owner, b.generation), Gen(r.states[g])) == (false, true)
    ensures !Holds(b, r.states[k])
    ensures SoleClaim(r, b) ==> !IsLease(ReadLock(r.states[k]), Lease(b.owner, b.generation))
  {
    BeginCannotLand(r, b, g, l, i, k);
    if SoleClaim(r, b) && IsLease(ReadLock(r.states[k]), Lease(b.owner, b.generation)) {
      var m := HolderWasBegun(r, k);
      RunInvariant(r, k);
      if m < j {
        HolderFollowsGeneration(r, j, k);
      } else {
        Landed(r, m);
        BeginCannotLand(r, b, g, l, i, m);
      }
    }
  }

  /** While the generation a begin observed stays, it can land unless a lease it would take over is in the way. */
  lemma {:induction false} OpenExactly(r: Run, b: Tx, g: nat, l: nat, i: nat)
    requires ValidRun(r) && l <= i < |r.states| && BeginBuiltAt(r.states, b, g, l)
    requires Gen(r.states[i]) == Gen(r.states[g])
    ensures var lock := r.states[i].lock;
            Holds(b, r.states[i]) <==> (b.plan.kind.Takeover? ==> lock.Held? && lock.lock.Expired(b.now))
  {
    RunInvariant(r, i);
    HolderFollowsGeneration(r, g, l);
    HolderFollowsGeneration(r, g, i);
  }

  /**
    Not settled: the begin had not landed when the generation was read, and could still land
    there exactly when it plans no takeover or the lease it would take over is held and expired.
   */
  lemma {:induction false} UnsettledIsOpen(r: Run, b: Tx, g: nat, l: nat, i: nat, j: nat)
    requires ValidRun(r) && l <= i <= j < |r.states|
    requires BeginBuiltAt(r.states, b, g, l)
    requires !HoldsBegun(State(ReadGeneration(r.states[i]), ReadLock(r.states[j])),
                         Lease(b.owner, b.generation), Gen(r.states[g])).1
    ensures forall k | g <= k < i :: r.txs[k] != b
    ensures Gen(r.states[i]) == Gen(r.states[g])
    ensures var lock := r.states[i].lock;
            Holds(b, r.states[i]) <==> (b.plan.kind.Takeover? ==> lock.Held? && lock.lock.Expired(b.now))
  {
    RunInvariant(r, i);
    OpenExactly(r, b, g, l, i);
    forall k | g <= k < i ensures r.txs[k] != b {
      Landed(r, k);
    }
  }

  /** A worker that begins, ends and begins again under its own token keeps each claim its own. */
  lemma {:induction false} OwnTokenMayBeReused() returns (r: Run, b: Tx, c: Tx)
    ensures b.BeginTx? && c.BeginTx? && b != c && b.owner == c.owner
    ensures ValidRun(r) && |r.txs| == 3 && r.txs == [b, EndTx(Lease(b.owner, b.generation)), c]
    ensures SoleClaim(r, b) && SoleClaim(r, c)
    ensures Holder(r.states[3]) == Some(Lease(c.owner, c.generation))
  {
    b := BeginTx(Plan(Acquire, 1, 0, NO_MATCH, ""), "a", 1, 0, 9);
    var s1 := Apply(b, EMPTY);
    var s2 := Apply(EndTx(Lease("a", 1)), s1);
    c := BeginTx(Plan(Acquire, 1, 2, NO_MATCH, ""), "a", 3, 0, 9);
    r := Run([EMPTY, s1, s2, Apply(c, s2)], [b, EndTx(Lease("a", 1)), c]);
    assert BeginBuiltAt(r.states[..1], b, 0, 0);
    assert BeginBuiltAt(r.states[..3], c, 2, 2);
    assert ValidStep(r, 0) && ValidStep(r, 1) && ValidStep(r, 2);
  }

  /** When another begin claims the same lease the answer is not exact: it is the other begin's. */
  lemma {:induction false} SharedOwnerMisleads() returns (r: Run, b: Tx)
    ensures ValidRun(r) && |r.states| == 2
    ensures BeginBuiltAt(r.states, b, 0, 0) && b !in r.txs
    ensures HoldsBegun(State(ReadGeneration(r.states[1]), ReadLock(r.states[1])),
                       Lease(b.owner, b.generation), Gen(r.states[0])) == (true, true)
  {
    var other := BeginTx(Plan(Acquire, 1, 0, NO_MATCH, ""), "a", 1, 0, 9);
    b := BeginTx(Plan(Acquire, 1, 0, NO_MATCH, ""), "a", 1, 0, 8);
    r := Run([EMPTY, Apply(other, EMPTY)], [other]);
    assert BeginBuiltAt(r.states[..1], other, 0, 0);
    assert ValidStep(r, 0);
  }

  /** And a lease that settled as not held can come back as another begin's. */
  lemma {:induction false} SharedClaimComesBack() returns (r: Run, b: Tx)
    ensures ValidRun(r) && |r.states| == 4
    ensures BeginBuiltAt(r.states, b, 1, 1) && b !in r.txs
    ensures HoldsBegun(State(ReadGeneration(r.states[2]), ReadLock(r.states[2])),
                       Lease(b.owner, b.generation), Gen(r.states[1])) == (false, true)
    ensures IsLease(ReadLock(r.states[3]), Lease(b.owner, b.generation))
  {
    var first := BeginTx(Plan(Acquire, 1, 0, NO_MATCH, ""), "z", 1, 0, 9);
    var s1 := Apply(first, EMPTY);
    b := BeginTx(Plan(Takeover, 2, NO_MATCH, 1, "z"), "a", 3, 10, 19);
    var end := EndTx(Lease("z", 1));
    var s2 := Apply(end, s1);
    var other := BeginTx(Plan(Acquire, 1, 2, NO_MATCH, ""), "a", 3, 11, 20);
    r := Run([EMPTY, s1, s2, Apply(other, s2)], [first, end, other]);
    assert BeginBuiltAt(r.states[..1], first, 0, 0);
    assert BeginBuiltAt(r.states[..3], other, 2, 2);
    assert ValidStep(r, 0) && ValidStep(r, 1) && ValidStep(r, 2);
  }

  // ----- Reader epochs

  datatype ReadResult =
    | ReadOk | Unavailable(generation: Generation) | EpochChanged(observed: int, current: int) | ReadFailed

  /** ReadAtRebuildEpoch over the generation before the read and the one after it. */
  function ReadAtRebuildEpoch(before: Generation, readOk: bool, after: Generation): ReadResult
  {
    if !before.Settled() then Unavailable(before)
    else if !readOk then ReadFailed
    else if !after.Settled() then Unavailable(after)
    else if after.value != before.value then EpochChanged(before.value, after.value)
    else ReadOk
  }

  /** What each answer of such a read says of the two generations. */
  lemma {:induction false} EpochAnswers(before: Generation, readOk: bool, after: Generation)
    ensures match ReadAtRebuildEpoch(before, readOk, after)
            case Unavailable(g) =>
              g.value % 2 == 1 && (g == before || (g == after && before.value % 2 == 0 && readOk))
            case ReadFailed => before.value % 2 == 0 && !readOk
            case EpochChanged(from, to) =>
              readOk && from == before.value != to == after.value && from % 2 == 0 && to % 2 == 0
            case ReadOk => readOk && before.value == after.value && before.value % 2 == 0
  {}

  /** A read is accepted exactly when the epoch was settled and only commits landed during it. */
  lemma {:induction false} EpochReadIsSafe(r: Run, i: nat, j: nat)
    requires ValidRun(r) && i <= j < |r.states|
    ensures ReadAtRebuildEpoch(ReadGeneration(r.states[i]), true, ReadGeneration(r.states[j])).ReadOk?
            <==> ReadGeneration(r.states[i]).Settled() && forall k | i <= k < j :: r.txs[k].CommitTx?
    decreases j
  {
    if i < j {
      EpochReadIsSafe(r, i, j - 1);
      RunInvariant(r, j);
      Landed(r, j - 1);
    }
  }
}
