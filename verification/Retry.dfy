/**
  Fence-aware retry: what a failed attempt means, how long to wait, and when a command's
  attempts are exhausted. An error is a tree, searched the way Go's errors.Is and errors.As
  search it: the error itself, then what it wraps, depth first.
 */
module Retry {
  import opened Basics

  datatype Class = Unknown | Transient | Permanent

  datatype Kind =
    | Plain
    | Internal | LoadFailure                  // the retry loop's own marks
    | ProjectorFailed | ProjectorOperation
    | OutcomeConflict | KeyReuse | Corrupt | Ambiguous
    | FenceConflict(callerStamped: bool)
    | Conflict | OptimisticConflict
    | Classified(class_: Class)
    | BeginIndeterminate | RebuildRefusal

  /** An error and the errors it wraps, in the order they are searched. */
  datatype Error = Error(kind: Kind, causes: seq<Error>)

  function Nodes(e: Error): seq<Error>
    decreases e, 0
  {
    [e] + NodesOf(e.causes)
  }

  function NodesOf(es: seq<Error>): seq<Error>
    decreases es, 1
  {
    if es == [] then [] else Nodes(es[0]) + NodesOf(es[1..])
  }

  function FirstIn(nodes: seq<Error>, p: Kind -> bool): (r: Option<Error>)
    ensures r.Some? ==> p(r.value.kind)
  {
    if nodes == [] then None else if p(nodes[0].kind) then Some(nodes[0]) else FirstIn(nodes[1..], p)
  }

  /** errors.As: the first error of the tree that matches. */
  function First(e: Error, p: Kind -> bool): (r: Option<Error>)
    ensures r.Some? ==> p(r.value.kind)
  {
    FirstIn(Nodes(e), p)
  }

  /** errors.Is: whether any error of the tree matches. */
  predicate Holds(e: Error, p: Kind -> bool)
  {
    exists i | 0 <= i < |Nodes(e)| :: p(Nodes(e)[i].kind)
  }

  lemma {:induction false} FirstInFinds(nodes: seq<Error>, p: Kind -> bool)
    ensures FirstIn(nodes, p).Some? <==> exists i | 0 <= i < |nodes| :: p(nodes[i].kind)
    ensures FirstIn(nodes, p).Some? ==>
              exists i | 0 <= i < |nodes| ::
                nodes[i] == FirstIn(nodes, p).value && p(nodes[i].kind) && forall j | 0 <= j < i :: !p(nodes[j].kind)
  {
    if nodes != [] {
      FirstInFinds(nodes[1..], p);
      assert nodes == [nodes[0]] + nodes[1..];
      if p(nodes[0].kind) {
        assert nodes[0] == FirstIn(nodes, p).value;
      } else if FirstIn(nodes[1..], p).Some? {
        var k :| 0 <= k < |nodes[1..]| && nodes[1..][k] == FirstIn(nodes[1..], p).value && p(nodes[1..][k].kind)
                 && forall j | 0 <= j < k :: !p(nodes[1..][j].kind);
        assert nodes[k + 1] == nodes[1..][k];
        forall j | 0 <= j < k + 1 ensures !p(nodes[j].kind) {
          if j > 0 { assert nodes[j] == nodes[1..][j - 1]; }
        }
      } else {
        forall i | 0 <= i < |nodes| ensures !p(nodes[i].kind) {
          if i > 0 { assert nodes[i] == nodes[1..][i - 1]; }
        }
      }
    }
  }

  // ----- Classification

  const IsInternal := (k: Kind) => k.Internal?
  const IsLoad := (k: Kind) => k.LoadFailure?
  const IsProjector := (k: Kind) => k.ProjectorOperation? || k.ProjectorFailed?
  const IsSettled := (k: Kind) => k.OutcomeConflict? || k.KeyReuse? || k.Corrupt?
  const IsFence := (k: Kind) => k.FenceConflict?
  const IsConflict := (k: Kind) => k.Conflict? || k.OptimisticConflict?
  const IsClassified := (k: Kind) => k.Classified?
  const IsIndeterminate := (k: Kind) => k.BeginIndeterminate?
  const IsRefusal := (k: Kind) => k.RebuildRefusal?

  function Classify(e: Error): Class
  {
    var indeterminate := Holds(e, IsIndeterminate);
    var classified := First(e, IsClassified);
    if classified.Some?
       && (!indeterminate
           || exists i | 0 <= i < |classified.value.causes| :: Holds(classified.value.causes[i], IsIndeterminate))
    then classified.value.kind.class_
    else if indeterminate then Unknown
    else if Holds(e, IsRefusal) then Transient
    else Unknown
  }

  datatype RetryKind = Never | AfterDelay | AfterConflict

  /** The first fence conflict of the tree is a caller's. */
  predicate FailedCallerFence(e: Error)
  {
    var fence := First(e, IsFence);
    fence.Some? && fence.value.kind == FenceConflict(true)
  }

  function ClassifyAttempt(error: Option<Error>): RetryKind
  {
    if error.None? || Holds(error.value, IsInternal) then Never
    else
      var e := error.value;
      if Holds(e, IsProjector) then Never
      else
        var loaded := First(e, IsLoad);
        if loaded.Some? then
          if exists i | 0 <= i < |loaded.value.causes| :: Retryable(loaded.value.causes[i]) then AfterDelay else Never
        else if Holds(e, IsSettled) then Never
        else if FailedCallerFence(e) then Never
        else if Holds(e, IsConflict) then AfterConflict
        else if Classify(e).Transient? then AfterDelay
        else Never
  }

  predicate Retryable(e: Error)
  {
    Holds(e, IsConflict) || Classify(e).Transient?
  }

  // ----- When a failure counts as a conflict

  /** An error the loop returns at once: an application's own, or a projector's. */
  predicate MustStop(nodes: seq<Error>)
  {
    exists i | 0 <= i < |nodes| ::
      nodes[i].kind.Internal? || nodes[i].kind.ProjectorFailed? || nodes[i].kind.ProjectorOperation?
  }

  predicate FailedLoad(nodes: seq<Error>)
  {
    exists i | 0 <= i < |nodes| :: nodes[i].kind.LoadFailure?
  }

  /** An error the outcome row answers. */
  predicate RowAnswers(nodes: seq<Error>)
  {
    exists i | 0 <= i < |nodes| :: nodes[i].kind.OutcomeConflict? || nodes[i].kind.KeyReuse? || nodes[i].kind.Corrupt?
  }

  predicate Conflicting(nodes: seq<Error>)
  {
    exists i | 0 <= i < |nodes| :: nodes[i].kind.Conflict? || nodes[i].kind.OptimisticConflict?
  }

  predicate Indeterminate(nodes: seq<Error>)
  {
    exists i | 0 <= i < |nodes| :: nodes[i].kind.BeginIndeterminate?
  }

  /** What errors.Is finds is what the tree holds. */
  lemma {:induction false} HeldExactly(e: Error)
    ensures Holds(e, IsInternal) || Holds(e, IsProjector) <==> MustStop(Nodes(e))
    ensures Holds(e, IsLoad) <==> FailedLoad(Nodes(e))
    ensures Holds(e, IsSettled) <==> RowAnswers(Nodes(e))
    ensures Holds(e, IsConflict) <==> Conflicting(Nodes(e))
    ensures Holds(e, IsIndeterminate) <==> Indeterminate(Nodes(e))
  {}

  /** The first classified error of the tree, and every begin of unknown result is inside it. */
  predicate ClassDecides(nodes: seq<Error>, i: nat)
    requires i < |nodes|
  {
    && nodes[i].kind.Classified? && (forall j | 0 <= j < i :: !nodes[j].kind.Classified?)
    && (Indeterminate(nodes) ==>
          exists k | 0 <= k < |nodes[i].causes| :: Indeterminate(Nodes(nodes[i].causes[k])))
  }

  /** Worth waiting for: classified so, or unclassified and a rebuild's refusal. */
  predicate Passing(nodes: seq<Error>)
  {
    || (exists i: nat | i < |nodes| && ClassDecides(nodes, i) :: nodes[i].kind.class_.Transient?)
    || ((forall i: nat | i < |nodes| :: !ClassDecides(nodes, i)) && !Indeterminate(nodes)
        && exists i | 0 <= i < |nodes| :: nodes[i].kind.RebuildRefusal?)
  }

  lemma {:induction false} TransientExactly(e: Error)
    ensures Classify(e).Transient? <==> Passing(Nodes(e))
  {
    var nodes := Nodes(e);
    FirstInFinds(nodes, IsClassified);
    forall i: nat, j: nat | i < |nodes| && j < |nodes| && ClassDecides(nodes, i) && ClassDecides(nodes, j)
      ensures i == j
    {}
    var classified := First(e, IsClassified);
    if classified.Some? {
      var i: nat :| i < |nodes| && nodes[i] == classified.value && nodes[i].kind.Classified?
               && forall j | 0 <= j < i :: !nodes[j].kind.Classified?;
      forall k | 0 <= k < |nodes[i].causes|
        ensures Holds(nodes[i].causes[k], IsIndeterminate) <==> Indeterminate(Nodes(nodes[i].causes[k]))
      {}
      assert Holds(e, IsIndeterminate) <==> Indeterminate(nodes);
      FirstClassifiedDecides(nodes, i);
    }
  }

  lemma {:induction false} FirstClassifiedDecides(nodes: seq<Error>, i: nat)
    requires i < |nodes| && nodes[i].kind.Classified? && forall j | 0 <= j < i :: !nodes[j].kind.Classified?
    ensures (exists j: nat | j < |nodes| :: ClassDecides(nodes, j)) <==> ClassDecides(nodes, i)
  {}

  /** A conflict or something transient: worth another attempt on its own account. */
  predicate WorthRetrying(e: Error) { Conflicting(Nodes(e)) || Passing(Nodes(e)) }

  lemma {:induction false} RetryableExactly(e: Error)
    ensures Retryable(e) <==> WorthRetrying(e)
  {
    TransientExactly(e);
  }

  /** The position of the first fence conflict decides whose fence failed. */
  predicate CallerFenceFirst(nodes: seq<Error>)
  {
    exists i | 0 <= i < |nodes| ::
      nodes[i].kind == FenceConflict(true) && forall j | 0 <= j < i :: !nodes[j].kind.FenceConflict?
  }

  lemma {:induction false} CallerFenceIsFirst(e: Error)
    ensures FailedCallerFence(e) <==> CallerFenceFirst(Nodes(e))
  {
    FirstInFinds(Nodes(e), IsFence);
    if CallerFenceFirst(Nodes(e)) {
      var i :| 0 <= i < |Nodes(e)| && Nodes(e)[i].kind == FenceConflict(true)
               && forall j | 0 <= j < i :: !Nodes(e)[j].kind.FenceConflict?;
      var k :| 0 <= k < |Nodes(e)| && Nodes(e)[k] == First(e, IsFence).value && Nodes(e)[k].kind.FenceConflict?
               && forall j | 0 <= j < k :: !Nodes(e)[j].kind.FenceConflict?;
      assert i == k;
    }
  }

  /**
    A failure is a genuine optimistic conflict exactly when the tree holds a conflict, holds no
    internal, load or projector failure and no error the outcome row answers, and its first
    fence conflict, if any, is the engine's.
   */
  lemma {:induction false} ConflictExactly(e: Error)
    ensures ClassifyAttempt(Some(e)).AfterConflict? <==>
            && Conflicting(Nodes(e)) && !MustStop(Nodes(e)) && !FailedLoad(Nodes(e)) && !RowAnswers(Nodes(e))
            && !CallerFenceFirst(Nodes(e))
  {
    CallerFenceIsFirst(e);
    HeldExactly(e);
    FirstInFinds(Nodes(e), IsLoad);
  }

  /** The first load failure of the tree wraps something worth retrying. */
  predicate LoadWorthRetrying(nodes: seq<Error>)
  {
    exists i | 0 <= i < |nodes| ::
      && nodes[i].kind.LoadFailure? && (forall j | 0 <= j < i :: !nodes[j].kind.LoadFailure?)
      && exists k | 0 <= k < |nodes[i].causes| :: WorthRetrying(nodes[i].causes[k])
  }

  /**
    A failure is worth another attempt without counting as a conflict exactly when it is a failed
    load that conflicted or was transient, or is itself transient and neither a conflict nor an
    error that must be returned as it is.
   */
  lemma {:induction false} DelayExactly(e: Error)
    ensures ClassifyAttempt(Some(e)).AfterDelay? <==>
            && !MustStop(Nodes(e))
            && if FailedLoad(Nodes(e)) then LoadWorthRetrying(Nodes(e))
               else
                 && !RowAnswers(Nodes(e)) && !CallerFenceFirst(Nodes(e)) && !Conflicting(Nodes(e)) && Passing(Nodes(e))
  {
    CallerFenceIsFirst(e);
    HeldExactly(e);
    TransientExactly(e);
    FirstInFinds(Nodes(e), IsLoad);
    if First(e, IsLoad).Some? { FirstLoadDecides(e); }
  }

  lemma {:induction false} FirstLoadDecides(e: Error)
    requires First(e, IsLoad).Some?
    ensures var loaded := First(e, IsLoad).value;
            LoadWorthRetrying(Nodes(e)) <==> exists k | 0 <= k < |loaded.causes| :: Retryable(loaded.causes[k])
  {
    var nodes := Nodes(e);
    FirstInFinds(nodes, IsLoad);
    var i :| 0 <= i < |nodes| && nodes[i] == First(e, IsLoad).value && nodes[i].kind.LoadFailure?
             && forall j | 0 <= j < i :: !nodes[j].kind.LoadFailure?;
    LoadDecides(nodes, i);
  }

  lemma {:induction false} LoadDecides(nodes: seq<Error>, i: nat)
    requires i < |nodes| && nodes[i].kind.LoadFailure? && forall j | 0 <= j < i :: !nodes[j].kind.LoadFailure?
    ensures LoadWorthRetrying(nodes) <==> exists k | 0 <= k < |nodes[i].causes| :: Retryable(nodes[i].causes[k])
  {
    forall k | 0 <= k < |nodes[i].causes|
      ensures Retryable(nodes[i].causes[k]) <==> WorthRetrying(nodes[i].causes[k])
    {
      RetryableExactly(nodes[i].causes[k]);
    }
    if LoadWorthRetrying(nodes) {
      var x :| 0 <= x < |nodes| && nodes[x].kind.LoadFailure? && (forall j | 0 <= j < x :: !nodes[j].kind.LoadFailure?)
               && exists k | 0 <= k < |nodes[x].causes| :: WorthRetrying(nodes[x].causes[k]);
      assert x == i;
    }
  }

  /** A caller's fence conflict that no engine fence precedes is never a conflict to retry. */
  lemma {:induction false} CallerFenceIsNeverAConflict(e: Error, i: nat)
    requires i < |Nodes(e)| && Nodes(e)[i].kind == FenceConflict(true)
    requires forall j | 0 <= j < i :: Nodes(e)[j].kind != FenceConflict(false)
    ensures !ClassifyAttempt(Some(e)).AfterConflict?
  {
    ConflictExactly(e);
    FirstCaller(Nodes(e), i);
  }

  lemma {:induction false} FirstCaller(nodes: seq<Error>, i: nat)
    requires i < |nodes| && nodes[i].kind == FenceConflict(true)
    requires forall j | 0 <= j < i :: nodes[j].kind != FenceConflict(false)
    ensures CallerFenceFirst(nodes)
  {
    if k :| 0 <= k < i && nodes[k].kind.FenceConflict? { FirstCaller(nodes, k); }
  }

  /** A joined error whose engine fence comes first hides the caller's fence behind it. */
  lemma {:induction false} EngineFenceHidesCallerFence()
    ensures var engine := Error(FenceConflict(false), [Error(Conflict, [])]);
            var caller := Error(FenceConflict(true), [Error(Conflict, [])]);
            && ClassifyAttempt(Some(Error(Plain, [engine, caller]))).AfterConflict?
            && !ClassifyAttempt(Some(Error(Plain, [caller, engine]))).AfterConflict?
  {
    var c := Error(Conflict, []);
    var engine, caller := Error(FenceConflict(false), [c]), Error(FenceConflict(true), [c]);
    JoinedEngineFirst(engine, caller);
    JoinedCallerFirst(caller, engine);
  }

  lemma {:induction false} JoinedEngineFirst(engine: Error, caller: Error)
    requires engine == Error(FenceConflict(false), [Error(Conflict, [])])
    requires caller == Error(FenceConflict(true), [Error(Conflict, [])])
    ensures ClassifyAttempt(Some(Error(Plain, [engine, caller]))).AfterConflict?
  {
    var e := Error(Plain, [engine, caller]);
    JoinedFences(engine, caller);
    assert Nodes(e)[1].kind == FenceConflict(false) && Nodes(e)[2].kind == Conflict;
    ConflictExactly(e);
  }

  lemma {:induction false} JoinedCallerFirst(caller: Error, engine: Error)
    requires caller == Error(FenceConflict(true), [Error(Conflict, [])])
    requires engine.causes == [Error(Conflict, [])]
    ensures !ClassifyAttempt(Some(Error(Plain, [caller, engine]))).AfterConflict?
  {
    var e := Error(Plain, [caller, engine]);
    JoinedFences(caller, engine);
    assert Nodes(e)[1].kind == FenceConflict(true);
    CallerFenceIsNeverAConflict(e, 1);
  }

  lemma {:induction false} JoinedFences(x: Error, y: Error)
    requires x.causes == [Error(Conflict, [])] && y.causes == [Error(Conflict, [])]
    ensures Nodes(Error(Plain, [x, y])) == [Error(Plain, [x, y]), x, Error(Conflict, []), y, Error(Conflict, [])]
  {
    FenceNodes(x);
    FenceNodes(y);
    PairNodes(x, y);
  }

  lemma {:induction false} FenceNodes(e: Error)
    requires e.causes == [Error(Conflict, [])]
    ensures Nodes(e) == [e, Error(Conflict, [])]
  {
    var c := Error(Conflict, []);
    assert NodesOf([]) == [] && Nodes(c) == [c] + NodesOf([]);
    assert [c][1..] == [];
  }

  lemma {:induction false} PairNodes(x: Error, y: Error)
    ensures Nodes(Error(Plain, [x, y])) == [Error(Plain, [x, y])] + Nodes(x) + Nodes(y)
  {
    assert [x, y][1..] == [y] && [y][1..] == [];
    assert NodesOf([]) == [];
    assert NodesOf([y]) == Nodes(y) + [];
  }

  /** The error a Prepare function's failure becomes, when it is no rejection and wraps `readFailure`, if any. */
  function PrepareFailed(e: Error, readFailure: Option<Error>): Error
  {
    if readFailure.Some? && Retryable(readFailure.value) then Error(LoadFailure, [e]) else Error(Internal, [e])
  }

  /** A failed load or an application's own error never counts as a conflict, whatever it wraps. */
  lemma {:induction false} PrepareFailureIsNoConflict(e: Error, readFailure: Option<Error>)
    ensures !ClassifyAttempt(Some(PrepareFailed(e, readFailure))).AfterConflict?
  {
    var marked := PrepareFailed(e, readFailure);
    assert Nodes(marked)[0] == marked;
    ConflictExactly(marked);
  }

  /**
    It is retried exactly when what it read failed for a reason worth retrying, it is such an
    error itself, and it holds no error that must be returned at once.
   */
  lemma {:induction false} PrepareFailureRetriedExactly(e: Error, readFailure: Option<Error>)
    ensures ClassifyAttempt(Some(PrepareFailed(e, readFailure))).AfterDelay? <==>
            readFailure.Some? && WorthRetrying(readFailure.value) && WorthRetrying(e) && !MustStop(Nodes(e))
  {
    var marked := PrepareFailed(e, readFailure);
    assert [e][1..] == [] && NodesOf([]) == [];
    assert NodesOf([e]) == Nodes(e) + [];
    assert Nodes(marked) == [marked] + Nodes(e);
    if readFailure.Some? { RetryableExactly(readFailure.value); }
    DelayExactly(marked);
    if marked.kind.LoadFailure? {
      LoadDecides(Nodes(marked), 0);
      RetryableExactly(e);
      assert marked.causes[0] == e;
    }
    WrapsStop(marked, e);
  }

  lemma {:induction false} WrapsStop(marked: Error, e: Error)
    ensures MustStop([marked] + Nodes(e)) <==> MustStop([marked]) || MustStop(Nodes(e))
  {
    var nodes := [marked] + Nodes(e);
    assert nodes[0] == marked == [marked][0];
    assert forall i | 0 <= i < |Nodes(e)| :: nodes[i + 1] == Nodes(e)[i];
    assert forall i | 1 <= i < |nodes| :: nodes[i] == Nodes(e)[i - 1];
  }

  // ----- Delays

  const MAX_INT64 := 0x7fff_ffff_ffff_ffff
  const TWO64 := 0x1_0000_0000_0000_0000
  const MILLISECOND := 1_000_000
  const DEFAULT_BASE := 25 * MILLISECOND
  const DEFAULT_MAX := 1000 * MILLISECOND

  /** Two's-complement wrap-around of a 64-bit result. */
  function Wrap(x: int): int
  {
    (x + MAX_INT64 + 1) % TWO64 - MAX_INT64 - 1
  }

  function Pow2(n: nat): (p: nat)
    ensures p >= 1
  {
    if n == 0 then 1 else 2 * Pow2(n - 1)
  }

  function Min(a: int, b: int): int { if a <= b then a else b }

  /** The delay before jitter, with unbounded arithmetic. */
  function Backoff(base: int, ceiling: int, attempt: nat): int
  {
    Min(base * Pow2(attempt), ceiling)
  }

  lemma {:induction false} BackoffCapped(base: int, ceiling: int, i: nat, n: nat)
    requires base > 0 && i <= n && base * Pow2(i) >= ceiling
    ensures base * Pow2(n) >= ceiling
    decreases n
  {
    if i < n {
      BackoffCapped(base, ceiling, i, n - 1);
      Product(base, Pow2(n - 1));
    }
  }

  lemma {:induction false} Product(a: int, b: int)
    requires a > 0 && b > 0
    ensures a * b > 0
  {}

  /** Doubling a positive delay doubles it, or wraps around to one that is not positive. */
  lemma {:induction false} Doubled(base: int, i: nat, delay: int)
    requires delay == base * Pow2(i) && 0 < delay <= MAX_INT64
    ensures base * Pow2(i + 1) == 2 * delay
    ensures Wrap(2 * delay) == if 2 * delay <= MAX_INT64 then 2 * delay else 2 * delay - TWO64
    ensures 2 * delay > MAX_INT64 ==> Wrap(2 * delay) <= 0
  {
    assert base * Pow2(i + 1) == base * (2 * Pow2(i));
  }

  /** Doubling up to the ceiling gives min(base doubled `attempt` times, ceiling) in spite of 64-bit wrap-around. */
  method DoubleUpTo(base: int, ceiling: int, attempt: int) returns (delay: int)
    requires 0 < base <= MAX_INT64 && 0 < ceiling <= MAX_INT64
    ensures delay == Backoff(base, ceiling, if attempt < 0 then 0 else attempt)
  {
    ghost var rounds := if attempt < 0 then 0 else attempt;
    delay := base;
    var i := 0;
    while i < attempt
      invariant 0 <= i <= rounds
      invariant delay == base * Pow2(i) && 0 < delay <= MAX_INT64
    {
      Doubled(base, i, delay);
      delay := Wrap(delay * 2);
      if delay >= ceiling || delay <= 0 {
        BackoffCapped(base, ceiling, i + 1, rounds);
        return ceiling;
      }
      i := i + 1;
    }
    if delay > ceiling {
      delay := ceiling;
    }
  }

  /** Half the delay and as much of the rest as the jitter asks for, kept in range. */
  function Jittered(delay: int, jitter: int -> int): int
  {
    var half := delay / 2;
    if half <= 0 then delay
    else
      var j := jitter(delay - half);
      half + if j < 0 then 0 else Min(j, delay - half)
  }

  /** The jittered delay lies between half the backoff and the backoff, and jitter within that range is kept. */
  method ExponentialJitterDelay(baseDelay: int, maxDelay: int, attempt: int, jitter: int -> int) returns (r: int)
    requires baseDelay <= MAX_INT64 && maxDelay <= MAX_INT64
    ensures var base := if baseDelay <= 0 then MILLISECOND else baseDelay;
            var ceiling := if maxDelay <= 0 then base else maxDelay;
            var delay := Backoff(base, ceiling, if attempt < 0 then 0 else attempt);
            && r == Jittered(delay, jitter)
            && delay / 2 <= r <= delay && 0 < r
            && (delay >= 2 && 0 <= jitter(delay - delay / 2) <= delay - delay / 2 ==>
                r == delay / 2 + jitter(delay - delay / 2))
  {
    var base := if baseDelay <= 0 then MILLISECOND else baseDelay;
    var ceiling := if maxDelay <= 0 then base else maxDelay;
    var delay := DoubleUpTo(base, ceiling, attempt);
    Product(base, Pow2(if attempt < 0 then 0 else attempt));
    var half := delay / 2;
    if half <= 0 {
      return delay;
    }
    var j := jitter(delay - half);
    if j < 0 {
      j := 0;
    }
    if j > delay - half {
      j := delay - half;
    }
    r := half + j;
  }

  // ----- The attempt loop

  datatype Policy = Policy(maxAttempts: int, baseDelay: int, maxDelay: int, immediate: bool, deadline: int)

  function Attempts(p: Policy): (n: nat)
    ensures n >= 1
  {
    if p.maxAttempts < 1 then 1 else p.maxAttempts
  }

  /** The wait before retry number `retry`, with unbounded arithmetic. */
  function DelayOf(p: Policy, retry: int, jitter: int -> int): int
  {
    if p.immediate then 0
    else
      var base := if p.baseDelay <= 0 then DEFAULT_BASE else p.baseDelay;
      var ceiling := if p.maxDelay <= 0 then DEFAULT_MAX else p.maxDelay;
      Jittered(Backoff(base, ceiling, if retry < 1 then 0 else retry - 1), jitter)
  }

  method Delay(p: Policy, retry: int, jitter: int -> int) returns (r: int)
    requires p.baseDelay <= MAX_INT64 && p.maxDelay <= MAX_INT64
    ensures r == DelayOf(p, retry, jitter)
    ensures p.immediate ==> r == 0
    ensures !p.immediate ==>
              var base := if p.baseDelay <= 0 then 25_000_000 else p.baseDelay;
              var ceiling := if p.maxDelay <= 0 then 1_000_000_000 else p.maxDelay;
              var delay := Backoff(base, ceiling, if retry < 1 then 0 else retry - 1);
              delay / 2 <= r <= delay && 0 < r <= ceiling
  {
    if p.immediate {
      return 0;
    }
    var base := if p.baseDelay <= 0 then DEFAULT_BASE else p.baseDelay;
    var ceiling := if p.maxDelay <= 0 then DEFAULT_MAX else p.maxDelay;
    r := ExponentialJitterDelay(base, ceiling, retry - 1, jitter);
  }

  function UnmarkLoad(e: Error): Error
  {
    var loaded := First(e, IsLoad);
    if loaded.Some? && |loaded.value.causes| == 1 then loaded.value.causes[0] else e
  }

  function Returning(error: Option<Error>): Option<Error>
  {
    if error.None? then None else Some(UnmarkLoad(error.value))
  }

  /** The error the loop hands back: without the marks it was classified by. */
  function Unmarked(error: Option<Error>): Option<Error>
  {
    if error.Some? && First(error.value, IsInternal).Some? then
      var marked := First(error.value, IsInternal).value;
      if |marked.causes| == 1 then Some(marked.causes[0]) else error
    else Returning(error)
  }
}
