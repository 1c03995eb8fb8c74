/**
  Snapshots over every run: a commit takes one exactly when its batch crosses a multiple of the
  stream's interval, so no stream gets an interval ahead of its newest snapshot, and a load that
  writes a catch-up snapshot makes its own command's commit fail exactly when that commit takes a
  snapshot too.
 */
module SnapshotRuns {
  import opened CommitLog
  import opened Commit
  import opened StreamStore
  import opened Load
  import opened Transaction
  import opened Serial

  ghost predicate Snapshotted(n: SerializedResult, id: string)
  {
    exists s | s in n.snapshots :: s.entity == id
  }

  // ----- When a commit takes a snapshot

  lemma {:induction false} SnapshottedExactly(m: Machine, cfg: Config, ex: Execution, i: nat)
    requires Consistent(ex) && i < |ex.loads|
    ensures var o := ex.loads[i];
            Snapshotted(Normalized(CommitOf(m, cfg, ex)), o.entity) <==>
            TakesEffect(m, ex) && TakesSnapshot(AppendedStream(m, o, Decides(ex).writes), o.entity, cfg.interval)
  {
    var o, writes := ex.loads[i], Decides(ex).writes;
    ReadSetLists(m, ex.loads, writes);
    assert Entities(ex.loads)[i] == o.entity;
    CommittedSnapshots(m, cfg, ex, Captured(o.entity, AppendedStream(m, o, writes)));
    if Snapshotted(Normalized(CommitOf(m, cfg, ex)), o.entity) {
      var s :| s in Normalized(CommitOf(m, cfg, ex)).snapshots && s.entity == o.entity;
      CommittedSnapshots(m, cfg, ex, s);
    }
  }

  lemma {:induction false} NothingCrosses(current: nat, size: int)
    ensures CalculateAdditionalEvents(current, 0, size) == 0
  {}

  lemma {:induction false} CalculatedSnapshot(m: Machine, cfg: Config, w: World, ex: Execution, i: nat)
    requires Consistent(ex) && SawCurrent(m, w, ex.loads) && i < |ex.loads|
    ensures var n, o := Normalized(CommitOf(m, cfg, ex)), ex.loads[i];
            var crossed := CalculateAdditionalEvents(
                             |History(w, o.entity)|, |Stream(n.events, o.entity)|, cfg.interval.SizeOf(o.entityType));
            Snapshotted(n, o.entity) <==>
            crossed > 0 && cfg.interval.fits(Captured(o.entity, AppendedStream(m, o, Decides(ex).writes)))
  {
    var o := ex.loads[i];
    SnapshottedExactly(m, cfg, ex, i);
    CommittedStreams(m, cfg, ex, i);
    assert o.loaded.head == |History(w, o.entity)|;
    NothingCrosses(o.loaded.head, cfg.interval.SizeOf(o.entityType));
  }

  /** A batch that takes the stream's length to or past a multiple of the size. */
  predicate Crosses(before: nat, count: nat, size: int)
  {
    size > 0 && before / size < (before + count) / size
  }

  /**
    A commit takes a snapshot of a stream it read exactly when its batch crosses a multiple of the
    interval of the stream's type and the snapshot is small enough to write.
   */
  lemma {:induction false} CrossingTakesSnapshot(m: Machine, cfg: Config, w: World, ex: Execution, i: nat)
    requires Consistent(ex) && SawCurrent(m, w, ex.loads) && i < |ex.loads|
    ensures var n, o := Normalized(CommitOf(m, cfg, ex)), ex.loads[i];
            Snapshotted(n, o.entity) <==>
            && Crosses(|History(w, o.entity)|, |Stream(n.events, o.entity)|, cfg.interval.SizeOf(o.entityType))
            && cfg.interval.fits(Captured(o.entity, AppendedStream(m, o, Decides(ex).writes)))
  {
    var n, o := Normalized(CommitOf(m, cfg, ex)), ex.loads[i];
    CalculatedSnapshot(m, cfg, w, ex, i);
    CrossesExactly(|History(w, o.entity)|, |Stream(n.events, o.entity)|, cfg.interval.SizeOf(o.entityType));
  }

  lemma {:induction false} CrossesExactly(before: nat, count: nat, size: int)
    ensures CalculateAdditionalEvents(before, count, size) > 0 <==> Crosses(before, count, size)
  {
    if size > 0 { SnapshotsAtMultiples(before, count, size); }
  }

  /** A stream the transaction did not read gets neither events nor a snapshot. */
  lemma {:induction false} UnreadIsUntouched(m: Machine, cfg: Config, ex: Execution, id: string)
    requires Consistent(ex) && id !in Entities(ex.loads)
    ensures var n := Normalized(CommitOf(m, cfg, ex)); Stream(n.events, id) == [] && !Snapshotted(n, id)
  {
    var n := Normalized(CommitOf(m, cfg, ex));
    if Stream(n.events, id) != [] { UnreadIsUnwritten(m, cfg, ex, id); }
    forall s | s in n.snapshots ensures s.entity != id { CommittedSnapshots(m, cfg, ex, s); }
  }

  // ----- The snapshot interval, over every run

  predicate RecentIn(size: int, w: World, id: string)
    requires size > 0
  {
    Recent(size, |History(w, id)|, Covered(SnapshotOf(w.rows, id)))
  }

  /** The stream is only ever read as one type. */
  predicate ReadAs(ex: Execution, id: string, entityType: string)
  {
    forall i | 0 <= i < |ex.loads| :: ex.loads[i].entity == id ==> ex.loads[i].entityType == entityType
  }

  predicate AlwaysReadAs(steps: seq<RunStep>, id: string, entityType: string)
  {
    forall k | 0 <= k < |steps| :: steps[k].Commits? ==> ReadAs(steps[k].ex, id, entityType)
  }

  /** No snapshot of the stream is too large to write. */
  ghost predicate AlwaysFits(interval: Interval, id: string)
  {
    forall s: Snapshot | s.entity == id :: interval.fits(s)
  }

  lemma {:induction false} SnapshottedThroughEnd(w: World, n: SerializedResult, id: string)
    requires Head(w.rows, id) == |History(w, id)| && (id in w.rows.heads <==> History(w, id) != [])
    requires Contiguous(n) && Continues(w.rows, id, Stream(n.events, id)) && Stream(n.events, id) != []
    requires Snapshotted(n, id)
    ensures Covered(SnapshotOf(Applied(w.rows, n), id)) == |History(w, id)| + |Stream(n.events, id)|
  {
    var stream := Stream(n.events, id);
    PutSnapshot(w.rows.snapshots, n.snapshots, id);
    assert ContiguousStream(stream, id);
    assert stream[|stream| - 1].sequence == stream[0].sequence + |stream| - 1;
  }

  /** How a commit moves a stream's length and what its snapshot covers. */
  ghost predicate Moved(w: World, next: World, n: SerializedResult, id: string)
  {
    var stream := Stream(n.events, id);
    && History(next, id) == History(w, id) + stream
    && Covered(SnapshotOf(w.rows, id)) <= Covered(SnapshotOf(next.rows, id))
    && (stream != [] && Snapshotted(n, id) ==> Covered(SnapshotOf(next.rows, id)) == |History(w, id)| + |stream|)
  }

  lemma {:induction false} CommitMovesSnapshot(m: Machine, w: World, n: SerializedResult, id: string)
    requires StreamInv(m, w, id) && Admits(w.rows, n) && Contiguous(n) && HonestSnapshots(m, w, n)
    ensures Moved(w, Next(w, CommitStep(n)), n, id)
  {
    var stream, next := Stream(n.events, id), Next(w, CommitStep(n));
    assert Continues(w.rows, id, stream) && ContiguousStream(stream, id);
    CommittedHead(w, n, id);
    CommittedRows(m, w, n, id);
    AppendedSnapshot(m, id, History(w, id), stream, SnapshotOf(w.rows, id), SnapshotOf(next.rows, id));
    if stream != [] && Snapshotted(n, id) { SnapshottedThroughEnd(w, n, id); }
  }

  lemma {:induction false} MovedKeepsRecent(w: World, next: World, n: SerializedResult, size: int, id: string)
    requires size > 0 && RecentIn(size, w, id) && Moved(w, next, n, id)
    requires CalculateAdditionalEvents(|History(w, id)|, |Stream(n.events, id)|, size) > 0 ==> Snapshotted(n, id)
    ensures RecentIn(size, next, id)
  {
    var length, count := |History(w, id)|, |Stream(n.events, id)|;
    if count == 0 { NothingCrosses(length, size); }
    BatchKeepsRecent(size, length, count, Covered(SnapshotOf(w.rows, id)), Covered(SnapshotOf(next.rows, id)));
  }

  lemma {:induction false} CrossingIsSnapshotted(
    m: Machine, cfg: Config, w: World, ex: Execution, id: string, entityType: string)
    requires Consistent(ex) && SawCurrent(m, w, ex.loads)
    requires ReadAs(ex, id, entityType) && AlwaysFits(cfg.interval, id)
    ensures var n, size := Normalized(CommitOf(m, cfg, ex)), cfg.interval.SizeOf(entityType);
            CalculateAdditionalEvents(|History(w, id)|, |Stream(n.events, id)|, size) > 0 ==> Snapshotted(n, id)
  {
    if id in Entities(ex.loads) {
      var i :| 0 <= i < |Entities(ex.loads)| && Entities(ex.loads)[i] == id;
      assert ex.loads[i].entity == id;
      CalculatedSnapshot(m, cfg, w, ex, i);
    } else {
      UnreadIsUntouched(m, cfg, ex, id);
      NothingCrosses(|History(w, id)|, cfg.interval.SizeOf(entityType));
    }
  }

  lemma {:induction false} OtherStepsKeepRecent(m: Machine, cfg: Config, w: World, step: RunStep, size: int, id: string)
    requires !step.Commits? && Enabled(w, StepOf(m, cfg, step)) && size > 0 && RecentIn(size, w, id)
    requires step.CatchesUp? ==> step.read.loaded.head >= 1
    ensures RecentIn(size, Next(w, StepOf(m, cfg, step)), id)
  {
    if step.Records? { AppendNothing(w.history); }
  }

  lemma {:induction false} StepKeepsRecent(
    m: Machine, cfg: Config, worlds: seq<World>, step: RunStep, next: World, id: string, entityType: string)
    requires worlds != [] && RunInv(m, worlds) && ValidStep(m, cfg, worlds, step, next)
    requires cfg.interval.SizeOf(entityType) > 0 && AlwaysFits(cfg.interval, id)
    requires step.Commits? ==> ReadAs(step.ex, id, entityType)
    requires RecentIn(cfg.interval.SizeOf(entityType), worlds[|worlds| - 1], id)
    ensures RecentIn(cfg.interval.SizeOf(entityType), next, id)
  {
    var w, size := worlds[|worlds| - 1], cfg.interval.SizeOf(entityType);
    if step.Commits? {
      StepIsHonest(m, cfg, worlds, step);
      assert StreamInv(m, w, id);
      CrossingIsSnapshotted(m, cfg, w, step.ex, id, entityType);
      CommitMovesSnapshot(m, w, Normalized(CommitOf(m, cfg, step.ex)), id);
      MovedKeepsRecent(w, next, Normalized(CommitOf(m, cfg, step.ex)), size, id);
    } else {
      OtherStepsKeepRecent(m, cfg, w, step, size, id);
    }
  }

  lemma {:induction false} StepKeepsRecentInRun(
    m: Machine, cfg: Config, worlds: seq<World>, steps: seq<RunStep>, k: nat, id: string, entityType: string)
    requires ValidRun(m, cfg, worlds, steps) && k < |steps|
    requires cfg.interval.SizeOf(entityType) > 0 && AlwaysFits(cfg.interval, id) && AlwaysReadAs(steps, id, entityType)
    requires RecentIn(cfg.interval.SizeOf(entityType), worlds[k], id)
    ensures RecentIn(cfg.interval.SizeOf(entityType), worlds[k + 1], id)
  {
    RunKeepsInvariant(m, cfg, worlds, steps, k);
    StepOfRun(m, cfg, worlds, steps, k);
    assert steps[k].Commits? ==> ReadAs(steps[k].ex, id, entityType);
    StepKeepsRecent(m, cfg, worlds[..k + 1], steps[k], worlds[k + 1], id, entityType);
  }

  lemma {:induction false} StartsRecent(size: int, id: string)
    requires size > 0
    ensures RecentIn(size, EMPTY, id)
  {}

  lemma {:induction false} RunKeepsRecent(
    m: Machine, cfg: Config, worlds: seq<World>, steps: seq<RunStep>, n: nat, id: string, entityType: string)
    requires ValidRun(m, cfg, worlds, steps) && n <= |steps|
    requires cfg.interval.SizeOf(entityType) > 0 && AlwaysFits(cfg.interval, id) && AlwaysReadAs(steps, id, entityType)
    ensures RecentIn(cfg.interval.SizeOf(entityType), worlds[n], id)
  {
    if n == 0 {
      StartsRecent(cfg.interval.SizeOf(entityType), id);
    } else {
      var k := n - 1;
      RunKeepsRecent(m, cfg, worlds, steps, k, id, entityType);
      StepKeepsRecentInRun(m, cfg, worlds, steps, k, id, entityType);
    }
  }

  /**
    A stream read as one type whose interval is positive, and whose snapshots are small enough to
    write, is in no world of any run an interval or more ahead of its newest snapshot.
   */
  lemma {:induction false} SnapshotsStayNear(
    m: Machine, cfg: Config, worlds: seq<World>, steps: seq<RunStep>, n: nat, id: string, entityType: string)
    requires ValidRun(m, cfg, worlds, steps) && n <= |steps|
    requires cfg.interval.SizeOf(entityType) > 0 && AlwaysFits(cfg.interval, id) && AlwaysReadAs(steps, id, entityType)
    ensures |History(worlds[n], id)| - Covered(SnapshotOf(worlds[n].rows, id)) < cfg.interval.SizeOf(entityType)
  {
    RunKeepsRecent(m, cfg, worlds, steps, n, id, entityType);
    RecentIsNear(cfg.interval.SizeOf(entityType), |History(worlds[n], id)|, Covered(SnapshotOf(worlds[n].rows, id)));
  }

  // ----- Catch-up and the command's own snapshot

  lemma {:induction false} SnapshotsDoNotMatter(a: Rows, b: Rows, id: string, stream: seq<Event>)
    requires a.events == b.events && a.heads == b.heads
    ensures Continues(a, id, stream) <==> Continues(b, id, stream)
  {
    assert Log(a, id) == Log(b, id);
  }

  /** Putting a snapshot leaves a commit admitted exactly when it holds none with the same sequence there. */
  lemma {:induction false} PutSnapshotRefuses(rows: Rows, n: SerializedResult, put: Snapshot)
    requires Admits(rows, n)
    requires forall s | s in n.snapshots && s.entity == put.entity :: s.sequence == put.sequence
    ensures Admits(rows.(snapshots := rows.snapshots[put.entity := put]), n) <==> !Snapshotted(n, put.entity)
  {
    var after := rows.(snapshots := rows.snapshots[put.entity := put]);
    forall id ensures Continues(after, id, Stream(n.events, id)) {
      assert Continues(rows, id, Stream(n.events, id));
      SnapshotsDoNotMatter(rows, after, id, Stream(n.events, id));
    }
    forall f | f in n.fences ensures FenceHolds(after, f) { assert FenceHolds(rows, f); }
    forall s | s in n.snapshots ensures SnapshotFollows(after, s) <==> s.entity != put.entity {
      assert SnapshotFollows(rows, s);
    }
  }

  lemma {:induction false} CatchUpAgainst(m: Machine, w: World, n: SerializedResult, o: Observation)
    requires StreamInv(m, w, o.entity) && o.loaded.head == |History(w, o.entity)| >= 1
    requires Admits(w.rows, n)
    requires forall s | s in n.snapshots && s.entity == o.entity :: s.sequence == o.loaded.snapshot + 1
    ensures var catchUp := CatchUpStep(CatchUpOf(o));
            Enabled(w, catchUp) && (Admits(Next(w, catchUp).rows, n) <==> !Snapshotted(n, o.entity))
  {
    PutSnapshotRefuses(w.rows, n, CatchUpOf(o));
  }

  /**
    A load's catch-up snapshot uses up the snapshot sequence it loaded. An admitted commit of the
    same command is still admitted after it exactly when it takes no snapshot of that stream;
    otherwise it is refused, and the command has to load again.
   */
  lemma {:induction false} CatchUpRefusesOwnSnapshot(m: Machine, cfg: Config, w: World, ex: Execution, i: nat)
    requires Inv(m, w) && Consistent(ex) && WellFormed(CommitOf(m, cfg, ex))
    requires forall k | 0 <= k < |ex.loads| :: ConsistentRead(m, w, ex.loads[k].entity, ex.loads[k].loaded)
    requires Admits(w.rows, Normalized(CommitOf(m, cfg, ex))) && i < |ex.loads| && ex.loads[i].loaded.head >= 1
    ensures var n, o, catchUp := Normalized(CommitOf(m, cfg, ex)), ex.loads[i], CatchUpStep(CatchUpOf(ex.loads[i]));
            Enabled(w, catchUp) && (Admits(Next(w, catchUp).rows, n) <==> !Snapshotted(n, o.entity))
  {
    var n, o := Normalized(CommitOf(m, cfg, ex)), ex.loads[i];
    CommitSawCurrent(m, cfg, w, ex);
    assert StreamInv(m, w, o.entity) && o.loaded.head == |History(w, o.entity)|;
    forall s | s in n.snapshots && s.entity == o.entity ensures s.sequence == o.loaded.snapshot + 1 {
      OwnSequence(m, cfg, ex, i, s);
    }
    CatchUpAgainst(m, w, n, o);
  }

  lemma {:induction false} OwnSequence(m: Machine, cfg: Config, ex: Execution, i: nat, s: Snapshot)
    requires Consistent(ex) && i < |ex.loads|
    requires s in Normalized(CommitOf(m, cfg, ex)).snapshots && s.entity == ex.loads[i].entity
    ensures s.sequence == ex.loads[i].loaded.snapshot + 1
  {
    ReadSetLists(m, ex.loads, Decides(ex).writes);
    CommittedSnapshots(m, cfg, ex, s);
  }
}
