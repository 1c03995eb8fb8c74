/**
  The event store as its writers see it: stored events, stream heads, snapshots and outcome
  rows, with the conditions under which a commit, a catch-up snapshot and a compaction take
  effect. `World` keeps the true history beside the rows: every event ever committed, which a
  compaction removes from the rows and never from the history.
 */
module StreamStore {
  import opened Basics
  import opened Sequences
  import opened CommitLog
  import opened Commit

  datatype Rows = Rows(
    events: map<string, seq<Event>>, heads: map<string, int>,
    snapshots: map<string, Snapshot>, outcomes: map<string, Outcome>)

  function Log(rows: Rows, id: string): seq<Event>
  {
    if id in rows.events then rows.events[id] else []
  }

  function Head(rows: Rows, id: string): int
  {
    if id in rows.heads then rows.heads[id] else 0
  }

  function SnapshotOf(rows: Rows, id: string): Option<Snapshot>
  {
    if id in rows.snapshots then Some(rows.snapshots[id]) else None
  }

  /** The sequence through which a snapshot covers its stream. */
  function Covered(snapshot: Option<Snapshot>): int
  {
    if snapshot.Some? then snapshot.value.eventSequence else 0
  }

  // ----- The conditions of a commit

  predicate Continues(rows: Rows, id: string, stream: seq<Event>)
  {
    stream == [] ||
    (var first, last := stream[0].sequence, stream[|stream| - 1].sequence;
     && ((first == 1 && id !in rows.heads) || (first > 1 && Head(rows, id) == first - 1))
     && forall i | 0 <= i < |Log(rows, id)| :: !(first <= Log(rows, id)[i].sequence <= last))
  }

  predicate FenceHolds(rows: Rows, f: Fence)
  {
    Head(rows, f.entity) == f.head && (f.entity in rows.heads || f.head == 0)
  }

  predicate SnapshotFollows(rows: Rows, s: Snapshot)
  {
    s.sequence == 1 + if s.entity in rows.snapshots then rows.snapshots[s.entity].sequence else 0
  }

  predicate OutcomeFree(rows: Rows, n: SerializedResult)
  {
    n.outcome.Some? ==> n.outcome.value.commandID !in rows.outcomes
  }

  ghost predicate StreamsUnmoved(rows: Rows, n: SerializedResult)
  {
    && (forall id :: Continues(rows, id, Stream(n.events, id)))
    && (forall f | f in n.fences :: FenceHolds(rows, f))
    && (forall s | s in n.snapshots :: SnapshotFollows(rows, s))
  }

  /** The condition of a normalized commit: its outcome row is free and nothing it relies on moved. */
  ghost predicate Admits(rows: Rows, n: SerializedResult)
  {
    OutcomeFree(rows, n) && StreamsUnmoved(rows, n)
  }

  // ----- The effect of a commit

  function AppendTo(logs: map<string, seq<Event>>, events: seq<Event>): map<string, seq<Event>>
  {
    map id | id in logs.Keys + Writes(events) :: (if id in logs then logs[id] else []) + Stream(events, id)
  }

  function Raise(heads: map<string, int>, events: seq<Event>): map<string, int>
  {
    map id | id in heads.Keys + Writes(events) ::
      var head, stream := if id in heads then heads[id] else 0, Stream(events, id);
      if stream != [] && stream[|stream| - 1].sequence > head then stream[|stream| - 1].sequence else head
  }

  function PutSnapshots(stored: map<string, Snapshot>, snapshots: seq<Snapshot>): map<string, Snapshot>
  {
    if snapshots == [] then stored
    else
      var last := snapshots[|snapshots| - 1];
      PutSnapshots(stored, snapshots[..|snapshots| - 1])[last.entity := last]
  }

  function Applied(rows: Rows, n: SerializedResult): Rows
  {
    Rows(
      AppendTo(rows.events, n.events),
      Raise(rows.heads, n.events),
      PutSnapshots(rows.snapshots, n.snapshots),
      if n.outcome.None? then rows.outcomes
      else rows.outcomes[n.outcome.value.commandID := n.outcome.value])
  }

  lemma {:induction false} AppendedLog(logs: map<string, seq<Event>>, events: seq<Event>, id: string)
    ensures var after := AppendTo(logs, events);
            (if id in after then after[id] else []) == (if id in logs then logs[id] else []) + Stream(events, id)
  {
    WritesAreStreams(events, id);
  }

  lemma {:induction false} PutSnapshot(stored: map<string, Snapshot>, snapshots: seq<Snapshot>, id: string)
    ensures var after := PutSnapshots(stored, snapshots);
            || (id in after && after[id] in snapshots && after[id].entity == id)
            || ((id in after <==> id in stored) && (id in after ==> after[id] == stored[id])
                && forall s | s in snapshots :: s.entity != id)
  {
    if snapshots != [] {
      PutSnapshot(stored, snapshots[..|snapshots| - 1], id);
      assert snapshots == snapshots[..|snapshots| - 1] + [snapshots[|snapshots| - 1]];
    }
  }

  // ----- The aggregate a stream's events build

  /** What an aggregate is given: the type and payload of a stored event. */
  datatype Fact = Fact(entityType: string, payload: string)

  function FactOf(e: Event): Fact { Fact(e.entityType, e.payload) }

  /** The aggregate's state as its JSON text; an aggregate may refuse a fact. */
  datatype Machine = Machine(init: string -> string, apply: (string, Fact) -> Option<string>)

  function Step(m: Machine, state: Option<string>, e: Event): Option<string>
  {
    if state.None? then None else m.apply(state.value, FactOf(e))
  }

  /** The state a stream's events build, from nothing. */
  function Fold(m: Machine, id: string, events: seq<Event>): Option<string>
  {
    if events == [] then Some(m.init(id))
    else Step(m, Fold(m, id, events[..|events| - 1]), events[|events| - 1])
  }

  lemma {:induction false} FoldSnoc(m: Machine, id: string, events: seq<Event>, n: nat)
    requires n < |events|
    ensures Fold(m, id, events[..n + 1]) == Step(m, Fold(m, id, events[..n]), events[n])
  {
    assert events[..n + 1][..n] == events[..n];
  }

  // ----- The world: rows and true history

  datatype World = World(rows: Rows, history: map<string, seq<Event>>)

  const EMPTY := World(Rows(map[], map[], map[], map[]), map[])

  function History(w: World, id: string): seq<Event>
  {
    if id in w.history then w.history[id] else []
  }

  /** Every event has the sequence of its place. */
  predicate Numbered(h: seq<Event>, id: string)
  {
    forall i | 0 <= i < |h| :: h[i].sequence == i + 1 && h[i].entity == id
  }

  /** Stored events are events of the history, in order. */
  predicate Genuine(h: seq<Event>, log: seq<Event>)
  {
    && (forall i | 0 <= i < |log| :: 1 <= log[i].sequence <= |h| && log[i] == h[log[i].sequence - 1])
    && (forall i, j | 0 <= i < j < |log| :: log[i].sequence < log[j].sequence)
  }

  /** Only events a snapshot covers are missing. */
  predicate KeepsUncovered(h: seq<Event>, log: seq<Event>, covered: int)
  {
    forall q | 0 <= q < |h| && covered <= q :: h[q] in log
  }

  predicate TrueSnapshot(m: Machine, id: string, h: seq<Event>, snapshot: Option<Snapshot>)
  {
    snapshot.Some? ==>
      && snapshot.value.entity == id
      && 1 <= snapshot.value.eventSequence <= |h|
      && Fold(m, id, h[..snapshot.value.eventSequence]) == Some(snapshot.value.payload)
  }

  predicate TrueRows(m: Machine, id: string, h: seq<Event>, log: seq<Event>, snapshot: Option<Snapshot>)
  {
    && Numbered(h, id)
    && Genuine(h, log)
    && TrueSnapshot(m, id, h, snapshot)
    && KeepsUncovered(h, log, Covered(snapshot))
  }

  predicate StreamInv(m: Machine, w: World, id: string)
  {
    && Head(w.rows, id) == |History(w, id)| && (id in w.rows.heads <==> History(w, id) != [])
    && TrueRows(m, id, History(w, id), Log(w.rows, id), SnapshotOf(w.rows, id))
  }

  ghost predicate Inv(m: Machine, w: World)
  {
    forall id :: StreamInv(m, w, id)
  }

  /** The history only grows, and an outcome row never changes. */
  ghost predicate Grows(v: World, w: World)
  {
    && (forall id :: History(v, id) <= History(w, id))
    && (forall c | c in v.rows.outcomes :: c in w.rows.outcomes && w.rows.outcomes[c] == v.rows.outcomes[c])
  }

  // ----- The steps of the store

  datatype StoreStep =
    | CommitStep(commit: SerializedResult)          // a normalized commit
    | CompactStep(entity: string, gone: set<int>)   // deletes covered events, in any portions
    | CatchUpStep(snapshot: Snapshot)               // a snapshot put outside any commit

  function Compacted(log: seq<Event>, gone: set<int>): seq<Event>
  {
    Filter((e: Event) => e.sequence !in gone, log)
  }

  /** A compaction deletes exactly the named events, and the rest keeps its order. */
  lemma {:induction false} CompactedExactly(h: seq<Event>, log: seq<Event>, gone: set<int>)
    requires Genuine(h, log)
    ensures Genuine(h, Compacted(log, gone))
    ensures forall e :: e in Compacted(log, gone) <==> e in log && e.sequence !in gone
  {
    var kept := (e: Event) => e.sequence !in gone;
    FilteredIsGenuine(h, log, kept);
    forall e ensures e in Filter(kept, log) <==> e in log && e.sequence !in gone { FilterMember(kept, log, e); }
  }

  ghost predicate Enabled(w: World, step: StoreStep)
  {
    match step
    case CommitStep(n) => Admits(w.rows, n)
    case CompactStep(id, gone) =>
      id in w.rows.snapshots && forall q | q in gone :: q <= w.rows.snapshots[id].eventSequence
    case CatchUpStep(s) =>
      && (s.entity in w.rows.snapshots ==> w.rows.snapshots[s.entity].eventSequence <= s.eventSequence)
      && s.entity in w.rows.heads && s.eventSequence <= w.rows.heads[s.entity]
  }

  function Next(w: World, step: StoreStep): World
  {
    match step
    case CommitStep(n) => World(Applied(w.rows, n), AppendTo(w.history, n.events))
    case CompactStep(id, gone) =>
      w.(rows := w.rows.(events := w.rows.events[id := Compacted(Log(w.rows, id), gone)]))
    case CatchUpStep(s) =>
      w.(rows := w.rows.(snapshots := w.rows.snapshots[s.entity := s]))
  }

  lemma {:induction false} StepGrows(w: World, step: StoreStep)
    requires Enabled(w, step)
    ensures Grows(w, Next(w, step))
  {
    if step.CommitStep? {
      forall id ensures History(w, id) <= History(Next(w, step), id) {
        AppendedLog(w.history, step.commit.events, id);
      }
    }
  }

  /** A commit's snapshots hold the state its streams reach with it. */
  ghost predicate HonestSnapshots(m: Machine, w: World, n: SerializedResult)
  {
    forall s | s in n.snapshots ::
      Fold(m, s.entity, History(w, s.entity) + Stream(n.events, s.entity)) == Some(s.payload)
  }

  /** Each written stream is contiguous, and each snapshot covers its stream's last event. */
  ghost predicate Contiguous(n: SerializedResult)
  {
    && (forall id :: ContiguousStream(Stream(n.events, id), id))
    && (forall s | s in n.snapshots :: Covers(s, Stream(n.events, s.entity)))
  }

  predicate ContiguousStream(stream: seq<Event>, id: string)
  {
    forall i | 0 <= i < |stream| ::
      stream[i].entity == id && 1 <= stream[0].sequence && stream[i].sequence == stream[0].sequence + i
  }

  lemma {:induction false} NormalizedIsContiguous(r: SerializedResult)
    requires WellFormed(r)
    ensures Contiguous(Normalized(r))
  {
    var n := Normalized(r);
    forall id ensures ContiguousStream(Stream(n.events, id), id) { StreamsAreContiguous(r, id); }
    NormalizedIsWellFormed(r);
    forall s | s in n.snapshots ensures Covers(s, Stream(n.events, s.entity)) {
      var i :| 0 <= i < |n.snapshots| && n.snapshots[i] == s;
    }
  }

  // ----- Commits keep the invariant

  /** Appending a contiguous run at the head. */
  lemma {:induction false} AppendedHistory(h: seq<Event>, log: seq<Event>, stream: seq<Event>, id: string, covered: int)
    requires Numbered(h, id) && Genuine(h, log) && KeepsUncovered(h, log, covered)
    requires ContiguousStream(stream, id) && (stream != [] ==> stream[0].sequence == |h| + 1)
    ensures Numbered(h + stream, id) && Genuine(h + stream, log + stream)
    ensures KeepsUncovered(h + stream, log + stream, covered)
  {
    AppendedIsGenuine(h, log, stream, id);
    forall q | 0 <= q < |h + stream| && covered <= q ensures (h + stream)[q] in log + stream {
      if q < |h| { assert h[q] in log; } else { assert (h + stream)[q] == stream[q - |h|]; }
    }
  }

  lemma {:induction false} AppendedIsGenuine(h: seq<Event>, log: seq<Event>, stream: seq<Event>, id: string)
    requires Numbered(h, id) && Genuine(h, log)
    requires ContiguousStream(stream, id) && (stream != [] ==> stream[0].sequence == |h| + 1)
    ensures Genuine(h + stream, log + stream)
  {
    var after := log + stream;
    forall i | 0 <= i < |after| ensures 1 <= after[i].sequence <= |h + stream|
                                     && after[i] == (h + stream)[after[i].sequence - 1] {
      if i < |log| { assert after[i] == log[i]; } else { assert after[i] == stream[i - |log|]; }
    }
  }

  /** A stream's snapshot after a commit: the commit's own, or the one before it. */
  predicate SnapshotAfter(
    m: Machine, id: string, h: seq<Event>, stream: seq<Event>, before: Option<Snapshot>, after: Option<Snapshot>)
  {
    || after == before
    || (after.Some? && after.value.entity == id && Covers(after.value, stream)
        && Fold(m, id, h + stream) == Some(after.value.payload))
  }

  lemma {:induction false} AppendedSnapshot(
    m: Machine, id: string, h: seq<Event>, stream: seq<Event>, before: Option<Snapshot>, after: Option<Snapshot>)
    requires TrueSnapshot(m, id, h, before) && SnapshotAfter(m, id, h, stream, before, after)
    requires ContiguousStream(stream, id) && (stream != [] ==> stream[0].sequence == |h| + 1)
    ensures TrueSnapshot(m, id, h + stream, after) && Covered(before) <= Covered(after)
  {
    if after == before {
      if after.Some? { assert (h + stream)[..after.value.eventSequence] == h[..after.value.eventSequence]; }
    } else {
      assert stream[|stream| - 1].sequence == |h + stream|;
      assert (h + stream)[..|h + stream|] == h + stream;
    }
  }

  lemma {:induction false} AppendKeeps(
    m: Machine, id: string, h: seq<Event>, log: seq<Event>, stream: seq<Event>, before: Option<Snapshot>,
    after: Option<Snapshot>)
    requires TrueRows(m, id, h, log, before) && SnapshotAfter(m, id, h, stream, before, after)
    requires ContiguousStream(stream, id) && (stream != [] ==> stream[0].sequence == |h| + 1)
    ensures TrueRows(m, id, h + stream, log + stream, after)
  {
    AppendedSnapshot(m, id, h, stream, before, after);
    AppendedHistory(h, log, stream, id, Covered(before));
    LessIsMissing(h + stream, log + stream, Covered(before), Covered(after));
  }

  lemma {:induction false} CommittedRows(m: Machine, w: World, n: SerializedResult, id: string)
    requires HonestSnapshots(m, w, n) && Contiguous(n)
    ensures var next := Next(w, CommitStep(n));
            && History(next, id) == History(w, id) + Stream(n.events, id)
            && Log(next.rows, id) == Log(w.rows, id) + Stream(n.events, id)
            && SnapshotAfter(m, id, History(w, id), Stream(n.events, id), SnapshotOf(w.rows, id),
                             SnapshotOf(next.rows, id))
  {
    AppendedLog(w.history, n.events, id);
    AppendedLog(w.rows.events, n.events, id);
    PutSnapshot(w.rows.snapshots, n.snapshots, id);
  }

  lemma {:induction false} CommittedHead(w: World, n: SerializedResult, id: string)
    requires Head(w.rows, id) == |History(w, id)| && (id in w.rows.heads <==> History(w, id) != [])
    requires Continues(w.rows, id, Stream(n.events, id)) && ContiguousStream(Stream(n.events, id), id)
    ensures var next, stream := Next(w, CommitStep(n)), Stream(n.events, id);
            && Head(next.rows, id) == |History(w, id) + stream|
            && (id in next.rows.heads <==> History(w, id) + stream != [])
            && (stream != [] ==> stream[0].sequence == |History(w, id)| + 1)
  {
    WritesAreStreams(n.events, id);
    var stream := Stream(n.events, id);
    if stream != [] { assert stream[|stream| - 1].sequence == stream[0].sequence + |stream| - 1; }
  }

  lemma {:induction false} CommitKeepsStream(m: Machine, w: World, n: SerializedResult, id: string)
    requires StreamInv(m, w, id) && HonestSnapshots(m, w, n) && Contiguous(n) && Admits(w.rows, n)
    ensures StreamInv(m, Next(w, CommitStep(n)), id)
    ensures History(Next(w, CommitStep(n)), id) == History(w, id) + Stream(n.events, id)
  {
    assert Continues(w.rows, id, Stream(n.events, id)) && ContiguousStream(Stream(n.events, id), id);
    CommittedHead(w, n, id);
    CommittedRows(m, w, n, id);
    AppendKeeps(m, id, History(w, id), Log(w.rows, id), Stream(n.events, id),
                SnapshotOf(w.rows, id), SnapshotOf(Next(w, CommitStep(n)).rows, id));
  }

  lemma {:induction false} LessIsMissing(h: seq<Event>, log: seq<Event>, covered: int, more: int)
    requires KeepsUncovered(h, log, covered) && covered <= more
    ensures KeepsUncovered(h, log, more)
  {}

  // ----- Compaction and catch-up keep the invariant

  lemma {:induction false} CompactedLog(h: seq<Event>, log: seq<Event>, gone: set<int>, covered: int)
    requires Genuine(h, log) && KeepsUncovered(h, log, covered)
    requires forall q | q in gone :: q <= covered
    requires forall i | 0 <= i < |h| :: h[i].sequence == i + 1
    ensures Genuine(h, Compacted(log, gone)) && KeepsUncovered(h, Compacted(log, gone), covered)
  {
    var p := (e: Event) => e.sequence !in gone;
    FilteredIsGenuine(h, log, p);
    forall q | 0 <= q < |h| && covered <= q ensures h[q] in Filter(p, log) {
      FilterMember(p, log, h[q]);
    }
  }

  lemma {:induction false} FilteredIsGenuine(h: seq<Event>, log: seq<Event>, p: Event -> bool)
    requires Genuine(h, log)
    ensures Genuine(h, Filter(p, log))
  {
    if log != [] {
      var front, e := log[..|log| - 1], log[|log| - 1];
      FilteredIsGenuine(h, front, p);
      if p(e) {
        forall x | x in Filter(p, front) ensures x.sequence < e.sequence {
          FilterMember(p, front, x);
          var i :| 0 <= i < |front| && front[i] == x;
          assert log[i].sequence < log[|log| - 1].sequence;
        }
      }
    }
  }

  /** A catch-up snapshot holds the state of the events it covers. */
  predicate HonestCatchUp(m: Machine, w: World, s: Snapshot)
  {
    1 <= s.eventSequence <= |History(w, s.entity)|
    && Fold(m, s.entity, History(w, s.entity)[..s.eventSequence]) == Some(s.payload)
  }

  ghost predicate Honest(m: Machine, w: World, step: StoreStep)
  {
    match step
    case CommitStep(n) => Contiguous(n) && HonestSnapshots(m, w, n)
    case CompactStep(_, _) => true
    case CatchUpStep(s) => HonestCatchUp(m, w, s)
  }

  lemma {:induction false} MaintenanceKeepsStream(m: Machine, w: World, step: StoreStep, id: string)
    requires StreamInv(m, w, id) && Enabled(w, step) && Honest(m, w, step) && !step.CommitStep?
    ensures StreamInv(m, Next(w, step), id)
  {
    var h, log := History(w, id), Log(w.rows, id);
    match step
    case CompactStep(entity, gone) =>
      if entity == id { CompactedLog(h, log, gone, Covered(SnapshotOf(w.rows, id))); }
    case CatchUpStep(s) =>
      if s.entity == id { LessIsMissing(h, log, Covered(SnapshotOf(w.rows, id)), s.eventSequence); }
  }

  /** Every enabled step with honest snapshots keeps the store's invariant. */
  lemma {:induction false} StepKeepsInv(m: Machine, w: World, step: StoreStep)
    requires Inv(m, w) && Enabled(w, step) && Honest(m, w, step)
    ensures Inv(m, Next(w, step))
  {
    forall id ensures StreamInv(m, Next(w, step), id) {
      assert StreamInv(m, w, id);
      if step.CommitStep? { CommitKeepsStream(m, w, step.commit, id); } else { MaintenanceKeepsStream(m, w, step, id); }
    }
  }

}
