/**
  Runs that happen: a command ID used on two streams whose log cannot be regrouped, a load whose
  catch-up snapshot makes its own command fail, and an unfenced decision that is stale when it is
  recorded.
 */
module Scenarios {
  import opened Basics
  import Order
  import opened Sequences
  import opened CommitLog
  import opened Commit
  import opened StreamStore
  import opened Load
  import opened Transaction
  import opened Serial
  import opened SnapshotRuns
  import opened LiveRuns
  import Topology

  // ----- A command that adds one event to each of some streams

  /** An aggregate that counts its events. */
  const MACHINE := Machine((id: string) => "", (s: string, f: Fact) => Some(s + "x"))

  const FACT := Fact("account", "")

  function Toucher(ids: seq<string>): Program
  {
    views =>
      if |views| < |ids| then ReadStream(ids[|views|])
      else Decide(None, map id | id in ids :: [FACT], [], map[])
  }

  function State(w: World, id: string): string
  {
    var state := Fold(MACHINE, id, History(w, id));
    if state.Some? then state.value else ""
  }

  /** A load of the stream's present end, without a snapshot. */
  function Loading(w: World, id: string, time: nat): Observation
  {
    Observation(id, "account", time, 0, Loaded(|History(w, id)|, 0, State(w, id), Commands(History(w, id))))
  }

  function Stamp(command: string): Metadata { Metadata(command, Some(command), None, None) }

  function Touch(w: World, ids: seq<string>, time: nat, command: string): Execution
  {
    Execution(Toucher(ids), Map(id => Loading(w, id, time), ids), Stamp(command))
  }

  function NthEvent(id: string, n: nat, command: string): Event
  {
    Event(EventID(id, n), id, "account", n, "", Stamp(command))
  }

  function Touched(w: World, id: string, command: string): Event
  {
    NthEvent(id, |History(w, id)| + 1, command)
  }

  lemma {:induction false} AlwaysFolds(id: string, events: seq<Event>)
    ensures Fold(MACHINE, id, events).Some?
  {
    if events != [] { AlwaysFolds(id, events[..|events| - 1]); }
  }

  /** The streams can be touched: none is reserved or full, none shows the command, and no snapshot is stored. */
  ghost predicate Touchable(w: World, ids: seq<string>, command: string)
  {
    && Inv(MACHINE, w) && w.rows.snapshots == map[] && NoRepeats(ids) && command != ""
    && forall id | id in ids ::
         && !Reserved(id) && |History(w, id)| + 1 < MAX_INT && command !in Commands(History(w, id))
  }

  lemma {:induction false} TouchIsConsistent(w: World, ids: seq<string>, time: nat, command: string)
    requires NoRepeats(ids)
    ensures var ex := Touch(w, ids, time, command);
            && Entities(ex.loads) == ids && Consistent(ex) && AllAccepted(MACHINE, ex) && Marked(ex) == (command != "")
            && Decides(ex) == Decide(None, map id | id in ids :: [FACT], [], map[])
  {
    var ex := Touch(w, ids, time, command);
    assert Entities(ex.loads) == ids;
    assert |Views(ex.loads)| == |ids|;
    forall i | 0 <= i < |ex.loads| ensures ex.program(Views(ex.loads[..i])) == ReadStream(ex.loads[i].entity) {
      assert |Views(ex.loads[..i])| == i;
    }
    forall i | 0 <= i < |ex.loads|
      ensures FoldFacts(MACHINE, Some(ex.loads[i].loaded.state), Pending(Decides(ex).writes, ex.loads[i].entity)).Some?
    {
      OneFact(ex.loads[i].loaded.state);
      assert ids[i] in ids;
    }
  }

  lemma {:induction false} OneFact(state: string)
    ensures FoldFacts(MACHINE, Some(state), [FACT]) == Some(state + "x")
  {
    FoldFactsSnoc(MACHINE, Some(state), [], FACT);
    assert [] + [FACT] == [FACT];
  }

  /** The read set of a touch: every stream at its end, with one fact appended. */
  lemma {:induction false} TouchedStreams(w: World, ids: seq<string>, time: nat, command: string, id: string)
    requires NoRepeats(ids) && id in ids
    ensures var ex := Touch(w, ids, time, command);
            var streams := ReadSet(MACHINE, ex.loads, Decides(ex).writes);
            && Lists(ids, streams) && id in streams
            && streams[id].entityType == "account" && streams[id].loaded == Loading(w, id, time).loaded
            && streams[id].pending == [FACT] && streams[id].state == State(w, id) + "x"
  {
    var ex := Touch(w, ids, time, command);
    TouchIsConsistent(w, ids, time, command);
    ReadSetLists(MACHINE, ex.loads, Decides(ex).writes);
    var i :| 0 <= i < |ids| && ids[i] == id;
    assert ex.loads[i] == Loading(w, id, time);
    OneFact(State(w, id));
  }

  lemma {:induction false} OneSerialized(w: World, id: string, command: string)
    ensures Serialized(id, |History(w, id)|, [FACT], Stamp(command)) == [Touched(w, id, command)]
  {}

  // ----- Its commit

  lemma {:induction false} TouchEvents(w: World, ids: seq<string>, time: nat, command: string, id: string)
    requires NoRepeats(ids)
    ensures var ex := Touch(w, ids, time, command);
            var streams := ReadSet(MACHINE, ex.loads, Decides(ex).writes);
            Stream(FlatMap(EventsOf(streams, ex.metadata), ids), id) ==
            if id in ids then [Touched(w, id, command)] else []
  {
    var ex := Touch(w, ids, time, command);
    StreamOfFlat(ReadSet(MACHINE, ex.loads, Decides(ex).writes), ex.metadata, ids, id);
    if id in ids {
      TouchedStreams(w, ids, time, command, id);
      OneSerialized(w, id, command);
    }
  }

  lemma {:induction false} NoFences(streams: map<string, TxStream>, order: seq<string>)
    requires forall id | id in order :: id in streams && streams[id].pending != []
    ensures FlatMap(FencesOf(streams, true), order) == []
  {
    if order != [] { NoFences(streams, order[..|order| - 1]); }
  }

  lemma {:induction false} SnapshotsDiffer(streams: map<string, TxStream>, interval: Interval, order: seq<string>)
    requires NoRepeats(order)
    ensures Order.DistinctKeys(FlatMap(SnapshotsOf(streams, interval), order), SnapshotKey)
  {
    if order != [] {
      var front, x := order[..|order| - 1], order[|order| - 1];
      SnapshotsDiffer(streams, interval, front);
      var before := FlatMap(SnapshotsOf(streams, interval), front);
      forall i | 0 <= i < |before| ensures before[i].entity != x {
        SnapshotOrigin(streams, interval, front, before[i]);
      }
    }
  }

  lemma {:induction false} TouchStreamsOK(w: World, ids: seq<string>, time: nat, command: string)
    requires Touchable(w, ids, command)
    ensures var ex := Touch(w, ids, time, command);
            StreamsOK(FlatMap(EventsOf(ReadSet(MACHINE, ex.loads, Decides(ex).writes), ex.metadata), ids), false)
  {
    var ex := Touch(w, ids, time, command);
    var events := FlatMap(EventsOf(ReadSet(MACHINE, ex.loads, Decides(ex).writes), ex.metadata), ids);
    forall id ensures StreamOK(Stream(events, id), false) {
      TouchEvents(w, ids, time, command, id);
      if id in ids { OneTouchOK(w, id, command); }
    }
  }

  lemma {:induction false} OneTouchOK(w: World, id: string, command: string)
    requires !Reserved(id)
    ensures StreamOK([Touched(w, id, command)], false)
  {}

  lemma {:induction false} TouchSnapshotsOK(
    interval: Interval, w: World, ids: seq<string>, time: nat, command: string)
    requires Touchable(w, ids, command)
    ensures var ex := Touch(w, ids, time, command);
            var streams := ReadSet(MACHINE, ex.loads, Decides(ex).writes);
            SnapshotsOK(FlatMap(SnapshotsOf(streams, interval), ids), FlatMap(EventsOf(streams, ex.metadata), ids))
  {
    var ex := Touch(w, ids, time, command);
    var streams := ReadSet(MACHINE, ex.loads, Decides(ex).writes);
    var snapshots, events := FlatMap(SnapshotsOf(streams, interval), ids), FlatMap(EventsOf(streams, ex.metadata), ids);
    SnapshotsDiffer(streams, interval, ids);
    forall i | 0 <= i < |snapshots| ensures Covers(snapshots[i], Stream(events, snapshots[i].entity)) {
      TouchSnapshotCovers(interval, w, ids, time, command, snapshots[i]);
    }
  }

  lemma {:induction false} TouchSnapshotCovers(
    interval: Interval, w: World, ids: seq<string>, time: nat, command: string, s: Snapshot)
    requires NoRepeats(ids)
    requires var ex := Touch(w, ids, time, command);
             s in FlatMap(SnapshotsOf(ReadSet(MACHINE, ex.loads, Decides(ex).writes), interval), ids)
    ensures var ex := Touch(w, ids, time, command);
            var streams := ReadSet(MACHINE, ex.loads, Decides(ex).writes);
            Covers(s, Stream(FlatMap(EventsOf(streams, ex.metadata), ids), s.entity))
  {
    var ex := Touch(w, ids, time, command);
    SnapshotOrigin(ReadSet(MACHINE, ex.loads, Decides(ex).writes), interval, ids, s);
    TouchedStreams(w, ids, time, command, s.entity);
    TouchEvents(w, ids, time, command, s.entity);
  }

  lemma {:induction false} TouchNeedsNoFence(w: World, ids: seq<string>, time: nat, command: string)
    requires NoRepeats(ids)
    ensures var ex := Touch(w, ids, time, command);
            FlatMap(FencesOf(ReadSet(MACHINE, ex.loads, Decides(ex).writes), true), ids) == []
  {
    var ex := Touch(w, ids, time, command);
    var streams := ReadSet(MACHINE, ex.loads, Decides(ex).writes);
    forall id | id in ids ensures id in streams && streams[id].pending != [] {
      TouchedStreams(w, ids, time, command, id);
    }
    NoFences(streams, ids);
  }

  lemma {:induction false} TouchIsWellFormed(cfg: Config, w: World, ids: seq<string>, time: nat, command: string)
    requires Touchable(w, ids, command)
    ensures var r := CommitOf(MACHINE, cfg, Touch(w, ids, time, command));
            WellFormed(r) && r.fences == [] && r.outcome.None?
  {
    TouchIsConsistent(w, ids, time, command);
    CommitParts(MACHINE, cfg, Touch(w, ids, time, command));
    TouchStreamsOK(w, ids, time, command);
    TouchSnapshotsOK(cfg.interval, w, ids, time, command);
    TouchNeedsNoFence(w, ids, time, command);
  }

  /** A plain commit that fences nothing and read every stream's end is admitted while no snapshot is stored. */
  lemma {:induction false} PlainIsAdmitted(m: Machine, cfg: Config, w: World, ex: Execution)
    requires Inv(m, w) && Consistent(ex) && WellFormed(CommitOf(m, cfg, ex)) && AllCurrent(w, ex.loads)
    requires Decides(ex).decision.None? && Decides(ex).fences == [] && w.rows.snapshots == map[]
    requires forall i | 0 <= i < |ex.loads| :: ex.loads[i].loaded.snapshot == 0
    ensures Admits(w.rows, Normalized(CommitOf(m, cfg, ex)))
  {
    AdmittedExactlyWhenCurrent(m, cfg, w, ex);
  }

  /** At the streams' end the commit is admitted. */
  lemma {:induction false} TouchIsAdmitted(cfg: Config, w: World, ids: seq<string>, time: nat, command: string)
    requires Touchable(w, ids, command)
    ensures Admits(w.rows, Normalized(CommitOf(MACHINE, cfg, Touch(w, ids, time, command))))
  {
    TouchIsConsistent(w, ids, time, command);
    TouchIsWellFormed(cfg, w, ids, time, command);
    TouchIsCurrent(w, ids, time, command);
    PlainIsAdmitted(MACHINE, cfg, w, Touch(w, ids, time, command));
  }

  lemma {:induction false} TouchIsCurrent(w: World, ids: seq<string>, time: nat, command: string)
    ensures var ex := Touch(w, ids, time, command);
            AllCurrent(w, ex.loads) && forall i | 0 <= i < |ex.loads| :: ex.loads[i].loaded.snapshot == 0
  {}

  lemma {:induction false} LoadingIsObserved(worlds: seq<World>, w: World, id: string)
    requires worlds != [] && worlds[|worlds| - 1] == w
    ensures Observed(MACHINE, worlds, Loading(w, id, |worlds| - 1))
  {
    var h := History(w, id);
    AlwaysFolds(id, h);
    assert h[..|h|] == h && h[0..|h|] == h;
  }

  lemma {:induction false} TouchIsUnrepeated(w: World, ids: seq<string>, time: nat, command: string)
    requires Touchable(w, ids, command)
    ensures Unrepeated(MACHINE, Touch(w, ids, time, command))
  {
    TouchIsConsistent(w, ids, time, command);
    forall i | 0 <= i < |ids|
      ensures var ex := Touch(w, ids, time, command);
              !RepeatedIn(ReadSet(MACHINE, ex.loads, Decides(ex).writes), ids[i], command)
    {
      assert ids[i] in ids;
      TouchedStreams(w, ids, time, command, ids[i]);
    }
  }

  lemma {:induction false} TouchIsBuilt(cfg: Config, worlds: seq<World>, w: World, ids: seq<string>, command: string)
    requires worlds != [] && worlds[|worlds| - 1] == w && Touchable(w, ids, command)
    ensures Built(MACHINE, cfg, worlds, Commits(Touch(w, ids, |worlds| - 1, command)))
  {
    var time := |worlds| - 1;
    var ex := Touch(w, ids, time, command);
    TouchIsConsistent(w, ids, time, command);
    TouchIsWellFormed(cfg, w, ids, time, command);
    TouchIsUnrepeated(w, ids, time, command);
    forall i | 0 <= i < |ex.loads| ensures Observed(MACHINE, worlds, ex.loads[i]) {
      LoadingIsObserved(worlds, w, ids[i]);
    }
  }

  /** The world a commit leaves. */
  function Committed(cfg: Config, w: World, ex: Execution): World
  {
    if Decides(ex).Decide? then Next(w, CommitStep(Normalized(CommitOf(MACHINE, cfg, ex)))) else w
  }

  /** A touch leaves one event more on each of the streams. */
  lemma {:induction false} TouchAdds(cfg: Config, w: World, ids: seq<string>, time: nat, command: string, id: string)
    requires NoRepeats(ids)
    ensures History(Committed(cfg, w, Touch(w, ids, time, command)), id) ==
            History(w, id) + if id in ids then [Touched(w, id, command)] else []
  {
    TouchIsConsistent(w, ids, time, command);
    var r := CommitOf(MACHINE, cfg, Touch(w, ids, time, command));
    CommitParts(MACHINE, cfg, Touch(w, ids, time, command));
    TouchEvents(w, ids, time, command, id);
    SortedStreams(r.events, id);
    AppendedLog(w.history, Normalized(r).events, id);
  }

  lemma {:induction false} RunContinues(
    m: Machine, cfg: Config, worlds: seq<World>, steps: seq<RunStep>, step: RunStep, next: World)
    requires ValidRun(m, cfg, worlds, steps) && ValidStep(m, cfg, worlds, step, next)
    ensures ValidRun(m, cfg, worlds + [next], steps + [step])
  {
    var all, more := worlds + [next], steps + [step];
    forall k | 0 <= k < |more| ensures ValidStep(m, cfg, all[..k + 1], more[k], all[k + 1]) {
      if k < |steps| {
        assert all[..k + 1] == worlds[..k + 1] && more[k] == steps[k] && all[k + 1] == worlds[k + 1];
        assert ValidStep(m, cfg, worlds[..k + 1], steps[k], worlds[k + 1]);
      } else {
        assert all[..k + 1] == worlds && more[k] == step && all[k + 1] == next;
      }
    }
  }

  /** A run that goes on with an admitted commit. */
  lemma {:induction false} CommitContinues(
    cfg: Config, worlds: seq<World>, steps: seq<RunStep>, w: World, ex: Execution)
    requires ValidRun(MACHINE, cfg, worlds, steps) && w == worlds[|steps|] && Built(MACHINE, cfg, worlds, Commits(ex))
    requires Admits(w.rows, Normalized(CommitOf(MACHINE, cfg, ex)))
    ensures ValidRun(MACHINE, cfg, worlds + [Committed(cfg, w, ex)], steps + [Commits(ex)])
    ensures Inv(MACHINE, Committed(cfg, w, ex))
  {
    RunContinues(MACHINE, cfg, worlds, steps, Commits(ex), Committed(cfg, w, ex));
    EndIsTrue(MACHINE, cfg, worlds + [Committed(cfg, w, ex)], steps + [Commits(ex)]);
  }

  /** A run that has left these streams and no snapshot. */
  ghost predicate Leaves(cfg: Config, worlds: seq<World>, steps: seq<RunStep>, h: map<string, seq<Event>>)
  {
    && ValidRun(MACHINE, cfg, worlds, steps) && Inv(MACHINE, worlds[|steps|]) && Holding(worlds[|steps|], h)
  }

  ghost predicate Holding(w: World, h: map<string, seq<Event>>)
  {
    w.rows.snapshots == map[] && forall id :: History(w, id) == Past(h, id)
  }

  /** The streams of `h` can be touched by the command, without crossing the interval. */
  predicate CanTouch(cfg: Config, h: map<string, seq<Event>>, ids: seq<string>, command: string)
  {
    && NoRepeats(ids) && command != ""
    && forall id | id in ids ::
         && !Reserved(id) && |Past(h, id)| + 1 < MAX_INT && command !in Commands(Past(h, id))
         && CalculateAdditionalEvents(|Past(h, id)|, 1, cfg.interval.SizeOf("account")) == 0
  }

  /** `after` is `h` with one event more on each of the streams. */
  ghost predicate Adds(h: map<string, seq<Event>>, ids: seq<string>, command: string, after: map<string, seq<Event>>)
  {
    forall id :: Past(after, id) ==
      Past(h, id) + if id in ids then [NthEvent(id, |Past(h, id)| + 1, command)] else []
  }

  /** One event more on each of the streams. */
  ghost predicate Grew(w: World, next: World, ids: seq<string>, command: string)
  {
    forall id :: History(next, id) == History(w, id) + if id in ids then [Touched(w, id, command)] else []
  }

  lemma {:induction false} GrewHolds(
    w: World, next: World, h: map<string, seq<Event>>, ids: seq<string>, command: string,
    after: map<string, seq<Event>>)
    requires Holding(w, h) && Grew(w, next, ids, command) && Adds(h, ids, command, after)
    requires next.rows.snapshots == map[]
    ensures Holding(next, after)
  {
    forall id ensures History(next, id) == Past(after, id) { assert History(w, id) == Past(h, id); }
  }

  lemma {:induction false} TouchGrows(cfg: Config, w: World, ids: seq<string>, time: nat, command: string)
    requires NoRepeats(ids)
    ensures Grew(w, Committed(cfg, w, Touch(w, ids, time, command)), ids, command)
  {
    forall id
      ensures History(Committed(cfg, w, Touch(w, ids, time, command)), id) ==
              History(w, id) + if id in ids then [Touched(w, id, command)] else []
    {
      TouchAdds(cfg, w, ids, time, command, id);
    }
  }

  lemma {:induction false} TouchLeaves(
    cfg: Config, w: World, h: map<string, seq<Event>>, ids: seq<string>, time: nat, command: string,
    after: map<string, seq<Event>>)
    requires Holding(w, h) && CanTouch(cfg, h, ids, command) && Adds(h, ids, command, after)
    ensures Holding(Committed(cfg, w, Touch(w, ids, time, command)), after)
  {
    TouchTakesNoSnapshot(cfg, w, ids, time, command);
    TouchGrows(cfg, w, ids, time, command);
    GrewHolds(w, Committed(cfg, w, Touch(w, ids, time, command)), h, ids, command, after);
  }

  lemma {:induction false} HoldingIsTouchable(
    cfg: Config, w: World, h: map<string, seq<Event>>, ids: seq<string>, command: string)
    requires Inv(MACHINE, w) && Holding(w, h) && CanTouch(cfg, h, ids, command)
    ensures Touchable(w, ids, command)
  {}

  lemma {:induction false} TouchIsAStep(
    cfg: Config, worlds: seq<World>, steps: seq<RunStep>, w: World, ids: seq<string>, command: string)
    requires ValidRun(MACHINE, cfg, worlds, steps) && w == worlds[|steps|] && Touchable(w, ids, command)
    ensures var ex := Touch(w, ids, |steps|, command);
            && ValidRun(MACHINE, cfg, worlds + [Committed(cfg, w, ex)], steps + [Commits(ex)])
            && Inv(MACHINE, Committed(cfg, w, ex))
  {
    TouchIsBuilt(cfg, worlds, w, ids, command);
    TouchIsAdmitted(cfg, w, ids, |steps|, command);
    CommitContinues(cfg, worlds, steps, w, Touch(w, ids, |steps|, command));
  }

  /** A run that goes on with a touch. */
  lemma {:induction false} TouchContinues(
    cfg: Config, worlds: seq<World>, steps: seq<RunStep>, w: World, h: map<string, seq<Event>>, ids: seq<string>,
    command: string, after: map<string, seq<Event>>)
    requires Leaves(cfg, worlds, steps, h) && w == worlds[|steps|]
    requires CanTouch(cfg, h, ids, command) && Adds(h, ids, command, after)
    ensures var ex := Touch(w, ids, |steps|, command);
            Leaves(cfg, worlds + [Committed(cfg, w, ex)], steps + [Commits(ex)], after)
  {
    HoldingIsTouchable(cfg, w, h, ids, command);
    TouchIsAStep(cfg, worlds, steps, w, ids, command);
    TouchLeaves(cfg, w, h, ids, |steps|, command, after);
  }

  lemma {:induction false} EndIsTrue(m: Machine, cfg: Config, worlds: seq<World>, steps: seq<RunStep>)
    requires ValidRun(m, cfg, worlds, steps)
    ensures Inv(m, worlds[|worlds| - 1])
  {
    RunKeepsInvariant(m, cfg, worlds, steps, |steps|);
    assert worlds[..|steps| + 1] == worlds;
  }

  lemma {:induction false} NothingYet(cfg: Config)
    ensures Leaves(cfg, [EMPTY], [], map[])
  {}

  /** Without a crossing no snapshot is stored. */
  lemma {:induction false} TouchTakesNoSnapshot(cfg: Config, w: World, ids: seq<string>, time: nat, command: string)
    requires NoRepeats(ids)
    requires w.rows.snapshots == map[]
    requires forall id | id in ids ::
               CalculateAdditionalEvents(|History(w, id)|, 1, cfg.interval.SizeOf("account")) == 0
    ensures Committed(cfg, w, Touch(w, ids, time, command)).rows.snapshots == map[]
  {
    var ex := Touch(w, ids, time, command);
    TouchIsConsistent(w, ids, time, command);
    var n := Normalized(CommitOf(MACHINE, cfg, ex));
    if n.snapshots != [] {
      var s := n.snapshots[0];
      CommittedSnapshots(MACHINE, cfg, ex, s);
      TouchedStreams(w, ids, time, command, s.entity);
    }
  }

  // ----- One command ID on two streams

  const NO_SNAPSHOTS := Config(Interval(0, map[], (s: Snapshot) => true), "")

  lemma {:induction false} CommandsOfOne(e: Event)
    ensures Commands([]) == {} && Commands([e]) == CommandOf(e)
  {
    assert [e][..0] == [];
  }

  /** The events of the three commits. */
  const FIRST := NthEvent("a", 1, "x")
  const SECOND := NthEvent("a", 2, "y")
  const THIRD := NthEvent("b", 1, "y")
  const FOURTH := NthEvent("b", 2, "x")

  const AFTER_ONE: map<string, seq<Event>> := map["a" := [FIRST]]
  const AFTER_TWO: map<string, seq<Event>> := map["a" := [FIRST, SECOND], "b" := [THIRD]]
  const AFTER_THREE: map<string, seq<Event>> := map["a" := [FIRST, SECOND], "b" := [THIRD, FOURTH]]

  lemma {:induction false} FirstAdds()
    ensures Adds(map[], ["a"], "x", AFTER_ONE)
  {}

  lemma {:induction false} SecondAdds()
    ensures Adds(AFTER_ONE, ["a", "b"], "y", AFTER_TWO)
  {}

  lemma {:induction false} ThirdAdds()
    ensures Adds(AFTER_TWO, ["b"], "x", AFTER_THREE)
  {}

  lemma {:induction false} CanTouchAll()
    ensures CanTouch(NO_SNAPSHOTS, map[], ["a"], "x")
    ensures CanTouch(NO_SNAPSHOTS, AFTER_ONE, ["a", "b"], "y")
    ensures CanTouch(NO_SNAPSHOTS, AFTER_TWO, ["b"], "x")
  {
    CommandsOfOne(FIRST);
    CommandsOfOne(THIRD);
  }

  /** The run goes on with a commit of the command that touches the streams. */
  lemma {:induction false} GoOn(
    cfg: Config, worlds: seq<World>, steps: seq<RunStep>, h: map<string, seq<Event>>, ids: seq<string>, command: string,
    after: map<string, seq<Event>>) returns (next: World, step: RunStep)
    requires Leaves(cfg, worlds, steps, h) && CanTouch(cfg, h, ids, command) && Adds(h, ids, command, after)
    ensures Leaves(cfg, worlds + [next], steps + [step], after)
    ensures IsPlain(step) && step.ex.metadata == Stamp(command)
    ensures next.rows.outcomes == worlds[|steps|].rows.outcomes
  {
    var w := worlds[|steps|];
    step := Commits(Touch(w, ids, |steps|, command));
    next := Committed(cfg, w, step.ex);
    TouchContinues(cfg, worlds, steps, w, h, ids, command, after);
    HoldingIsTouchable(cfg, w, h, ids, command);
    TouchKeepsOutcomes(cfg, w, ids, |steps|, command);
    TouchIsConsistent(w, ids, |steps|, command);
  }

  lemma {:induction false} TouchKeepsOutcomes(cfg: Config, w: World, ids: seq<string>, time: nat, command: string)
    requires Touchable(w, ids, command)
    ensures Committed(cfg, w, Touch(w, ids, time, command)).rows.outcomes == w.rows.outcomes
  {
    TouchIsConsistent(w, ids, time, command);
    TouchIsWellFormed(cfg, w, ids, time, command);
  }

  /** The command `x` writes stream `a`. */
  lemma {:induction false} OneCommit(cfg: Config) returns (worlds: seq<World>, steps: seq<RunStep>)
    requires CanTouch(cfg, map[], ["a"], "x")
    ensures |steps| == 1 && |worlds| == 2 && Leaves(cfg, worlds, steps, AFTER_ONE)
    ensures worlds[0] == EMPTY && worlds[1].rows.outcomes == map[]
    ensures IsPlain(steps[0]) && steps[0].ex.metadata == Stamp("x")
  {
    NothingYet(cfg);
    FirstAdds();
    var next, step := GoOn(cfg, [EMPTY], [], map[], ["a"], "x", AFTER_ONE);
    worlds, steps := [EMPTY] + [next], [] + [step];
  }

  /** Then `y` writes `a` and `b`. */
  lemma {:induction false} TwoCommits() returns (worlds: seq<World>, steps: seq<RunStep>)
    ensures |steps| == 2 && Leaves(NO_SNAPSHOTS, worlds, steps, AFTER_TWO)
    ensures IsPlain(steps[0]) && steps[0].ex.metadata == Stamp("x") && steps[1].Commits?
  {
    CanTouchAll();
    var before, done := OneCommit(NO_SNAPSHOTS);
    SecondAdds();
    var next, step := GoOn(NO_SNAPSHOTS, before, done, AFTER_ONE, ["a", "b"], "y", AFTER_TWO);
    worlds, steps := before + [next], done + [step];
  }

  /** Then `x` writes `b`. */
  lemma {:induction false} ThreeCommits() returns (worlds: seq<World>, steps: seq<RunStep>)
    ensures |steps| == 3 && Leaves(NO_SNAPSHOTS, worlds, steps, AFTER_THREE)
    ensures IsPlain(steps[0]) && steps[0].ex.metadata == Stamp("x") && steps[1].Commits?
    ensures IsPlain(steps[2]) && steps[2].ex.metadata == Stamp("x")
  {
    CanTouchAll();
    var before, done := TwoCommits();
    ThirdAdds();
    var next, step := GoOn(NO_SNAPSHOTS, before, done, AFTER_TWO, ["b"], "x", AFTER_THREE);
    worlds, steps := before + [next], done + [step];
  }

  // ----- Its log cannot be regrouped

  /** Stream `a` puts one commit before the other, stream `b` the other way round. */
  lemma {:induction false} CrossedIsCyclic(log: seq<Event>)
    requires |log| == 4 && ID(log[0]) == ID(log[3]) != "" && ID(log[1]) == ID(log[2]) != "" && ID(log[0]) != ID(log[1])
    requires log[0].entity == log[1].entity && log[2].entity == log[3].entity
    ensures !Topology.Acyclic(CommitEdges(log))
  {
    var m := Members(log);
    MembersFollowCommits(log);
    assert SameCommit(log, 0, 3) && SameCommit(log, 1, 2) && !SameCommit(log, 0, 1);
    EdgesAreSteps(log, m, (m[0], m[1]));
    EdgesAreSteps(log, m, (m[2], m[3]));
    assert Topology.IsPath(CommitEdges(log), [m[0], m[1], m[0]]);
  }

  const LOG := [FIRST, SECOND, THIRD, FOURTH]

  lemma {:induction false} LogIsSorted(log: seq<Event>)
    requires log == StoredAll(LOG)
    ensures Order.Sort(log, EventKey) == log
  {
    assert Order.KeyLeq(EventKey(log[0]), EventKey(log[1])) && Order.KeyLeq(EventKey(log[2]), EventKey(log[3]));
    SortFixed(log, EventKey);
  }

  function IfOf(e: Event, id: string): seq<Event> { if e.entity == id then [e] else [] }

  lemma {:induction false} FourStreams(a: Event, b: Event, c: Event, d: Event, id: string)
    ensures Stream([a, b, c, d], id) == IfOf(a, id) + IfOf(b, id) + IfOf(c, id) + IfOf(d, id)
  {
    assert [] + [a] == [a] && [a] + [b] == [a, b] && [a, b] + [c] == [a, b, c] && [a, b, c] + [d] == [a, b, c, d];
    StreamSnoc([], a, id);
    StreamSnoc([a], b, id);
    StreamSnoc([a, b], c, id);
    StreamSnoc([a, b, c], d, id);
  }

  lemma {:induction false} LogStreams(id: string)
    ensures Stream(LOG, id) == Past(AFTER_THREE, id)
  {
    FourStreams(FIRST, SECOND, THIRD, FOURTH, id);
  }

  /**
    A command ID used on two streams. Plain commits are guarded only by the commands each loaded
    stream shows, so `x` may write `a`, then `y` write `a` and `b`, then `x` write `b`. The stored
    events of this run put the two commits in both orders: they cannot be regrouped.
   */
  lemma {:induction false} ReusedCommandCannotBeRegrouped(
    ) returns (worlds: seq<World>, steps: seq<RunStep>, log: seq<Event>)
    ensures ValidRun(MACHINE, NO_SNAPSHOTS, worlds, steps) && |steps| == 3 && NoCompaction(steps)
    ensures IsPlain(steps[0]) && IsPlain(steps[2]) && steps[0].ex.metadata == steps[2].ex.metadata == Stamp("x")
    ensures Scan(worlds[3].rows, log) && !Topology.Acyclic(CommitEdges(Order.Sort(log, EventKey)))
  {
    worlds, steps := ThreeCommits();
    log := StoredAll(LOG);
    OnlyCommits(steps);
    RunIsScanned(worlds, steps);
    LogIsCyclic();
  }

  lemma {:induction false} OnlyCommits(steps: seq<RunStep>)
    requires |steps| == 3 && steps[0].Commits? && steps[1].Commits? && steps[2].Commits?
    ensures NoCompaction(steps)
  {}

  lemma {:induction false} LogIsCyclic()
    ensures !Topology.Acyclic(CommitEdges(Order.Sort(StoredAll(LOG), EventKey)))
  {
    LogIsSorted(StoredAll(LOG));
    CrossedIsCyclic(StoredAll(LOG));
  }

  lemma {:induction false} RunIsScanned(worlds: seq<World>, steps: seq<RunStep>)
    requires Leaves(NO_SNAPSHOTS, worlds, steps, AFTER_THREE) && NoCompaction(steps)
    ensures Scan(worlds[|steps|].rows, StoredAll(LOG))
  {
    StoreHoldsHistory(MACHINE, NO_SNAPSHOTS, worlds, steps, |steps|);
    LogIsScanned(worlds[|steps|]);
  }

  lemma {:induction false} LogIsScanned(w: World)
    requires Holding(w, AFTER_THREE) && w.rows.events == w.history
    ensures Scan(w.rows, StoredAll(LOG))
  {
    forall id ensures multiset(Stream(StoredAll(LOG), id)) == multiset(StoredAll(Log(w.rows, id))) {
      StoredStream(LOG, id);
      LogStreams(id);
      assert History(w, id) == Past(AFTER_THREE, id);
    }
  }

  // ----- A load's own catch-up

  const EVERY_TWO := Config(Interval(2, map[], (s: Snapshot) => true), "")

  /**
    With an interval of two, one event is stored. A load writes a catch-up snapshot of it, and the
    command that loaded appends the second event: its commit, admitted without the catch-up, takes
    the same snapshot sequence and is refused after it.
   */
  lemma {:induction false} OwnCatchUpRefuses() returns (worlds: seq<World>, steps: seq<RunStep>, ex: Execution)
    ensures ValidRun(MACHINE, EVERY_TWO, worlds, steps) && |steps| == 2
    ensures Built(MACHINE, EVERY_TWO, worlds[..2], Commits(ex)) && |ex.loads| == 1 && steps[1] == CatchesUp(ex.loads[0])
    ensures var n := Normalized(CommitOf(MACHINE, EVERY_TWO, ex));
            Admits(worlds[1].rows, n) && !Admits(worlds[2].rows, n)
  {
    CommandsOfOne(FIRST);
    var before, done := OneCommit(EVERY_TWO);
    var next;
    ex, next := CatchUpLands(before, done);
    FirstTwo(before, next);
    worlds, steps := before + [next], done + [CatchesUp(ex.loads[0])];
  }

  lemma {:induction false} FirstTwo(worlds: seq<World>, next: World)
    requires |worlds| == 2
    ensures (worlds + [next])[..2] == worlds
  {}

  lemma {:induction false} CatchUpLands(worlds: seq<World>, steps: seq<RunStep>) returns (ex: Execution, next: World)
    requires Leaves(EVERY_TWO, worlds, steps, AFTER_ONE) && |steps| == 1
    ensures Built(MACHINE, EVERY_TWO, worlds, Commits(ex)) && |ex.loads| == 1
    ensures ValidRun(MACHINE, EVERY_TWO, worlds + [next], steps + [CatchesUp(ex.loads[0])])
    ensures var n := Normalized(CommitOf(MACHINE, EVERY_TWO, ex)); Admits(worlds[1].rows, n) && !Admits(next.rows, n)
  {
    var w := worlds[1];
    ex := Touch(w, ["a"], 1, "y");
    SecondTouchable(w);
    TouchIsBuilt(EVERY_TWO, worlds, w, ["a"], "y");
    TouchIsAdmitted(EVERY_TWO, w, ["a"], 1, "y");
    TakesTheSnapshot(w, ex);
    next := RefusedAfter(worlds, w, ex);
    RunContinues(MACHINE, EVERY_TWO, worlds, steps, CatchesUp(ex.loads[0]), next);
  }

  lemma {:induction false} SecondTouchable(w: World)
    requires Inv(MACHINE, w) && Holding(w, AFTER_ONE)
    ensures Touchable(w, ["a"], "y") && |History(w, "a")| == 1
  {
    CommandsOfOne(FIRST);
    assert History(w, "a") == Past(AFTER_ONE, "a");
  }

  lemma {:induction false} RefusedAfter(worlds: seq<World>, w: World, ex: Execution) returns (next: World)
    requires worlds != [] && worlds[|worlds| - 1] == w && Inv(MACHINE, w) && |ex.loads| == 1
    requires Built(MACHINE, EVERY_TWO, worlds, Commits(ex)) && ex.loads[0].time == |worlds| - 1
    requires Admits(w.rows, Normalized(CommitOf(MACHINE, EVERY_TWO, ex))) && ex.loads[0].loaded.head >= 1
    requires Snapshotted(Normalized(CommitOf(MACHINE, EVERY_TWO, ex)), ex.loads[0].entity)
    ensures ValidStep(MACHINE, EVERY_TWO, worlds, CatchesUp(ex.loads[0]), next)
    ensures !Admits(next.rows, Normalized(CommitOf(MACHINE, EVERY_TWO, ex)))
  {
    next := Next(w, CatchUpStep(CatchUpOf(ex.loads[0])));
    assert Observed(MACHINE, worlds, ex.loads[0]);
    CatchUpRefusesOwnSnapshot(MACHINE, EVERY_TWO, w, ex, 0);
  }

  lemma {:induction false} TakesTheSnapshot(w: World, ex: Execution)
    requires ex == Touch(w, ["a"], 1, "y") && |History(w, "a")| == 1
    ensures Decides(ex).Decide? && Snapshotted(Normalized(CommitOf(MACHINE, EVERY_TWO, ex)), "a")
  {
    TouchIsConsistent(w, ["a"], 1, "y");
    TouchedStreams(w, ["a"], 1, "y", "a");
    SnapshottedExactly(MACHINE, EVERY_TWO, ex, 0);
    ReadSetLists(MACHINE, ex.loads, Decides(ex).writes);
  }

  // ----- A decision recorded without a fence

  function Answering(command: string): Program
  {
    (views: seq<View>) =>
      if |views| == 0 then ReadStream("a")
      else Decide(Some(Decision(command, "d", Status.Accepted, views[0].state, None, false)), map[], [], map[])
  }

  const ASKED := Call(Answering("c"), Stamp("c"))

  /** What the program decides when it finds the stream in this state. */
  function Answer(command: string, state: string): Commit.Outcome
  {
    Commit.Outcome(command, "d", Status.Accepted, state, None, [])
  }

  lemma {:induction false} ReadsOnce(h: map<string, seq<Event>>, views: seq<View>, i: nat)
    requires ReadsNow(MACHINE, h, Answering("c"), views) && i < |views|
    ensures i == 0 && views[0].entity == "a"
  {
    assert Answering("c")(views[..i]) == ReadStream(views[i].entity);
  }

  lemma {:induction false} AnswersNow(before: Durable, views: seq<View>, after: Durable)
    requires RunsAlone(MACHINE, "", before, ASKED, views, after)
    requires Fold(MACHINE, "a", Past(before.history, "a")) == Some("x")
    ensures "c" in after.outcomes && after.outcomes["c"].response == "x"
  {
    assert Answering("c")(views).Decide?;
    ReadsOnce(before.history, views, |views| - 1);
  }

  /**
    A single-aggregate command that writes no event records its outcome without a fence: one that
    read stream `a` while it was empty is answered after another command wrote the stream, with
    what it decided on the empty one, and no run of it at that moment would have.
   */
  lemma {:induction false} UnfencedDecisionGoesStale() returns (worlds: seq<World>, steps: seq<RunStep>)
    ensures ValidRun(MACHINE, NO_SNAPSHOTS, worlds, steps) && |steps| == 2
    ensures steps[0].Commits? && steps[1] == Records(Answer("c", State(worlds[0], "a")))
    ensures forall views ::
              !RunsAlone(MACHINE, "", DurableOf(worlds[1]), ASKED, views, DurableOf(worlds[2]))
  {
    CanTouchAll();
    var before, done := OneCommit(NO_SNAPSHOTS);
    worlds, steps := RecordLate(before, done);
  }

  lemma {:induction false} RecordLate(before: seq<World>, done: seq<RunStep>)
    returns (worlds: seq<World>, steps: seq<RunStep>)
    requires |done| == 1 && |before| == 2 && Leaves(NO_SNAPSHOTS, before, done, AFTER_ONE)
    requires before[0] == EMPTY && before[1].rows.outcomes == map[]
    ensures ValidRun(MACHINE, NO_SNAPSHOTS, worlds, steps) && |steps| == 2 && worlds[..2] == before
    ensures steps == done + [Records(Answer("c", ""))] && State(EMPTY, "a") == ""
    ensures forall views :: !RunsAlone(MACHINE, "", DurableOf(before[1]), ASKED, views, DurableOf(worlds[2]))
  {
    var o := Answer("c", "");
    RecordContinues(before, done, before[1], o);
    var next := Next(before[1], StepOf(MACHINE, NO_SNAPSHOTS, Records(o)));
    StaleAtRecord(before[1], next);
    worlds, steps := before + [next], done + [Records(o)];
  }

  lemma {:induction false} RecordContinues(worlds: seq<World>, steps: seq<RunStep>, w: World, o: Commit.Outcome)
    requires ValidRun(MACHINE, NO_SNAPSHOTS, worlds, steps) && worlds[|steps|] == w && o.commandID !in w.rows.outcomes
    ensures var next := Next(w, StepOf(MACHINE, NO_SNAPSHOTS, Records(o)));
            ValidRun(MACHINE, NO_SNAPSHOTS, worlds + [next], steps + [Records(o)])
  {
    RecordIsValid(NO_SNAPSHOTS, worlds, w, o);
    RunContinues(
      MACHINE, NO_SNAPSHOTS, worlds, steps, Records(o), Next(w, StepOf(MACHINE, NO_SNAPSHOTS, Records(o))));
  }

  lemma {:induction false} StaleAtRecord(w: World, next: World)
    requires Holding(w, AFTER_ONE) && next == Next(w, StepOf(MACHINE, NO_SNAPSHOTS, Records(Answer("c", ""))))
    ensures forall views ::
              !RunsAlone(MACHINE, "", DurableOf(w), ASKED, views, DurableOf(next))
  {
    assert History(w, "a") == Past(AFTER_ONE, "a");
    OneEventState(FIRST);
    forall views ensures !RunsAlone(MACHINE, "", DurableOf(w), ASKED, views, DurableOf(next)) {
      if RunsAlone(MACHINE, "", DurableOf(w), ASKED, views, DurableOf(next)) {
        AnswersNow(DurableOf(w), views, DurableOf(next));
      }
    }
  }

  lemma {:induction false} OneEventState(e: Event)
    ensures Fold(MACHINE, "a", [e]) == Some("x")
  {
    assert [e][..0] == [] && "" + "x" == "x";
  }

  lemma {:induction false} RecordIsValid(cfg: Config, worlds: seq<World>, w: World, o: Commit.Outcome)
    requires worlds != [] && worlds[|worlds| - 1] == w && o.commandID !in w.rows.outcomes
    ensures ValidStep(MACHINE, cfg, worlds, Records(o), Next(w, StepOf(MACHINE, cfg, Records(o))))
  {}
}
