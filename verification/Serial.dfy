/**
  Whole runs of concurrent transactions. A transaction is a program that reads streams one at a
  time, each at any moment and each possibly behind, then decides; its commit applies at any
  later moment its conditions allow, between commits, compactions and catch-up snapshots of
  others. Every such run is a serial one in commit order, and every snapshot it ever stores is
  the fold of the history it covers.
 */
module Serial {
  import opened Basics
  import Order
  import opened Sequences
  import opened CommitLog
  import opened Commit
  import opened StreamStore
  import opened Load
  import opened Transaction

  // ----- Programs

  datatype View = View(entity: string, state: string)

  /**
    What a program does next, given everything it has read so far. Without a decision it ends in
    a plain commit, which records no outcome.
   */
  datatype Move =
    | ReadStream(entity: string)
    | Decide(
        decision: Option<Decision>, writes: map<string, seq<Fact>>, fences: seq<Fence>, expected: map<string, int>)

  type Program = seq<View> -> Move

  /** One load: the stream, when in the run it was read, and what the snapshot it started from covered. */
  datatype Observation = Observation(entity: string, entityType: string, time: nat, covered: int, loaded: Loaded)

  /** One transaction as it went: its program and what it observed. */
  datatype Execution = Execution(program: Program, loads: seq<Observation>, metadata: Metadata)

  datatype Config = Config(interval: Interval, staleCode: string)

  function Views(loads: seq<Observation>): seq<View>
  {
    Map((o: Observation) => View(o.entity, o.loaded.state), loads)
  }

  function Entities(loads: seq<Observation>): seq<string>
  {
    Map((o: Observation) => o.entity, loads)
  }

  function Pending(writes: map<string, seq<Fact>>, id: string): seq<Fact>
  {
    if id in writes then writes[id] else []
  }

  /** A read stream with the events the program appended to it. */
  function AppendedStream(m: Machine, o: Observation, writes: map<string, seq<Fact>>): TxStream
  {
    var pending := Pending(writes, o.entity);
    var state := FoldFacts(m, Some(o.loaded.state), pending);
    TxStream(o.entityType, o.loaded, if state.Some? then state.value else o.loaded.state, pending)
  }

  /** The read set of the transaction when it is finished. */
  function ReadSet(m: Machine, loads: seq<Observation>, writes: map<string, seq<Fact>>): map<string, TxStream>
  {
    if loads == [] then map[]
    else
      var last := loads[|loads| - 1];
      ReadSet(m, loads[..|loads| - 1], writes)[last.entity := AppendedStream(m, last, writes)]
  }

  /** The program asked for each read, in order and none twice, and then decided. */
  predicate Consistent(ex: Execution)
  {
    && NoRepeats(Entities(ex.loads))
    && (forall i | 0 <= i < |ex.loads| :: ex.program(Views(ex.loads[..i])) == ReadStream(ex.loads[i].entity))
    && ex.program(Views(ex.loads)).Decide?
  }

  function Decides(ex: Execution): Move { ex.program(Views(ex.loads)) }

  /** The aggregates accepted every event appended to them. */
  predicate AllAccepted(m: Machine, ex: Execution)
    requires Decides(ex).Decide?
  {
    forall i | 0 <= i < |ex.loads| ::
      FoldFacts(m, Some(ex.loads[i].loaded.state), Pending(Decides(ex).writes, ex.loads[i].entity)).Some?
  }

  function CommitOf(m: Machine, cfg: Config, ex: Execution): SerializedResult
    requires Decides(ex).Decide?
  {
    var d := Decides(ex);
    Ended(d.decision, Entities(ex.loads), ReadSet(m, ex.loads, d.writes), d.fences, d.expected,
          ex.metadata, cfg.interval, cfg.staleCode)
  }

  /** Every expected head is the loaded one. */
  predicate Met(m: Machine, ex: Execution)
    requires Decides(ex).Decide?
  {
    ExpectationsMet(ReadSet(m, ex.loads, Decides(ex).writes), Decides(ex).expected)
  }

  /** Whether the events are written. */
  predicate TakesEffect(m: Machine, ex: Execution)
    requires Decides(ex).Decide?
  {
    Effective(Decides(ex).decision, Met(m, ex))
  }

  lemma {:induction false} CommitParts(m: Machine, cfg: Config, ex: Execution)
    requires Decides(ex).Decide?
    ensures var d, order, write := Decides(ex), Entities(ex.loads), TakesEffect(m, ex);
            var streams := ReadSet(m, ex.loads, d.writes);
            CommitOf(m, cfg, ex) == SerializedResult(
              if write then FlatMap(EventsOf(streams, ex.metadata), order) else [],
              if write then FlatMap(SnapshotsOf(streams, cfg.interval), order) else [],
              Filter(Unread(streams), d.fences) + FlatMap(FencesOf(streams, write), order),
              [], OutcomeFor(d.decision, Met(m, ex), cfg.staleCode))
  {
    var d := Decides(ex);
    EndedParts(d.decision, Entities(ex.loads), ReadSet(m, ex.loads, d.writes), d.fences, d.expected,
               ex.metadata, cfg.interval, cfg.staleCode);
  }

  lemma {:induction false} ReadSetLists(m: Machine, loads: seq<Observation>, writes: map<string, seq<Fact>>)
    requires NoRepeats(Entities(loads))
    ensures Lists(Entities(loads), ReadSet(m, loads, writes))
    ensures forall i | 0 <= i < |loads| ::
              loads[i].entity in ReadSet(m, loads, writes)
              && ReadSet(m, loads, writes)[loads[i].entity] == AppendedStream(m, loads[i], writes)
  {
    if loads != [] {
      var front, last := loads[..|loads| - 1], loads[|loads| - 1];
      assert Entities(loads) == Entities(front) + [last.entity];
      assert NoRepeats(Entities(front)) by {
        forall i, j | 0 <= i < j < |Entities(front)| ensures Entities(front)[i] != Entities(front)[j] {
          assert Entities(loads)[i] == Entities(front)[i] && Entities(loads)[j] == Entities(front)[j];
        }
      }
      ReadSetLists(m, front, writes);
      forall i | 0 <= i < |front| ensures loads[i].entity != last.entity && loads[i] == front[i] {
        assert Entities(loads)[i] == loads[i].entity && Entities(loads)[|front|] == last.entity;
      }
    }
  }

  // ----- Runs

  datatype RunStep =
    | Commits(ex: Execution)
    | Records(outcome: Commit.Outcome)       // an outcome alone, unfenced: a stale-fence rejection, or the
                                             // decision of a single-aggregate command that writes no event
    | Compacts(entity: string, gone: set<int>)
    | CatchesUp(read: Observation)           // a load that writes a snapshot of what it loaded

  function StepOf(m: Machine, cfg: Config, step: RunStep): StoreStep
    requires step.Commits? ==> Decides(step.ex).Decide?
  {
    match step
    case Commits(ex) => CommitStep(Normalized(CommitOf(m, cfg, ex)))
    case Records(o) => CommitStep(SerializedResult([], [], [], [], Some(o)))
    case Compacts(entity, gone) => CompactStep(entity, gone)
    case CatchesUp(o) => CatchUpStep(CatchUpOf(o))
  }

  /** The snapshot a load writes of what it loaded. */
  function CatchUpOf(o: Observation): Snapshot
  {
    Snapshot(o.entity, o.entityType, o.loaded.snapshot + 1, o.loaded.head, o.loaded.state)
  }

  /** A load made earlier in the run: by LoadAggregate it is a state the stream had, with that state's commands. */
  predicate Observed(m: Machine, worlds: seq<World>, o: Observation)
  {
    && o.time < |worlds| && ConsistentRead(m, worlds[o.time], o.entity, o.loaded)
    && SawCommands(worlds[o.time], o.entity, o.loaded, o.covered)
  }

  /** The commit ID: the command's, when there is one, which a decided command always has. */
  predicate Marked(ex: Execution)
    requires Decides(ex).Decide?
  {
    var decision, command := Decides(ex).decision, ex.metadata.commandID;
    && (decision.Some? ==> command == Some(decision.value.command))
    && (command.Some? && command.value != "" ==> ex.metadata.commitID == command.value)
    && ex.metadata.commitID != ""
  }

  /** No stream it read shows the command's own events. */
  predicate Unrepeated(m: Machine, ex: Execution)
    requires Decides(ex).Decide?
  {
    !AnyRepeats(Entities(ex.loads), ReadSet(m, ex.loads, Decides(ex).writes), ex.metadata.commandID)
  }

  ghost predicate Built(m: Machine, cfg: Config, worlds: seq<World>, step: RunStep)
  {
    match step
    case Commits(ex) =>
      && Consistent(ex) && AllAccepted(m, ex) && Marked(ex) && Unrepeated(m, ex) && WellFormed(CommitOf(m, cfg, ex))
      && forall i | 0 <= i < |ex.loads| :: Observed(m, worlds, ex.loads[i])
    case Records(_) => true
    case Compacts(_, _) => true
    case CatchesUp(o) => Observed(m, worlds, o) && o.loaded.head >= 1
  }

  ghost predicate ValidRun(m: Machine, cfg: Config, worlds: seq<World>, steps: seq<RunStep>)
  {
    && |worlds| == |steps| + 1 && worlds[0] == EMPTY
    && forall k | 0 <= k < |steps| :: ValidStep(m, cfg, worlds[..k + 1], steps[k], worlds[k + 1])
  }

  ghost predicate ValidStep(m: Machine, cfg: Config, worlds: seq<World>, step: RunStep, next: World)
    requires worlds != []
  {
    && Built(m, cfg, worlds, step)
    && Enabled(worlds[|worlds| - 1], StepOf(m, cfg, step))
    && next == Next(worlds[|worlds| - 1], StepOf(m, cfg, step))
  }

  // ----- One commit

  /** Every stream an execution read is at the head it was loaded at, and holds the state it saw. */
  predicate SawCurrent(m: Machine, w: World, loads: seq<Observation>)
  {
    forall i | 0 <= i < |loads| ::
      loads[i].loaded.head == |History(w, loads[i].entity)|
      && Fold(m, loads[i].entity, History(w, loads[i].entity)) == Some(loads[i].loaded.state)
  }

  lemma {:induction false} CommitSawCurrent(m: Machine, cfg: Config, w: World, ex: Execution)
    requires Inv(m, w) && Consistent(ex) && WellFormed(CommitOf(m, cfg, ex))
    requires forall i | 0 <= i < |ex.loads| :: ConsistentRead(m, w, ex.loads[i].entity, ex.loads[i].loaded)
    requires Admits(w.rows, Normalized(CommitOf(m, cfg, ex)))
    ensures SawCurrent(m, w, ex.loads)
  {
    var d := Decides(ex);
    ReadSetLists(m, ex.loads, d.writes);
    ReadsAreCurrentAtCommit(w.rows, d.decision, Entities(ex.loads), ReadSet(m, ex.loads, d.writes),
                            d.fences, d.expected, ex.metadata, cfg.interval, cfg.staleCode);
    forall i | 0 <= i < |ex.loads|
      ensures ex.loads[i].loaded.head == |History(w, ex.loads[i].entity)|
              && Fold(m, ex.loads[i].entity, History(w, ex.loads[i].entity)) == Some(ex.loads[i].loaded.state)
    {
      var o := ex.loads[i];
      assert StreamInv(m, w, o.entity);
      assert History(w, o.entity)[..|History(w, o.entity)|] == History(w, o.entity);
    }
  }

  lemma {:induction false} CommittedStreams(m: Machine, cfg: Config, ex: Execution, i: nat)
    requires Consistent(ex) && i < |ex.loads|
    ensures var o, d := ex.loads[i], Decides(ex);
            Stream(Normalized(CommitOf(m, cfg, ex)).events, o.entity) ==
            if TakesEffect(m, ex)
            then Serialized(o.entity, o.loaded.head, Pending(d.writes, o.entity), ex.metadata) else []
  {
    var o, d := ex.loads[i], Decides(ex);
    var streams := ReadSet(m, ex.loads, d.writes);
    ReadSetLists(m, ex.loads, d.writes);
    CommitParts(m, cfg, ex);
    SortedStreams(CommitOf(m, cfg, ex).events, o.entity);
    StreamOfFlat(streams, ex.metadata, Entities(ex.loads), o.entity);
    assert Entities(ex.loads)[i] == o.entity;
  }

  lemma {:induction false} SnapshotOrigin(
    streams: map<string, TxStream>, interval: Interval, order: seq<string>, s: Snapshot)
    ensures s in FlatMap(SnapshotsOf(streams, interval), order) <==>
            && s.entity in order && s.entity in streams
            && TakesSnapshot(streams[s.entity], s.entity, interval) && s == Captured(s.entity, streams[s.entity])
  {
    FlatMapMember(SnapshotsOf(streams, interval), order, s);
    assert s.entity in order ==> exists i | 0 <= i < |order| :: order[i] == s.entity;
  }

  /** A commit's snapshots are those of the read streams that are due one, if its events are written. */
  lemma {:induction false} CommittedSnapshots(m: Machine, cfg: Config, ex: Execution, s: Snapshot)
    requires Decides(ex).Decide?
    ensures var streams := ReadSet(m, ex.loads, Decides(ex).writes);
            s in Normalized(CommitOf(m, cfg, ex)).snapshots <==>
            && TakesEffect(m, ex) && s.entity in Entities(ex.loads) && s.entity in streams
            && TakesSnapshot(streams[s.entity], s.entity, cfg.interval) && s == Captured(s.entity, streams[s.entity])
  {
    var r := CommitOf(m, cfg, ex);
    CommitParts(m, cfg, ex);
    SnapshotOrigin(ReadSet(m, ex.loads, Decides(ex).writes), cfg.interval, Entities(ex.loads), s);
    Order.SortKeeps(r.snapshots, SnapshotKey);
    assert s in multiset(Normalized(r).snapshots) <==> s in multiset(r.snapshots);
  }

  /** The load a commit's snapshot continues. */
  lemma {:induction false} SnapshottedLoad(m: Machine, cfg: Config, ex: Execution, s: Snapshot) returns (i: nat)
    requires Consistent(ex) && s in Normalized(CommitOf(m, cfg, ex)).snapshots
    ensures i < |ex.loads| && TakesEffect(m, ex)
    ensures var o, writes := ex.loads[i], Decides(ex).writes;
            && o.entity == s.entity && TakesSnapshot(AppendedStream(m, o, writes), s.entity, cfg.interval)
            && s == Captured(s.entity, AppendedStream(m, o, writes))
  {
    CommittedSnapshots(m, cfg, ex, s);
    i :| 0 <= i < |Entities(ex.loads)| && Entities(ex.loads)[i] == s.entity;
    ReadSetLists(m, ex.loads, Decides(ex).writes);
    assert ex.loads[i].entity == s.entity;
  }

  /** The snapshots of a transaction's commit hold the fold of its streams' whole history. */
  lemma {:induction false} CommitIsHonest(m: Machine, cfg: Config, w: World, ex: Execution)
    requires Consistent(ex) && AllAccepted(m, ex) && WellFormed(CommitOf(m, cfg, ex)) && SawCurrent(m, w, ex.loads)
    ensures Honest(m, w, CommitStep(Normalized(CommitOf(m, cfg, ex))))
  {
    var n := Normalized(CommitOf(m, cfg, ex));
    NormalizedIsContiguous(CommitOf(m, cfg, ex));
    forall s | s in n.snapshots
      ensures Fold(m, s.entity, History(w, s.entity) + Stream(n.events, s.entity)) == Some(s.payload)
    {
      var i := SnapshottedLoad(m, cfg, ex, s);
      CommittedStreams(m, cfg, ex, i);
      var d, o := Decides(ex), ex.loads[i];
      SerializedFold(m, s.entity, History(w, s.entity), o.loaded.head, Pending(d.writes, s.entity), ex.metadata);
    }
  }

  lemma {:induction false} NothingIsContiguous(o: Commit.Outcome)
    ensures Contiguous(SerializedResult([], [], [], [], Some(o)))
  {}

  lemma {:induction false} StepIsHonest(m: Machine, cfg: Config, worlds: seq<World>, step: RunStep)
    requires worlds != [] && Built(m, cfg, worlds, step)
    requires forall i | 0 <= i < |worlds| :: Grows(worlds[i], worlds[|worlds| - 1])
    requires var w := worlds[|worlds| - 1]; Inv(m, w) && Enabled(w, StepOf(m, cfg, step))
    ensures var w := worlds[|worlds| - 1];
            Honest(m, w, StepOf(m, cfg, step)) && (step.Commits? ==> SawCurrent(m, w, step.ex.loads))
  {
    var w := worlds[|worlds| - 1];
    match step {
      case Commits(ex) =>
        forall i | 0 <= i < |ex.loads| ensures ConsistentRead(m, w, ex.loads[i].entity, ex.loads[i].loaded) {
          assert Observed(m, worlds, ex.loads[i]);
          ReadStaysConsistent(m, worlds[ex.loads[i].time], w, ex.loads[i].entity, ex.loads[i].loaded);
        }
        CommitSawCurrent(m, cfg, w, ex);
        CommitIsHonest(m, cfg, w, ex);
      case Records(o) => NothingIsContiguous(o);
      case Compacts(_, _) =>
      case CatchesUp(o) =>
        LoadedSnapshotIsHonest(m, worlds[o.time], w, o.entity, o.loaded, o.entityType);
    }
  }

  // ----- Every run

  ghost predicate RunInv(m: Machine, worlds: seq<World>)
  {
    && (forall i | 0 <= i < |worlds| :: Inv(m, worlds[i]))
    && (forall i, j | 0 <= i <= j < |worlds| :: Grows(worlds[i], worlds[j]))
  }

  lemma {:induction false} RunInvStep(m: Machine, cfg: Config, worlds: seq<World>, step: RunStep, next: World)
    requires worlds != [] && RunInv(m, worlds) && ValidStep(m, cfg, worlds, step, next)
    ensures RunInv(m, worlds + [next])
  {
    var w, s := worlds[|worlds| - 1], StepOf(m, cfg, step);
    StepIsHonest(m, cfg, worlds, step);
    StepKeepsInv(m, w, s);
    StepGrows(w, s);
    AllGrow(m, worlds, next);
  }

  lemma {:induction false} AllGrow(m: Machine, worlds: seq<World>, next: World)
    requires worlds != [] && RunInv(m, worlds) && Inv(m, next) && Grows(worlds[|worlds| - 1], next)
    ensures RunInv(m, worlds + [next])
  {
    var w, all := worlds[|worlds| - 1], worlds + [next];
    forall i, j | 0 <= i <= j < |all| ensures Grows(all[i], all[j]) {
      if j < |worlds| {
        assert Grows(worlds[i], worlds[j]);
      } else if i < |worlds| {
        GrowsOn(worlds[i], w, next);
      } else {
        assert Grows(next, next);
      }
    }
  }

  lemma {:induction false} GrowsOn(u: World, v: World, w: World)
    requires Grows(u, v) && Grows(v, w)
    ensures Grows(u, w)
  {
    forall id ensures History(u, id) <= History(w, id) {
      assert History(u, id) <= History(v, id) && History(v, id) <= History(w, id);
    }
  }

  lemma {:induction false} RunStarts(m: Machine)
    ensures RunInv(m, [EMPTY])
  {}

  /**
    In every world of every run: heads are the lengths of the true histories, stored events are
    genuine and only covered ones missing, and every snapshot is the fold of what it covers.
   */
  lemma {:induction false} RunKeepsInvariant(m: Machine, cfg: Config, worlds: seq<World>, steps: seq<RunStep>, n: nat)
    requires ValidRun(m, cfg, worlds, steps) && n <= |steps|
    ensures RunInv(m, worlds[..n + 1])
  {
    if n == 0 {
      RunStarts(m);
      assert worlds[..1] == [EMPTY];
    } else {
      var k := n - 1;
      RunKeepsInvariant(m, cfg, worlds, steps, k);
      StepOfRun(m, cfg, worlds, steps, k);
      RunInvStep(m, cfg, worlds[..k + 1], steps[k], worlds[k + 1]);
    }
  }

  // ----- The serial meaning of a transaction

  function Past(h: map<string, seq<Event>>, id: string): seq<Event>
  {
    if id in h then h[id] else []
  }

  /** The program's whole read set, each stream read at the end of its history. */
  predicate ReadsNow(m: Machine, h: map<string, seq<Event>>, program: Program, views: seq<View>)
  {
    && (forall i | 0 <= i < |views| ::
          && program(views[..i]) == ReadStream(views[i].entity)
          && Fold(m, views[i].entity, Past(h, views[i].entity)) == Some(views[i].state))
    && program(views).Decide?
  }

  function ViewedEntities(views: seq<View>): seq<string>
  {
    Map((v: View) => v.entity, views)
  }

  predicate MetNow(h: map<string, seq<Event>>, expected: map<string, int>, read: seq<string>)
  {
    forall id | id in expected :: id in read && |Past(h, id)| == expected[id]
  }

  function WritesNow(h: map<string, seq<Event>>, writes: map<string, seq<Fact>>, metadata: Metadata)
    : string -> seq<Event>
  {
    id => Serialized(id, |Past(h, id)|, Pending(writes, id), metadata)
  }

  /** The events the program writes when it reads each stream at its end. */
  function EventsNow(h: map<string, seq<Event>>, d: Move, read: seq<string>, metadata: Metadata): seq<Event>
    requires d.Decide?
  {
    if Effective(d.decision, MetNow(h, d.expected, read)) then FlatMap(WritesNow(h, d.writes, metadata), read) else []
  }

  /** What a run leaves behind: the true history, and the outcome of every command. */
  datatype Durable = Durable(history: map<string, seq<Event>>, outcomes: map<string, Commit.Outcome>)

  function DurableOf(w: World): Durable { Durable(w.history, w.rows.outcomes) }

  /** Outcome rows with one more, its receipt naming the events in canonical order. */
  function Record(
    outcomes: map<string, Commit.Outcome>, o: Option<Commit.Outcome>, events: seq<Event>): map<string, Commit.Outcome>
  {
    match o
    case None => outcomes
    case Some(o) => outcomes[o.commandID := o.(eventIDs := IDs(Order.Sort(events, EventStreamKey)))]
  }

  /** What is left after the transaction runs alone, start to end. */
  function SerialNext(s: Durable, d: Move, read: seq<string>, metadata: Metadata, staleCode: string): Durable
    requires d.Decide?
  {
    var events := EventsNow(s.history, d, read, metadata);
    var outcome := OutcomeFor(d.decision, MetNow(s.history, d.expected, read), staleCode);
    Durable(AppendTo(s.history, events), Record(s.outcomes, outcome, events))
  }

  /** A transaction's program, or an outcome recorded by itself. */
  datatype Call =
    | Call(program: Program, metadata: Metadata)
    | RecordOnly(outcome: Commit.Outcome)

  /** The calls run one after another from an empty store leave this. */
  ghost predicate SerialRun(m: Machine, staleCode: string, calls: seq<Call>, s: Durable)
  {
    if calls == [] then s == Durable(map[], map[])
    else
      var call := calls[|calls| - 1];
      exists before, views ::
        SerialRun(m, staleCode, calls[..|calls| - 1], before) && RunsAlone(m, staleCode, before, call, views, s)
  }

  /** The call runs alone: every stream is read at its end, and its command has no outcome yet. */
  ghost predicate RunsAlone(
    m: Machine, staleCode: string, before: Durable, call: Call, views: seq<View>, after: Durable)
  {
    match call
    case Call(program, metadata) =>
      && ReadsNow(m, before.history, program, views)
      && (var d := program(views);
          && (d.decision.Some? ==> d.decision.value.command !in before.outcomes)
          && after == SerialNext(before, d, ViewedEntities(views), metadata, staleCode))
    case RecordOnly(o) =>
      && o.commandID !in before.outcomes
      && after == before.(outcomes := before.outcomes[o.commandID := o])
  }

  function CallOf(step: RunStep): seq<Call>
  {
    match step
    case Commits(ex) => [Call(ex.program, ex.metadata)]
    case Records(o) => [RecordOnly(o)]
    case Compacts(_, _) => []
    case CatchesUp(_) => []
  }

  function CallsIn(steps: seq<RunStep>): seq<Call>
  {
    if steps == [] then [] else CallsIn(steps[..|steps| - 1]) + CallOf(steps[|steps| - 1])
  }

  // ----- A commit is its transaction run alone

  lemma {:induction false} LoadsWereNow(m: Machine, w: World, ex: Execution)
    requires Consistent(ex) && SawCurrent(m, w, ex.loads)
    ensures ReadsNow(m, w.history, ex.program, Views(ex.loads))
  {
    var views := Views(ex.loads);
    forall i | 0 <= i < |views|
      ensures ex.program(views[..i]) == ReadStream(views[i].entity)
              && Fold(m, views[i].entity, Past(w.history, views[i].entity)) == Some(views[i].state)
    {
      assert views[..i] == Views(ex.loads[..i]);
      assert ex.program(Views(ex.loads[..i])) == ReadStream(ex.loads[i].entity);
    }
  }

  lemma {:induction false} ExpectationsAgree(m: Machine, w: World, ex: Execution)
    requires Consistent(ex) && SawCurrent(m, w, ex.loads)
    ensures Met(m, ex) <==> MetNow(w.history, Decides(ex).expected, Entities(ex.loads))
  {
    var d, order := Decides(ex), Entities(ex.loads);
    var streams := ReadSet(m, ex.loads, d.writes);
    ReadSetLists(m, ex.loads, d.writes);
    forall id | id in d.expected
      ensures (id in streams && streams[id].loaded.head == d.expected[id])
              <==> (id in order && |Past(w.history, id)| == d.expected[id])
    {
      if id in order {
        var i :| 0 <= i < |order| && order[i] == id;
        assert streams[ex.loads[i].entity] == AppendedStream(m, ex.loads[i], d.writes);
      }
    }
  }

  lemma {:induction false} SameStreamsAppendAlike(h: map<string, seq<Event>>, a: seq<Event>, b: seq<Event>)
    requires forall id :: Stream(a, id) == Stream(b, id)
    ensures AppendTo(h, a) == AppendTo(h, b)
  {
    SameWrites(a, b);
  }

  /** The commit holds the events and the outcome the transaction gives when run alone. */
  lemma {:induction false} WritesAgree(m: Machine, cfg: Config, w: World, ex: Execution)
    requires Consistent(ex) && SawCurrent(m, w, ex.loads)
    ensures var d, order, r := Decides(ex), Entities(ex.loads), CommitOf(m, cfg, ex);
            && r.events == EventsNow(w.history, d, order, ex.metadata)
            && r.outcome == OutcomeFor(d.decision, MetNow(w.history, d.expected, order), cfg.staleCode)
  {
    var d, order := Decides(ex), Entities(ex.loads);
    var streams, now := ReadSet(m, ex.loads, d.writes), WritesNow(w.history, d.writes, ex.metadata);
    CommitParts(m, cfg, ex);
    ExpectationsAgree(m, w, ex);
    ReadSetLists(m, ex.loads, d.writes);
    forall i | 0 <= i < |order| ensures EventsOf(streams, ex.metadata)(order[i]) == now(order[i]) {
      assert order[i] == ex.loads[i].entity;
      assert streams[ex.loads[i].entity] == AppendedStream(m, ex.loads[i], d.writes);
    }
    FlatMapsAgree(EventsOf(streams, ex.metadata), now, order);
  }

  lemma {:induction false} FlatMapsAgree<T, U>(f: T -> seq<U>, g: T -> seq<U>, xs: seq<T>)
    requires forall i | 0 <= i < |xs| :: f(xs[i]) == g(xs[i])
    ensures FlatMap(f, xs) == FlatMap(g, xs)
  {
    if xs != [] { FlatMapsAgree(f, g, xs[..|xs| - 1]); }
  }

  lemma {:induction false} AppendNothing(h: map<string, seq<Event>>)
    ensures AppendTo(h, []) == h
  {
    var same := AppendTo(h, []);
    assert Writes([]) == {} && same.Keys == h.Keys;
    forall id | id in h ensures same[id] == h[id] { assert Stream([], id) == [] && h[id] + [] == h[id]; }
  }

  /** Applying a canonical commit is appending its events and recording its outcome. */
  lemma {:induction false} CommitLeaves(w: World, r: SerializedResult)
    ensures DurableOf(Next(w, CommitStep(Normalized(r)))) ==
            Durable(AppendTo(w.history, r.events), Record(w.rows.outcomes, r.outcome, r.events))
  {
    forall id ensures Stream(Normalized(r).events, id) == Stream(r.events, id) { SortedStreams(r.events, id); }
    SameStreamsAppendAlike(w.history, Normalized(r).events, r.events);
  }

  /** A commit's effect on the history and the outcomes is its transaction's, run alone at that moment. */
  lemma {:induction false} CommitIsSerial(m: Machine, cfg: Config, w: World, ex: Execution)
    requires Consistent(ex) && SawCurrent(m, w, ex.loads)
    requires OutcomeFree(w.rows, Normalized(CommitOf(m, cfg, ex)))
    ensures var after := Next(w, CommitStep(Normalized(CommitOf(m, cfg, ex))));
            RunsAlone(m, cfg.staleCode, DurableOf(w), Call(ex.program, ex.metadata), Views(ex.loads), DurableOf(after))
  {
    LoadsWereNow(m, w, ex);
    assert ViewedEntities(Views(ex.loads)) == Entities(ex.loads);
    WritesAgree(m, cfg, w, ex);
    CommitLeaves(w, CommitOf(m, cfg, ex));
  }

  // ----- Every run is serial

  lemma {:induction false} MaintenanceLeavesAll(m: Machine, cfg: Config, w: World, step: RunStep)
    requires !step.Commits? && !step.Records?
    ensures DurableOf(Next(w, StepOf(m, cfg, step))) == DurableOf(w)
  {}

  lemma {:induction false} RecordIsSerial(m: Machine, cfg: Config, w: World, o: Commit.Outcome)
    requires o.commandID !in w.rows.outcomes
    ensures var after := Next(w, StepOf(m, cfg, Records(o)));
            RunsAlone(m, cfg.staleCode, DurableOf(w), RecordOnly(o), [], DurableOf(after))
  {
    AppendNothing(w.history);
  }

  lemma {:induction false} SerialSnoc(
    m: Machine, staleCode: string, calls: seq<Call>, before: Durable, call: Call, views: seq<View>, after: Durable)
    requires SerialRun(m, staleCode, calls, before) && RunsAlone(m, staleCode, before, call, views, after)
    ensures SerialRun(m, staleCode, calls + [call], after)
  {
    var all := calls + [call];
    assert all[|all| - 1] == call && all[..|all| - 1] == calls;
    assert SerialRun(m, staleCode, all[..|all| - 1], before)
           && RunsAlone(m, staleCode, before, all[|all| - 1], views, after);
  }

  /**
    Every run leaves the history and the outcomes of its committed transactions run one at a
    time, in commit order.
   */
  lemma {:induction false} EveryRunIsSerial(m: Machine, cfg: Config, worlds: seq<World>, steps: seq<RunStep>, n: nat)
    requires ValidRun(m, cfg, worlds, steps) && n <= |steps|
    ensures SerialRun(m, cfg.staleCode, CallsIn(steps[..n]), DurableOf(worlds[n]))
  {
    if n == 0 {
      SerialStarts(m, cfg.staleCode);
      assert steps[..n] == [] && worlds[n] == EMPTY;
    } else {
      var k := n - 1;
      EveryRunIsSerial(m, cfg, worlds, steps, k);
      SerialStepInRun(m, cfg, worlds, steps, k);
    }
  }

  lemma {:induction false} SerialStepInRun(
    m: Machine, cfg: Config, worlds: seq<World>, steps: seq<RunStep>, k: nat)
    requires ValidRun(m, cfg, worlds, steps) && k < |steps|
    requires SerialRun(m, cfg.staleCode, CallsIn(steps[..k]), DurableOf(worlds[k]))
    ensures SerialRun(m, cfg.staleCode, CallsIn(steps[..k + 1]), DurableOf(worlds[k + 1]))
  {
    RunKeepsInvariant(m, cfg, worlds, steps, k);
    StepOfRun(m, cfg, worlds, steps, k);
    CallsSnoc(steps, k);
    SerialStep(m, cfg, worlds[..k + 1], steps[k], worlds[k + 1], CallsIn(steps[..k]));
  }

  lemma {:induction false} CallsSnoc(steps: seq<RunStep>, k: nat)
    requires k < |steps|
    ensures CallsIn(steps[..k + 1]) == CallsIn(steps[..k]) + CallOf(steps[k])
  {
    assert steps[..k + 1][..k] == steps[..k];
  }

  lemma {:induction false} SerialStarts(m: Machine, staleCode: string)
    ensures SerialRun(m, staleCode, [], DurableOf(EMPTY))
  {}

  lemma {:induction false} StepOfRun(m: Machine, cfg: Config, worlds: seq<World>, steps: seq<RunStep>, k: nat)
    requires ValidRun(m, cfg, worlds, steps) && k < |steps|
    ensures ValidStep(m, cfg, worlds[..k + 1], steps[k], worlds[k + 1])
    ensures worlds[..k + 1][|worlds[..k + 1]| - 1] == worlds[k]
    ensures worlds[..k + 2] == worlds[..k + 1] + [worlds[k + 1]]
  {}

  lemma {:induction false} SerialStep(
    m: Machine, cfg: Config, worlds: seq<World>, step: RunStep, next: World, calls: seq<Call>)
    requires worlds != [] && RunInv(m, worlds) && ValidStep(m, cfg, worlds, step, next)
    requires SerialRun(m, cfg.staleCode, calls, DurableOf(worlds[|worlds| - 1]))
    ensures SerialRun(m, cfg.staleCode, calls + CallOf(step), DurableOf(next))
  {
    var w := worlds[|worlds| - 1];
    match step {
      case Commits(ex) =>
        StepIsHonest(m, cfg, worlds, step);
        CommitIsSerial(m, cfg, w, ex);
        SerialSnoc(m, cfg.staleCode, calls, DurableOf(w), CallOf(step)[0], Views(ex.loads), DurableOf(next));
      case Records(o) =>
        RecordIsSerial(m, cfg, w, o);
        SerialSnoc(m, cfg.staleCode, calls, DurableOf(w), RecordOnly(o), [], DurableOf(next));
      case Compacts(_, _) =>
        MaintenanceLeavesAll(m, cfg, w, step);
        assert calls + [] == calls;
      case CatchesUp(_) =>
        MaintenanceLeavesAll(m, cfg, w, step);
        assert calls + [] == calls;
    }
  }

  lemma {:induction false} ViewsAgree(
    m: Machine, h: map<string, seq<Event>>, program: Program, a: seq<View>, b: seq<View>, k: nat)
    requires ReadsNow(m, h, program, a) && ReadsNow(m, h, program, b) && k <= |a| && k <= |b|
    ensures a[..k] == b[..k]
  {
    if k > 0 {
      ViewsAgree(m, h, program, a, b, k - 1);
      assert a[..k] == a[..k - 1] + [a[k - 1]] && b[..k] == b[..k - 1] + [b[k - 1]];
      assert program(a[..k - 1]) == ReadStream(a[k - 1].entity) && program(b[..k - 1]) == ReadStream(b[k - 1].entity);
    }
  }

  lemma {:induction false} ViewsAreDetermined(
    m: Machine, h: map<string, seq<Event>>, program: Program, a: seq<View>, b: seq<View>)
    requires ReadsNow(m, h, program, a) && ReadsNow(m, h, program, b)
    ensures a == b
  {
    var k := if |a| <= |b| then |a| else |b|;
    ViewsAgree(m, h, program, a, b, k);
    assert a[..|a|] == a && b[..|b|] == b;
  }

  lemma {:induction false} RunsAloneIsDetermined(
    m: Machine, staleCode: string, before: Durable, call: Call, views: seq<View>, views': seq<View>, a: Durable,
    b: Durable)
    requires RunsAlone(m, staleCode, before, call, views, a) && RunsAlone(m, staleCode, before, call, views', b)
    ensures a == b
  {
    if call.Call? { ViewsAreDetermined(m, before.history, call.program, views, views'); }
  }

  /** A serial run has one result, so what a concurrent run leaves is determined by its commit order. */
  lemma {:induction false} SerialRunIsDetermined(
    m: Machine, staleCode: string, calls: seq<Call>, a: Durable, b: Durable)
    requires SerialRun(m, staleCode, calls, a) && SerialRun(m, staleCode, calls, b)
    ensures a == b
  {
    if calls != [] {
      var call, front := calls[|calls| - 1], calls[..|calls| - 1];
      var before, views :| SerialRun(m, staleCode, front, before)
        && RunsAlone(m, staleCode, before, call, views, a);
      var before', views' :| SerialRun(m, staleCode, front, before')
        && RunsAlone(m, staleCode, before', call, views', b);
      SerialRunIsDetermined(m, staleCode, front, before, before');
      RunsAloneIsDetermined(m, staleCode, before, call, views, views', a, b);
    }
  }

  // ----- When a commit applies

  lemma {:induction false} UnreadIsUnwritten(m: Machine, cfg: Config, ex: Execution, id: string)
    requires Consistent(ex) && Stream(Normalized(CommitOf(m, cfg, ex)).events, id) != []
    ensures id in Entities(ex.loads)
  {
    CommitParts(m, cfg, ex);
    SortedStreams(CommitOf(m, cfg, ex).events, id);
    StreamOfFlat(ReadSet(m, ex.loads, Decides(ex).writes), ex.metadata, Entities(ex.loads), id);
  }

  lemma {:induction false} FenceOrigin(
    order: seq<string>, streams: map<string, TxStream>, fences: seq<Fence>, write: bool, f: Fence)
    requires f in Filter(Unread(streams), fences) + FlatMap(FencesOf(streams, write), order) && f.entity in streams
    ensures f == EngineFence(f.entity, streams[f.entity])
  {
    FilterMember(Unread(streams), fences, f);
    FlatMapMember(FencesOf(streams, write), order, f);
  }

  lemma {:induction false} CommittedFence(m: Machine, cfg: Config, ex: Execution, f: Fence)
    requires Consistent(ex) && WellFormed(CommitOf(m, cfg, ex)) && f in Normalized(CommitOf(m, cfg, ex)).fences
    requires f.entity in ReadSet(m, ex.loads, Decides(ex).writes)
    ensures f == EngineFence(f.entity, ReadSet(m, ex.loads, Decides(ex).writes)[f.entity])
  {
    var d, streams := Decides(ex), ReadSet(m, ex.loads, Decides(ex).writes);
    CommitParts(m, cfg, ex);
    KeptFences(CommitOf(m, cfg, ex));
    FenceOrigin(Entities(ex.loads), streams, d.fences, TakesEffect(m, ex), f);
  }

  /** Every load is of the stream's present end. */
  predicate AllCurrent(w: World, loads: seq<Observation>)
  {
    forall i | 0 <= i < |loads| :: loads[i].loaded.head == |History(w, loads[i].entity)|
  }

  lemma {:induction false} CurrentFenceHolds(m: Machine, cfg: Config, w: World, ex: Execution, f: Fence)
    requires Inv(m, w) && Consistent(ex) && WellFormed(CommitOf(m, cfg, ex)) && AllCurrent(w, ex.loads)
    requires f in Normalized(CommitOf(m, cfg, ex)).fences && f.entity in Entities(ex.loads)
    ensures FenceHolds(w.rows, f)
  {
    var writes, order := Decides(ex).writes, Entities(ex.loads);
    ReadSetLists(m, ex.loads, writes);
    CommittedFence(m, cfg, ex, f);
    var i :| 0 <= i < |order| && order[i] == f.entity;
    assert ex.loads[i].entity == f.entity;
    assert ReadSet(m, ex.loads, writes)[ex.loads[i].entity] == AppendedStream(m, ex.loads[i], writes);
    assert StreamInv(m, w, f.entity);
  }

  lemma {:induction false} CurrentContinues(m: Machine, cfg: Config, w: World, ex: Execution, id: string)
    requires Inv(m, w) && Consistent(ex) && AllCurrent(w, ex.loads)
    ensures Continues(w.rows, id, Stream(Normalized(CommitOf(m, cfg, ex)).events, id))
  {
    if Stream(Normalized(CommitOf(m, cfg, ex)).events, id) != [] {
      UnreadIsUnwritten(m, cfg, ex, id);
      var i :| 0 <= i < |Entities(ex.loads)| && Entities(ex.loads)[i] == id;
      assert ex.loads[i].entity == id && StreamInv(m, w, id);
      CommittedStreams(m, cfg, ex, i);
    }
  }

  lemma {:induction false} UnmovedMeansCurrent(m: Machine, cfg: Config, w: World, ex: Execution)
    requires Inv(m, w) && Consistent(ex) && WellFormed(CommitOf(m, cfg, ex))
    requires StreamsUnmoved(w.rows, Normalized(CommitOf(m, cfg, ex)))
    ensures AllCurrent(w, ex.loads)
  {
    var d := Decides(ex);
    ReadSetLists(m, ex.loads, d.writes);
    ReadsAreCurrentAtCommit(w.rows, d.decision, Entities(ex.loads), ReadSet(m, ex.loads, d.writes),
                            d.fences, d.expected, ex.metadata, cfg.interval, cfg.staleCode);
    forall i | 0 <= i < |ex.loads| ensures ex.loads[i].loaded.head == |History(w, ex.loads[i].entity)| {
      assert StreamInv(m, w, ex.loads[i].entity);
    }
  }

  /** A fence the caller stamped on a stream the transaction did not read is in the commit. */
  lemma {:induction false} CallerFenceIsCommitted(m: Machine, cfg: Config, ex: Execution, f: Fence)
    requires Consistent(ex) && WellFormed(CommitOf(m, cfg, ex)) && f.entity !in Entities(ex.loads)
    ensures f in Normalized(CommitOf(m, cfg, ex)).fences <==> f in Decides(ex).fences
  {
    var d, r := Decides(ex), CommitOf(m, cfg, ex);
    var streams := ReadSet(m, ex.loads, d.writes);
    ReadSetLists(m, ex.loads, d.writes);
    assert f.entity !in streams;
    FencesExactly(d.decision, Entities(ex.loads), streams, d.fences, d.expected, ex.metadata, cfg.interval,
                  cfg.staleCode, f);
    KeptFences(r);
    UnreadHasNoEvents(m, cfg, ex, f.entity);
  }

  lemma {:induction false} UnreadHasNoEvents(m: Machine, cfg: Config, ex: Execution, id: string)
    requires Consistent(ex) && id !in Entities(ex.loads)
    ensures id !in Writes(CommitOf(m, cfg, ex).events)
  {
    WritesAreStreams(CommitOf(m, cfg, ex).events, id);
    CommitParts(m, cfg, ex);
    StreamOfFlat(ReadSet(m, ex.loads, Decides(ex).writes), ex.metadata, Entities(ex.loads), id);
  }

  /** The sequence of the stored snapshot, or 0 without one. */
  function StoredSequence(rows: Rows, id: string): int
  {
    if id in rows.snapshots then rows.snapshots[id].sequence else 0
  }

  /** The load's stream is due a snapshot in this commit. */
  predicate DueSnapshot(m: Machine, cfg: Config, ex: Execution, o: Observation)
    requires Decides(ex).Decide?
  {
    TakesEffect(m, ex) && TakesSnapshot(AppendedStream(m, o, Decides(ex).writes), o.entity, cfg.interval)
  }

  lemma {:induction false} SnapshotsFollowExactly(m: Machine, cfg: Config, w: World, ex: Execution)
    requires Consistent(ex)
    ensures (forall s | s in Normalized(CommitOf(m, cfg, ex)).snapshots :: SnapshotFollows(w.rows, s)) <==>
            forall i | 0 <= i < |ex.loads| && DueSnapshot(m, cfg, ex, ex.loads[i]) ::
              ex.loads[i].loaded.snapshot == StoredSequence(w.rows, ex.loads[i].entity)
  {
    var n := Normalized(CommitOf(m, cfg, ex));
    if forall s | s in n.snapshots :: SnapshotFollows(w.rows, s) {
      forall i | 0 <= i < |ex.loads| && DueSnapshot(m, cfg, ex, ex.loads[i])
        ensures ex.loads[i].loaded.snapshot == StoredSequence(w.rows, ex.loads[i].entity)
      {
        var o := ex.loads[i];
        var s := Captured(o.entity, AppendedStream(m, o, Decides(ex).writes));
        ReadSetLists(m, ex.loads, Decides(ex).writes);
        assert Entities(ex.loads)[i] == o.entity;
        CommittedSnapshots(m, cfg, ex, s);
        assert SnapshotFollows(w.rows, s);
      }
    } else {
      var s :| s in n.snapshots && !SnapshotFollows(w.rows, s);
      var i := SnapshottedLoad(m, cfg, ex, s);
      assert DueSnapshot(m, cfg, ex, ex.loads[i]);
    }
  }

  /**
    A transaction's commit is refused only for something that moved: it applies exactly when its
    command has no outcome, every stream it read is where it was loaded, every fence the caller
    stamped on another stream holds, and every stream due a snapshot still has the one it was
    loaded with.
   */
  lemma {:induction false} AdmittedExactlyWhenCurrent(m: Machine, cfg: Config, w: World, ex: Execution)
    requires Inv(m, w) && Consistent(ex) && WellFormed(CommitOf(m, cfg, ex))
    ensures Admits(w.rows, Normalized(CommitOf(m, cfg, ex))) <==>
            && (Decides(ex).decision.Some? ==> Decides(ex).decision.value.command !in w.rows.outcomes)
            && AllCurrent(w, ex.loads)
            && (forall f | f in Decides(ex).fences && f.entity !in Entities(ex.loads) ::
                  Head(w.rows, f.entity) == f.head && (f.entity in w.rows.heads || f.head == 0))
            && (forall i | 0 <= i < |ex.loads| && DueSnapshot(m, cfg, ex, ex.loads[i]) ::
                  ex.loads[i].loaded.snapshot == StoredSequence(w.rows, ex.loads[i].entity))
  {
    var n := Normalized(CommitOf(m, cfg, ex));
    CommitParts(m, cfg, ex);
    SnapshotsFollowExactly(m, cfg, w, ex);
    FencesHoldExactly(m, cfg, w, ex);
    if StreamsUnmoved(w.rows, n) { UnmovedMeansCurrent(m, cfg, w, ex); }
    if AllCurrent(w, ex.loads) {
      forall id ensures Continues(w.rows, id, Stream(n.events, id)) { CurrentContinues(m, cfg, w, ex, id); }
    }
  }

  lemma {:induction false} FencesHoldExactly(m: Machine, cfg: Config, w: World, ex: Execution)
    requires Inv(m, w) && Consistent(ex) && WellFormed(CommitOf(m, cfg, ex))
    ensures AllCurrent(w, ex.loads) ==>
              ((forall f | f in Normalized(CommitOf(m, cfg, ex)).fences :: FenceHolds(w.rows, f)) <==>
               forall f | f in Decides(ex).fences && f.entity !in Entities(ex.loads) :: FenceHolds(w.rows, f))
  {
    if AllCurrent(w, ex.loads) {
      var n := Normalized(CommitOf(m, cfg, ex));
      forall f | f in n.fences && f.entity in Entities(ex.loads) ensures FenceHolds(w.rows, f) {
        CurrentFenceHolds(m, cfg, w, ex, f);
      }
      forall f: Fence | f.entity !in Entities(ex.loads) ensures f in n.fences <==> f in Decides(ex).fences {
        CallerFenceIsCommitted(m, cfg, ex, f);
      }
    }
  }

  // ----- One commit per command

  /** The outcome a step records, if any. */
  function Recorded(m: Machine, cfg: Config, step: RunStep): Option<Commit.Outcome>
  {
    match step
    case Commits(ex) => if Decides(ex).Decide? then Normalized(CommitOf(m, cfg, ex)).outcome else None
    case Records(o) => Some(o)
    case Compacts(_, _) => None
    case CatchesUp(_) => None
  }

  /** In no run do two commits carry the outcome of one command. */
  lemma {:induction false} OneCommitPerCommand(
    m: Machine, cfg: Config, worlds: seq<World>, steps: seq<RunStep>, i: nat, j: nat)
    requires ValidRun(m, cfg, worlds, steps) && i < j < |steps|
    requires Recorded(m, cfg, steps[i]).Some? && Recorded(m, cfg, steps[j]).Some?
    ensures Recorded(m, cfg, steps[i]).value.commandID != Recorded(m, cfg, steps[j]).value.commandID
  {
    StepOfRun(m, cfg, worlds, steps, i);
    StepOfRun(m, cfg, worlds, steps, j);
    RunKeepsInvariant(m, cfg, worlds, steps, j);
    assert worlds[..j + 1][i + 1] == worlds[i + 1] && worlds[..j + 1][j] == worlds[j];
    assert Grows(worlds[i + 1], worlds[j]);
    assert Recorded(m, cfg, steps[i]).value.commandID in worlds[i + 1].rows.outcomes;
  }
}
